/**
 * Properties that relate several operations of the status collection: round
 * trips between adding, deleting and modifying, and how each change shows up
 * in the two selection queries.
 */
module UserStatusProperties {
  import TextMatch
  import opened UserStatus

  /** The messages a selection query found; none when it answered None. */
  function Found(r: Option<set<Status>>): set<Status> {
    if r.Some? then r.value else {}
  }

  /** Deleting a status that was just added gives back the table from before the add. */
  lemma AddThenDeleteRestores(t: Table, users: set<string>, statusId: string, userId: string, statusText: string)
    requires AddStep(t, users, statusId, userId, statusText).ok
    ensures DeleteStep(AddStep(t, users, statusId, userId, statusText).after, statusId) == Step(true, t)
  { }

  /** Adding back the row that was just deleted gives back the table from before the delete. */
  lemma DeleteThenAddRestores(t: Table, users: set<string>, statusId: string)
    requires statusId in t && t[statusId].userId in users
    ensures AddStep(DeleteStep(t, statusId).after, users, statusId, t[statusId].userId, t[statusId].statusText)
         == Step(true, t)
  { }

  /** Modifying a status back to its previous text gives back the original table. */
  lemma ModifyBackRestores(t: Table, statusId: string, userId: string, userId': string, statusText: string)
    requires statusId in t
    ensures ModifyStep(ModifyStep(t, statusId, userId, statusText).after, statusId, userId', t[statusId].statusText)
         == Step(true, t)
  { }

  /** Of two modifications of the same status, only the last text remains. */
  lemma ModifyLastWins(t: Table, statusId: string, u: string, v: string, first: string, second: string)
    ensures ModifyStep(ModifyStep(t, statusId, u, first).after, statusId, v, second)
         == ModifyStep(t, statusId, v, second)
  { }

  /**
   * A successful add shows up in its owner's status updates, and only
   * there: every other user's answer is unchanged.
   */
  lemma AddShowsInOwnersUpdates(t: Table, users: set<string>, statusId: string, userId: string, statusText: string, other: string)
    requires AddStep(t, users, statusId, userId, statusText).ok
    ensures SearchAllStatusUpdates(AddStep(t, users, statusId, userId, statusText).after, userId)
         == Some(Found(SearchAllStatusUpdates(t, userId)) + {Status(statusId, userId, statusText)})
    ensures other != userId ==>
      SearchAllStatusUpdates(AddStep(t, users, statusId, userId, statusText).after, other)
      == SearchAllStatusUpdates(t, other)
  {
    var added := AddStep(t, users, statusId, userId, statusText).after;
    var before := Found(SearchAllStatusUpdates(t, userId));
    var now := SearchAllStatusUpdates(added, userId);
    assert Stored(added, Status(statusId, userId, statusText));
    assert now.value == before + {Status(statusId, userId, statusText)};
    if other != userId {
      var o1 := SearchAllStatusUpdates(t, other);
      var o2 := SearchAllStatusUpdates(added, other);
      if o2.Some? {
        assert o1.Some? by {
          var s :| s in o2.value;
          assert Stored(t, s);
        }
        assert o1.value == o2.value;
      } else {
        assert o1.None?;
      }
    }
  }

  /** A successful delete takes the removed message out of its owner's status updates and changes nothing else there. */
  lemma DeleteLeavesOwnersUpdates(t: Table, statusId: string, userId: string)
    requires statusId in t
    ensures Found(SearchAllStatusUpdates(DeleteStep(t, statusId).after, userId))
         == Found(SearchAllStatusUpdates(t, userId)) - {RowAt(t, statusId)}
  { }

  /** A successful delete takes the removed message out of every phrase filter and changes nothing else there. */
  lemma DeleteLeavesFilter(t: Table, statusId: string, phrase: string)
    requires statusId in t
    ensures Found(FilterStatusByString(DeleteStep(t, statusId).after, phrase))
         == Found(FilterStatusByString(t, phrase)) - {RowAt(t, statusId)}
  { }

  /**
   * After a successful modify, the phrase filter drops the old row and
   * holds the new one exactly when the new text contains the phrase.
   */
  lemma ModifyMovesThroughFilter(t: Table, statusId: string, userId: string, statusText: string, phrase: string)
    requires statusId in t
    ensures Found(FilterStatusByString(ModifyStep(t, statusId, userId, statusText).after, phrase))
         == Found(FilterStatusByString(t, phrase)) - {RowAt(t, statusId)}
            + (if TextMatch.Contains(statusText, phrase)
               then {Status(statusId, t[statusId].userId, statusText)} else {})
  { }

  /** Each stored message is selected for its own owner and for no other user. */
  lemma OwnerQueriesPartition(t: Table, statusId: string, userId: string)
    requires statusId in t
    ensures RowAt(t, statusId) in Found(SearchAllStatusUpdates(t, userId)) <==> t[statusId].userId == userId
  { }

  /** The ids of the statuses owned by `userId`. */
  function OwnedIds(t: Table, userId: string): set<string> {
    set id | id in t && t[id].userId == userId
  }

  /** Distinct ids give distinct rows, so a set of stored ids has as many rows as ids. */
  lemma {:induction false} RowsOfIdsCount(t: Table, ids: set<string>)
    requires ids <= t.Keys
    ensures |set id | id in ids :: RowAt(t, id)| == |ids|
  {
    if ids != {} {
      var x :| x in ids;
      var rest := ids - {x};
      RowsOfIdsCount(t, rest);
      var restRows := set id | id in rest :: RowAt(t, id);
      assert (set id | id in ids :: RowAt(t, id)) == restRows + {RowAt(t, x)};
      assert RowAt(t, x) !in restRows;
    }
  }

  /**
   * The number of updates reported for a user is the number of stored
   * statuses that user owns, and never more than the table holds.
   */
  lemma UpdatesCount(t: Table, userId: string)
    ensures |Found(SearchAllStatusUpdates(t, userId))| == |OwnedIds(t, userId)| <= |t|
  {
    var owned := OwnedIds(t, userId);
    RowsOfIdsCount(t, owned);
    assert Found(SearchAllStatusUpdates(t, userId)) == set id | id in owned :: RowAt(t, id);
    assert t.Keys == owned + (t.Keys - owned);
  }

  /**
   * A longer search phrase can only narrow the filter: whatever matches a
   * phrase that contains `phrase` matches `phrase` as well.
   */
  lemma FilterNarrows(t: Table, phrase: string, longer: string)
    requires TextMatch.Contains(longer, phrase)
    ensures Found(FilterStatusByString(t, longer)) <= Found(FilterStatusByString(t, phrase))
  {
    var narrow := FilterStatusByString(t, longer);
    if narrow.Some? {
      forall s | s in narrow.value ensures s in Found(FilterStatusByString(t, phrase)) {
        TextMatch.ContainsTransitive(s.statusText, longer, phrase);
        assert FilterStatusByString(t, phrase).Some?;
      }
    }
  }

  /** The empty phrase matches every stored message. */
  lemma EmptyPhraseMatchesAll(t: Table, statusId: string)
    requires statusId in t
    ensures RowAt(t, statusId) in Found(FilterStatusByString(t, ""))
  { }

  /** The phrase filter answers exactly a given non-empty set when that set holds exactly the matching stored messages. */
  lemma FilterSelectsExactly(t: Table, phrase: string, expected: set<Status>)
    requires expected != {}
    requires forall s :: s in expected <==> Stored(t, s) && TextMatch.Contains(s.statusText, phrase)
    ensures FilterStatusByString(t, phrase) == Some(expected)
  {
    var s :| s in expected;
    assert Stored(t, s);
    var r := FilterStatusByString(t, phrase);
    assert r.Some?;
    assert r.value == expected;
  }

  /** Three statuses: "I like cats", "dogs rule" and "concatenate". */
  function CatTable(): Table {
    map["s1" := Entry("u1", "I like cats"), "s2" := Entry("u1", "dogs rule"), "s3" := Entry("u2", "concatenate")]
  }

  /** Of the rows of CatTable, the first and the third contain "cat". */
  lemma CatMatches(s: Status)
    ensures Stored(CatTable(), s) && TextMatch.Contains(s.statusText, "cat")
        <==> s == Status("s1", "u1", "I like cats") || s == Status("s3", "u2", "concatenate")
  {
    if s == Status("s1", "u1", "I like cats") {
      assert "I like cats"[7..10] == "cat";
      assert TextMatch.OccursAt(s.statusText, "cat", 7);
    } else if s == Status("s3", "u2", "concatenate") {
      assert "concatenate"[3..6] == "cat";
      assert TextMatch.OccursAt(s.statusText, "cat", 3);
    } else if Stored(CatTable(), s) {
      assert s.statusId == "s2";
      TextMatch.FirstCharAbsent(s.statusText, "cat");
    }
  }

  /** Filtering CatTable by "cat" selects "I like cats" and "concatenate" and not "dogs rule". */
  lemma FilterCatExample()
    ensures FilterStatusByString(CatTable(), "cat")
         == Some({Status("s1", "u1", "I like cats"), Status("s3", "u2", "concatenate")})
  {
    var expected := {Status("s1", "u1", "I like cats"), Status("s3", "u2", "concatenate")};
    forall s ensures s in expected <==> Stored(CatTable(), s) && TextMatch.Contains(s.statusText, "cat") {
      CatMatches(s);
    }
    FilterSelectsExactly(CatTable(), "cat", expected);
  }
}
