/**
 * The collection of user status messages: a table keyed by status id whose
 * rows hold the owning user id and the status text. The relational store
 * behind the collection is modelled as a map from status id to row.
 */
module UserStatus {
  import TextMatch

  datatype Option<+T> = None | Some(value: T)

  /** What the table keeps under a status id: the owner and the text. */
  datatype Entry = Entry(userId: string, statusText: string)

  /** A status message as the queries hand it back, key included. */
  datatype Status = Status(statusId: string, userId: string, statusText: string)

  /** The status table; the status id is its primary key. */
  type Table = map<string, Entry>

  /** Outcome of a call that may change the table: success flag and the table afterwards. */
  datatype Step = Step(ok: bool, after: Table)

  /** `s` is exactly the row stored under its own id. */
  predicate Stored(t: Table, s: Status) {
    s.statusId in t && t[s.statusId] == Entry(s.userId, s.statusText)
  }

  /** The row under `statusId`, as a status message. */
  function RowAt(t: Table, statusId: string): Status
    requires statusId in t
  {
    Status(statusId, t[statusId].userId, t[statusId].statusText)
  }

  /** Referential integrity: every stored status belongs to a known user. */
  predicate OwnersKnown(t: Table, users: set<string>) {
    forall id :: id in t ==> t[id].userId in users
  }

  /** `t` and `t'` hold the same rows under every id other than `statusId`. */
  ghost predicate SameElsewhere(t: Table, t': Table, statusId: string) {
    forall id :: id != statusId ==> (id in t <==> id in t') && (id in t ==> t[id] == t'[id])
  }

  // ---------------------------------------------------------------------
  // Read-only queries over the current table
  // ---------------------------------------------------------------------

  /** search_status: the stored message with this id, or None when there is none. */
  function SearchStatus(t: Table, statusId: string): (r: Option<Status>)
    ensures r.Some? <==> statusId in t
    ensures r.Some? ==> r.value.statusId == statusId && Stored(t, r.value)
  {
    if statusId in t then Some(RowAt(t, statusId)) else None
  }

  /**
   * search_all_status_updates: every message owned by `userId`; None when
   * that user owns none.
   */
  function SearchAllStatusUpdates(t: Table, userId: string): (r: Option<set<Status>>)
    ensures r.None? <==> forall id :: id in t ==> t[id].userId != userId
    ensures r.Some? ==> r.value != {}
    ensures r.Some? ==> forall s :: s in r.value <==> Stored(t, s) && s.userId == userId
  {
    var found := set id | id in t && t[id].userId == userId :: RowAt(t, id);
    if found == {} then
      assert forall id :: id in t ==> RowAt(t, id) !in found;
      None
    else
      Some(found)
  }

  /**
   * filter_status_by_string: every message whose text contains `phrase`;
   * None when no text does.
   */
  function FilterStatusByString(t: Table, phrase: string): (r: Option<set<Status>>)
    ensures r.None? <==> forall id :: id in t ==> !TextMatch.Contains(t[id].statusText, phrase)
    ensures r.Some? ==> r.value != {}
    ensures r.Some? ==>
      forall s :: s in r.value <==> Stored(t, s) && TextMatch.Contains(s.statusText, phrase)
  {
    var found := set id | id in t && TextMatch.Contains(t[id].statusText, phrase) :: RowAt(t, id);
    if found == {} then
      assert forall id :: id in t ==> RowAt(t, id) !in found;
      None
    else
      Some(found)
  }

  // ---------------------------------------------------------------------
  // The effect of each changing operation on the table
  // ---------------------------------------------------------------------

  /**
   * add_status: the insert succeeds exactly when the id is new and the
   * owner is a known user (otherwise the store raises an integrity error);
   * on success the table gains exactly the submitted row.
   */
  function AddStep(t: Table, users: set<string>, statusId: string, userId: string, statusText: string): (r: Step)
    ensures r.ok <==> statusId !in t && userId in users
    ensures r.ok ==> SearchStatus(r.after, statusId) == Some(Status(statusId, userId, statusText))
    ensures !r.ok ==> r.after == t
    ensures SameElsewhere(t, r.after, statusId)
    ensures |r.after| == if r.ok then |t| + 1 else |t|
    ensures OwnersKnown(t, users) ==> OwnersKnown(r.after, users)
  {
    if statusId in t || userId !in users then Step(false, t)
    else Step(true, t[statusId := Entry(userId, statusText)])
  }

  /**
   * modify_status: succeeds exactly when the id is present, and then
   * replaces only the text; the owner stays as stored, whatever `userId` is
   * passed (the source only logs it).
   */
  function ModifyStep(t: Table, statusId: string, userId: string, statusText: string): (r: Step)
    ensures r.ok <==> statusId in t
    ensures r.ok ==> SearchStatus(r.after, statusId) == Some(Status(statusId, t[statusId].userId, statusText))
    ensures !r.ok ==> r.after == t
    ensures SameElsewhere(t, r.after, statusId)
    ensures r.after.Keys == t.Keys
    ensures forall id :: id in r.after ==> r.after[id].userId == t[id].userId
  {
    if statusId in t then Step(true, t[statusId := Entry(t[statusId].userId, statusText)])
    else Step(false, t)
  }

  /**
   * delete_status: succeeds exactly when the id is present; afterwards the
   * id is absent and every other row is as before.
   */
  function DeleteStep(t: Table, statusId: string): (r: Step)
    ensures r.ok <==> statusId in t
    ensures statusId !in r.after
    ensures !r.ok ==> r.after == t
    ensures SameElsewhere(t, r.after, statusId)
    ensures |r.after| == if r.ok then |t| - 1 else |t|
  {
    if statusId in t then Step(true, t - {statusId}) else Step(false, t)
  }

  // ---------------------------------------------------------------------
  // The collection object
  // ---------------------------------------------------------------------

  /**
   * The status collection. `table` is the status table the collection
   * writes through to; `users` is the set of user ids in the accounts
   * table, which the store's foreign key checks on insert. The accounts
   * table belongs to another collection, so it is fixed here.
   */
  class UserStatusCollection {
    var table: Table
    const users: set<string>

    /** The store's invariant: no status refers to an unknown user. */
    predicate Valid()
      reads this
    {
      OwnersKnown(table, users)
    }

    /** Binds the collection to an existing status table. */
    constructor (existing: Table, knownUsers: set<string>)
      requires OwnersKnown(existing, knownUsers)
      ensures Valid()
      ensures table == existing && users == knownUsers
    {
      table := existing;
      users := knownUsers;
    }

    /** add_status */
    method AddStatus(statusId: string, userId: string, statusText: string) returns (ok: bool)
      requires Valid()
      modifies this
      ensures Valid()
      ensures Step(ok, table) == AddStep(old(table), users, statusId, userId, statusText)
    {
      if statusId in table || userId !in users {
        // the insert violates the primary key or the foreign key
        return false;
      }
      table := table[statusId := Entry(userId, statusText)];
      return true;
    }

    /** modify_status */
    method ModifyStatus(statusId: string, userId: string, statusText: string) returns (ok: bool)
      requires Valid()
      modifies this
      ensures Valid()
      ensures Step(ok, table) == ModifyStep(old(table), statusId, userId, statusText)
    {
      if statusId !in table {
        return false;
      }
      var row := table[statusId];
      table := table[statusId := row.(statusText := statusText)];
      return true;
    }

    /** delete_status */
    method DeleteStatus(statusId: string) returns (ok: bool)
      requires Valid()
      modifies this
      ensures Valid()
      ensures Step(ok, table) == DeleteStep(old(table), statusId)
    {
      if statusId !in table {
        return false;
      }
      table := table - {statusId};
      return true;
    }
  }

  /** The fixture of the collection's unit tests: user "test123" owning one status "test123_00001". */
  method SetUpCollection() returns (c: UserStatusCollection)
    ensures fresh(c) && c.Valid() && c.users == {"test123"}
    ensures c.table == FixtureTable()
  {
    c := new UserStatusCollection(map[], {"test123"});
    var ok := c.AddStatus("test123_00001", "test123", "test status");
  }

  /** The fixture as a table: what the unit tests start from. */
  function FixtureTable(): Table {
    map["test123_00001" := Entry("test123", "test status")]
  }

  /**
   * test_add_status, from the method contracts alone: a duplicate id fails
   * and leaves the fixture unchanged; a fresh id succeeds and the lookup
   * gives the submitted fields.
   */
  method TestAddStatus() returns (duplicateOk: bool, afterDuplicate: Table, freshOk: bool, found: Option<Status>)
    ensures !duplicateOk && afterDuplicate == FixtureTable()
    ensures freshOk && found == Some(Status("test123_00002", "test123", "test status 2"))
  {
    var c := SetUpCollection();
    duplicateOk := c.AddStatus("test123_00001", "test123", "test status");
    afterDuplicate := c.table;
    freshOk := c.AddStatus("test123_00002", "test123", "test status 2");
    found := SearchStatus(c.table, "test123_00002");
  }

  /**
   * test_modify_status: modifying an absent id fails and creates no row;
   * modifying a present id succeeds, keeps the owner and stores the new text.
   */
  method TestModifyStatus() returns (absentOk: bool, absentCreated: bool, presentOk: bool, found: Option<Status>)
    ensures !absentOk && !absentCreated
    ensures presentOk && found == Some(Status("test123_00001", "test123", "new modified status!"))
  {
    var c := SetUpCollection();
    absentOk := c.ModifyStatus("test123_00002", "test123", "test modify status");
    absentCreated := "test123_00002" in c.table;
    presentOk := c.ModifyStatus("test123_00001", "test123", "new modified status!");
    found := SearchStatus(c.table, "test123_00001");
  }

  /**
   * test_delete_status: deleting an absent id fails; deleting a present id
   * succeeds and the lookup finds nothing afterwards.
   */
  method TestDeleteStatus() returns (absentOk: bool, presentOk: bool, found: Option<Status>)
    ensures !absentOk && presentOk && found == None
  {
    var c := SetUpCollection();
    absentOk := c.DeleteStatus("test123_00002");
    presentOk := c.DeleteStatus("test123_00001");
    found := SearchStatus(c.table, "test123_00001");
  }

  /**
   * test_search_status: an absent id gives None; a present id gives the
   * stored id, text and owner.
   */
  method TestSearchStatus() returns (absent: Option<Status>, present: Option<Status>)
    ensures absent == None
    ensures present == Some(Status("test123_00001", "test123", "test status"))
  {
    var c := SetUpCollection();
    absent := SearchStatus(c.table, "test123_00002");
    present := SearchStatus(c.table, "test123_00001");
  }
}
