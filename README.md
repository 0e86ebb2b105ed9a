# User status collection, modelled in Dafny

The social network keeps status messages in a table keyed by status id. Each
row holds the id of the owning user and the status text. `UserStatusCollection`
(user_status.py) is the service over that table. It has three operations that
change the table: add, modify and delete. Each reports success or failure as a
boolean. It also has three read-only queries: look up one status by id, select
all statuses of one user, and select all statuses whose text contains a phrase.
Both selections answer None when nothing matches.

The model replaces the relational store with a Dafny map from status id to row
(`UserStatus.Table`).

- `text_match.dfy` (module `TextMatch`) defines what "the text contains the
  phrase" means: plain substring containment. `Contains` searches start
  positions from the left. It is proved equal to "some position holds the
  phrase" (`OccursAt`).
- `user_status.dfy` (module `UserStatus`) holds the data model and the three
  queries as functions of the table. `AddStep`, `ModifyStep` and `DeleteStep`
  are functions that give the effect of each changing operation. The class
  `UserStatusCollection` has a `table` field. Its methods `AddStatus`,
  `ModifyStatus` and `DeleteStatus` update that field in place, and each one is
  proved to agree with its step function. The class invariant `Valid` says that
  every status belongs to a known user. `TestAddStatus`, `TestModifyStatus`,
  `TestDeleteStatus` and `TestSearchStatus` replay the scenarios of
  test_user_status.py on the model. Their postconditions state what each unit
  test checks, and they are proved from the method contracts alone.
- `user_status_properties.dfy` (module `UserStatusProperties`) relates the
  operations to each other. It covers add/delete and delete/add round trips, a
  modify that restores the old text, the last of two modifies winning, how each
  change shows up in the two selection queries, and narrowing the filter with a
  longer phrase. It also works through one concrete filtering example.

The owner check on insert is an assumption about the schema:
socialnetwork_model.py, which declares the schema, is not part of this model. `add_status` turns any integrity error into False
(user_status.py:40), and the tests switch SQLite foreign keys on
(test_user_status.py:24). So the model assumes that the status table's user id
is a foreign key into the accounts table. The accounts table belongs to another
collection. Here it is the fixed set `users` of known user ids. No test in
test_user_status.py adds a status for an unknown user.

## Model

| member | source | states |
|---|---|---|
| `UserStatus.SearchStatus` | user_status.py:71-83 | Answers Some exactly when the id is stored. The answer is then the stored row under that id, owner and text included. An absent id gives None. |
| `UserStatus.SearchAllStatusUpdates` | user_status.py:85-95 | Answers None exactly when no stored status has this owner. Otherwise it gives a non-empty set that holds exactly the stored rows owned by the user. |
| `UserStatus.FilterStatusByString` | user_status.py:97-110 | Answers None exactly when no stored text contains the phrase. Otherwise it gives a non-empty set that holds exactly the stored rows whose text contains the phrase. |
| `UserStatus.AddStep` | user_status.py:29-42 | The insert succeeds exactly when the id is new and the owner is a known user. On success, looking up the id gives exactly the submitted owner and text. On failure the table is unchanged. Every other id's row is untouched. The size grows by one only on success. Referential integrity is preserved. |
| `UserStatus.ModifyStep` | user_status.py:44-56 | Succeeds exactly when the id is present. On success only the text changes: the id set and every owner stay as stored, whatever user id is passed. On failure the table is unchanged and no row is created. |
| `UserStatus.DeleteStep` | user_status.py:58-69 | Succeeds exactly when the id is present. Afterwards the id is absent and every other row is untouched. The size drops by one only on success. On failure nothing changes. |
| `UserStatus.UserStatusCollection.constructor` | user_status.py:25-27 | Binds the collection to an existing status table and set of known users. The invariant holds. |
| `UserStatus.UserStatusCollection.AddStatus` | user_status.py:29-42 | The returned flag and the new table are those of `AddStep` on the old table. The invariant is kept. |
| `UserStatus.UserStatusCollection.ModifyStatus` | user_status.py:44-56 | The returned flag and the new table are those of `ModifyStep` on the old table. The invariant is kept. |
| `UserStatus.UserStatusCollection.DeleteStatus` | user_status.py:58-69 | The returned flag and the new table are those of `DeleteStep` on the old table. The invariant is kept. |
| `UserStatus.SetUpCollection` | test_user_status.py:17-30 | The test fixture gives a fresh valid collection. Its only user is "test123" and its only status is "test123_00001". |
| `UserStatus.TestAddStatus` | test_user_status.py:38-52 | From the contracts alone: adding a duplicate id fails and leaves the fixture table unchanged; adding a fresh id succeeds and the lookup gives exactly the submitted id, owner and text. |
| `UserStatus.TestModifyStatus` | test_user_status.py:54-72 | From the contracts alone: modifying an absent id fails and creates no row; modifying a present id succeeds and the lookup gives the same id and owner with the new text. |
| `UserStatus.TestDeleteStatus` | test_user_status.py:74-86 | From the contracts alone: deleting an absent id fails; deleting a present id succeeds and the lookup then gives None. |
| `UserStatus.TestSearchStatus` | test_user_status.py:88-99 | From the contracts alone: searching an absent id gives None; searching a present id gives the stored id, text and owner. |
| `TextMatch.Contains` | user_status.py:102-103 | The left-to-right search for the phrase is true exactly when the phrase occurs at some position of the text. |
| `TextMatch.ContainsTransitive` | user_status.py:102-103 | Containment is transitive: a phrase inside a phrase found in the text is found in the text. |
| `TextMatch.FirstCharAbsent` | user_status.py:102-103 | A phrase whose first character never appears in the text is not contained in it. |
| `UserStatusProperties.AddThenDeleteRestores` | user_status.py:29-69 | Deleting a status right after a successful add succeeds and gives back exactly the table from before the add. |
| `UserStatusProperties.DeleteThenAddRestores` | user_status.py:29-69 | Re-adding a deleted row (owner known) succeeds and gives back exactly the table from before the delete. |
| `UserStatusProperties.ModifyBackRestores` | user_status.py:48-51 | Modifying a status back to its previous text gives back the original table. |
| `UserStatusProperties.ModifyLastWins` | user_status.py:48-51 | Two modifies of the same id have the effect of the second alone, present or absent. |
| `UserStatusProperties.AddShowsInOwnersUpdates` | user_status.py:85-95 | After a successful add, the owner's updates are the earlier ones plus the new status. Every other user's answer is unchanged. |
| `UserStatusProperties.DeleteLeavesOwnersUpdates` | user_status.py:85-95 | After a delete, the owner query finds what it found before, less the deleted row. |
| `UserStatusProperties.DeleteLeavesFilter` | user_status.py:97-110 | After a delete, the phrase filter finds what it found before, less the deleted row. |
| `UserStatusProperties.ModifyMovesThroughFilter` | user_status.py:97-110 | After a modify, the phrase filter loses the old row. It gains the edited row exactly when the new text contains the phrase. |
| `UserStatusProperties.OwnerQueriesPartition` | user_status.py:85-95 | A stored status is selected for its owner and for no other user. |
| `UserStatusProperties.UpdatesCount` | user_status.py:91-94 | The count of updates found for a user, the number the query logs, equals the number of stored statuses the user owns. It never exceeds the table size. |
| `UserStatusProperties.FilterNarrows` | user_status.py:102-103 | Filtering by a longer phrase that contains the shorter one selects a subset of what the shorter phrase selects. |
| `UserStatusProperties.EmptyPhraseMatchesAll` | user_status.py:102-103 | The empty phrase selects every stored status. |
| `UserStatusProperties.FilterSelectsExactly` | user_status.py:97-110 | The filter answers Some of a non-empty set whenever that set holds exactly the matching stored rows. |
| `UserStatusProperties.CatMatches` | user_status.py:102-103 | Over the three example rows, the stored rows containing "cat" are "I like cats" and "concatenate". |
| `UserStatusProperties.FilterCatExample` | user_status.py:97-110 | Filtering "I like cats", "dogs rule" and "concatenate" by "cat" selects the first and the third. |

## Left out

- Logging: every `logging` call in user_status.py only records what happened. The model drops them.
- The ORM and SQLite: `create`/`save`, `get`, `delete_instance`, `select().where(...)`, the `IntegrityError` and `DoesNotExist` exceptions, and table binding are all abstracted into the map and the success flag.
- `UserStatus.FilterStatusByString`: the store evaluates `contains`, and peewee renders it as a LIKE pattern. In SQLite that match ignores ASCII case, and `%` or `_` in the search word may act as wildcards, depending on the peewee version. The model uses plain, case-sensitive substring containment instead.
- Result order and iterators: the queries have no ORDER BY. `filter_status_by_string` runs its query twice to hand back a fresh iterator. The model returns sets, so order and iterator state are not modelled.
- The schema module, the accounts collection and the bulk CSV load are not part of this model. That includes cascade deletion of a user's statuses when the user is deleted. The set of known users is therefore a constant of the collection.
- Foreign-key check: `AddStep` failing for an unknown owner is an assumption about the schema in socialnetwork_model.py, which is not part of this model. No test in test_user_status.py adds a status for an unknown user.
- The constructor requires that the table it binds to already satisfies referential integrity. In the source the store guarantees this; it is not a check in `__init__`.
- The interactive menu (menu.py) is glue around these operations and is not modelled.
- The docstring of `search_status` speaks of an empty object for a missing id, but the code returns None. The model follows the code.
