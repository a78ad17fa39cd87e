# User store of the Swagger-documented user API

The service keeps its users in one module-level Python list, `users`. It
starts empty and lives as long as the process. Five request handlers serve
`/api/users` and `/api/users/<id>`:

- list (`UserList.get`) returns the list;
- create (`UserList.post`) gives the request body `id = len(users) + 1` and a
  `created_at` timestamp, then appends it;
- fetch (`User.get`) scans for the first record whose id matches;
- delete (`User.delete`) rebinds the list to the records whose id differs;
- update (`User.put`) merges the request body into the first match with
  `dict.update`.

Every item handler answers a 404 `User {id} doesn't exist` when no record
matches. `Testing.py` and `service/app.py` hold the same handlers line for
line. They differ only in comments, documentation strings (the `Api`
description and the `@ns.doc` arguments) and the clock (`utcnow()` against
`now()`). The clock is a parameter here, so one model covers both files.

Files:

- `decimal.dfy` (module `Decimal`) renders the path id in decimal, the way
  the f-string does, and proves that rendering injective.
- `user_model.dfy` (module `UserModel`) holds the record type, Python's
  `==` between a stored id and the path id, the scan, the merge, the
  filter, and one function per handler. Each handler function maps the old
  list to the response and the new list (`Outcome`).
- `user_properties.dfy` (module `UserProperties`) holds the lemmas: what
  each handler promises, how ids are numbered while only creates run, how a
  delete lets the next create reuse an id, and how an update can rename a
  user.
- `user_store.dfy` (module `UserStore`) holds the class `Store`. Its field
  `users` is the global list. Its methods are the handlers, written the way
  the source writes them: an append, scanning loops with early return, an
  `any` scan followed by a filtering comprehension, and an in-place merge.
  Each method's `ensures` ties its answer and the new list to the
  `UserModel` function for that handler.

A record is a `map<string, Value>`, where `Value` covers the JSON values a
body can carry (integers, booleans, strings, null) plus the timestamp the
handlers store. A stored `id` matches the integer path id as Python's `==`
decides. Integers compare by value, and `True`/`False` equal 1/0. Other
values never match. The `<int:id>` route converter only accepts unsigned
digits, so the path id is a `nat`.

The `user_model` declares `id` and `created_at` read-only, but the handlers
do not enforce this. `put` merges the whole body, `id` and `created_at`
included (`UserProperties.UpdateMergesFirstOnly`,
`UserProperties.UpdateCanRenameUser`). Ids are unique only until something
is deleted (`UserProperties.CreatesOnlyGiveUniqueIds` against
`UserProperties.DeleteThenCreateReusesId`). The model follows the code in
both cases.

Line correspondence between the two copies, for the rows below that cite
`Testing.py`:

| Testing.py | service/app.py | code |
|---|---|---|
| 33-45 | 21-26 | `user_model` |
| 48 | 29 | `users = []` |
| 55-57 | 37-39 | `UserList.get` |
| 62-68 | 46-52 | `UserList.post` |
| 77-82 | 62-67 | `User.get` |
| 87-94 | 74-81 | `User.delete` |
| 99-105 | 88-94 | `User.put` |

## Model

| member | source | states |
|---|---|---|
| `Decimal.Decimal` | Testing.py:82 | the id in the message is a non-empty run of decimal digits without a leading zero |
| `Decimal.ParseDecimal` | Testing.py:82 | reading the rendered digits back gives the id |
| `Decimal.DecimalInjective` | Testing.py:82 | two different ids render to different digit strings |
| `UserModel.NotFoundMessage` | Testing.py:82 | the 404 text is "User ", then a run of decimal digits that reads back as the id, then " doesn't exist" |
| `UserModel.ValueIs` | Testing.py:80 | a stored value equals the integer path id exactly when it is that integer, or it is `True` and the id is 1, or it is `False` and the id is 0 |
| `UserModel.IdMatches` | Testing.py:80 | a record matches the path id exactly when it has an "id" key whose value equals the id in that sense |
| `UserModel.List` | Testing.py:55-57 | the list handler answers the current list and leaves it unchanged (complete statement in `UserProperties.ListIsReadOnly`) |
| `UserModel.Create` | Testing.py:62-68 | the create handler appends the record it answers, whose "id" is the old length plus one and whose "created_at" is the given time (complete statement in `UserProperties.CreateAppends`) |
| `UserModel.Get` | Testing.py:77-82 | the fetch handler succeeds exactly when some record has the id, and then answers a stored record with that id; otherwise it answers NotFound(id); the list is unchanged (first match in `UserProperties.GetFindsFirst`) |
| `UserModel.Delete` | Testing.py:87-94 | the delete handler succeeds exactly when some record has the id, and then no record with that id is left; otherwise it answers NotFound(id) and leaves the list unchanged (order and shrinking in `UserProperties.DeleteRemovesAll` and `UserProperties.RemoveKeepsOrder`) |
| `UserModel.Update` | Testing.py:99-105 | the update handler keeps the length, succeeds exactly when some record has the id, and then answers a stored record carrying every key and value of the body; otherwise it answers NotFound(id) and leaves the list unchanged (first match only in `UserProperties.UpdateMergesFirstOnly`) |
| `UserModel.FirstMatch` | Testing.py:79-81 | the scan stops at a record whose id equals the path id, and every record before it differs; when it finds nothing, no record matches |
| `UserModel.CreateRecord` | Testing.py:64-66 | the stored record has all of the body's keys plus "id" and "created_at"; "id" is the old length plus one and "created_at" is the given time, whatever the body sent; every other key keeps the body's value |
| `UserModel.Merge` | Testing.py:103 | `dict.update`: the merged record has the keys of both; keys in the body take the body's value, the rest keep the old value |
| `UserModel.Remove` | Testing.py:93 | the filtered list is no longer than the old one; every kept record comes from the old list and has a different id; every old record with a different id is kept |
| `UserProperties.NotFoundMessageNamesId` | Testing.py:82 | two ids give the same 404 message only if they are equal |
| `UserProperties.ListIsReadOnly` | Testing.py:55-57 | listing answers exactly the current list and leaves it unchanged, so listing twice gives the same answer |
| `UserProperties.CreateAppends` | Testing.py:62-68 | create answers the new record and appends it: the length grows by one, earlier records are untouched, and the last record is the answer with id = old length + 1, the given time, and the body's other fields |
| `UserProperties.CreateKeepsIdsAreIndices` | Testing.py:65-67 | if record k has id k + 1 before a create, the same holds after it |
| `UserProperties.ReplayNumbersIds` | Testing.py:65-67 | a run of creates adds one record per request and keeps record k at id k + 1 |
| `UserProperties.IdsAreIndicesUnique` | Testing.py:65 | numbering by position makes every id match at most one record |
| `UserProperties.CreatesOnlyGiveUniqueIds` | Testing.py:65-67 | starting from the empty list, creates alone give ids exactly 1..n in order, so they are unique |
| `UserProperties.CreateThenGet` | Testing.py:62-82 | a fetch with the id of a record just created returns that record field for field, if no older record already had that id |
| `UserProperties.IdsAreIndicesLeaveNextIdFree` | Testing.py:65 | while ids are 1..n, no record has id n + 1, so `CreateThenGet` applies |
| `UserProperties.DeleteThenCreateReusesId` | Testing.py:65-93 | two creates, a delete of user 1 and a third create leave two records that both have id 2: ids are no longer unique |
| `UserProperties.GetFindsFirst` | Testing.py:77-82 | fetch succeeds exactly when some record has the id; it returns the first such record; otherwise it answers NotFound(id); the list is unchanged |
| `UserProperties.RemoveAppend` | Testing.py:93 | the filter over two concatenated lists is the concatenation of the two filters, so it keeps the relative order |
| `UserProperties.RemoveKeepsOrder` | Testing.py:93 | a kept record ends up after everything kept before it and before everything kept after it |
| `UserProperties.RemoveAbsent` | Testing.py:93 | filtering a list with no record for the id gives the same list |
| `UserProperties.RemoveShrinks` | Testing.py:93 | when some record has the id, the filtered list is strictly shorter |
| `UserProperties.DeleteRemovesAll` | Testing.py:90-94 | delete succeeds exactly when some record has the id; on success the list shrinks and a fetch of that id then answers NotFound; otherwise it answers NotFound(id) and leaves the list unchanged |
| `UserProperties.DeleteKeepsOtherUsers` | Testing.py:93 | after deleting one id, a fetch of any other id answers exactly what it answered before |
| `UserProperties.UpdateMergesFirstOnly` | Testing.py:101-105 | update succeeds exactly when some record has the id and keeps the length. Only the first matching record changes: every body key, "id" and "created_at" included, takes the body's value, other keys keep theirs, and that record is returned. On failure it answers NotFound(id) and leaves the list unchanged |
| `UserProperties.UpdateThenGet` | Testing.py:101-104 | after an update whose body has no "id", fetching the same id returns the updated record |
| `UserProperties.UpdateCanRenameUser` | Testing.py:103 | with unique ids, an update whose body carries a different integer "id" succeeds, and a later fetch of the old id answers NotFound |
| `UserProperties.HandlersKeepWellFormed` | Testing.py:62-105 | create, delete and update keep "id" and "created_at" in every record |
| `UserStore.Store.constructor` | Testing.py:48 | the list starts empty |
| `UserStore.Store.List` | Testing.py:55-57 | the method answers what the list handler function gives, and the list is unchanged |
| `UserStore.Store.Create` | Testing.py:62-68 | the appended record and the new list are those of the create handler function, and every record still has "id" and "created_at" |
| `UserStore.Store.Get` | Testing.py:77-82 | the scanning loop answers what the fetch handler function gives, and changes nothing |
| `UserStore.Store.Delete` | Testing.py:87-94 | the `any` scan and the filtering comprehension (`Store.Without`) give the answer and the new list of the delete handler function |
| `UserStore.Store.Without` | Testing.py:93 | the comprehension's loop builds exactly the filtered list `UserModel.Remove` gives, and changes nothing |
| `UserStore.Store.Update` | Testing.py:99-105 | the scanning loop with its in-place merge gives the answer and the new list of the update handler function |

## Left out

- The Flask and flask_restx plumbing is not modelled: the app, the `Api`, the namespace, the route and doc decorators, and `app.run`. It only routes requests to the handlers.
- Marshalling through `marshal_with` and `marshal_list_with` is not modelled. That layer filters each record down to the four declared fields and formats the timestamp. The model returns raw records.
- Request-body validation from `@ns.expect` and the `required`/`readonly` flags is not modelled. That is flask_restx's job. The body is taken as given and is modelled as a JSON object only. A non-object body sent to create makes `user['id'] = ...` raise, which is not modelled. Array bodies sent to update are not modelled either: `dict.update` accepts a list of key-value pairs (`[["id", 5]]` renames the user, `[]` changes nothing), while null, numbers, booleans and non-empty strings make it raise.
- The clock (`datetime.utcnow()` or `datetime.now()`) is not modelled. The time is a parameter, which also hides the UTC/local difference between the two files.
- The mapping of `api.abort(404, ...)` to an HTTP response is not modelled. It is the `NotFound(id)` error, whose text is `UserModel.NotFoundMessage`. The empty 204 of delete is `Ok(())`.
- Concurrent requests on the unsynchronised global list are not modelled. The model is sequential.
- Floating-point, list and object JSON values are not modelled, so a stored id such as `1.0` that Python would find equal to `1` is outside the model.
- Object identity is not modelled. Records are values, so the model does not capture that the stored dict is the request's own payload object, or that a returned record aliases the stored one.
