# To-do store and ownership-checked task service

A Dafny model of the core of a serverless to-do backend: the record store adapter
`GroupAccess` (a DynamoDB table of to-do records keyed by `todoId`, with a secondary
index on `userId`, plus the public S3 URL of an attachment) and the task service
functions that run on top of it. Every mutating service operation looks the record up,
fails with "not found" when it is absent, fails with "not authorised" when the caller
is not its owner, and only then writes.

Files:

- `todo_items.dfy` (module `TodoItems`): the `TodoItem` record, the update and creation
  request bodies, and `SameIdentity` (equal `userId`, `todoId` and `createdAt`).
- `groups_access.dfy` (module `GroupsAccess`): the table as a value `Table(items,
  indexOrder)` with its invariant `Consistent`, the specification functions of each
  store operation (`Get`, `Put`, `UpdateFields`, `SetAttachment`, `Remove`,
  `ListByOwner`, `ListByOwnerDesc`, `AttachmentUrl`) and their lemmas, and the class
  `GroupAccess`, whose fields `items` (a map) and `indexOrder` (a sequence) the methods
  update in place and whose methods are proved against those functions.
- `groups.dfy` (module `Groups`): the service operations as methods over a
  `GroupAccess` store passed in, the failure datatype `Outcome = Ok | NotFound |
  Forbidden`, a specification function per operation, and lemmas about single
  requests and about whole runs of requests (`Step`, `Run`).

Modelling choices:

- The module-level `groupAccess` singleton becomes a `GroupAccess` parameter of each
  service method; every call completes before the next starts.
- The fresh uuid and the clock reading of `createTodoItem` are parameters; the id must
  not be stored yet.
- Each operation's absence error becomes `NotFound` and its ownership error becomes
  `Forbidden`, whatever the thrown message says, so the two can be told apart.
- The owner index is modelled by `indexOrder`, the order in which keys were first
  stored (a new key goes to the end, an overwrite keeps its place). `getTodoItems`
  walks it forwards (the query leaves `ScanIndexForward` at its default) and `getTodo`
  walks it backwards (`ScanIndexForward: false`), so the two return the same records in
  opposite orders.
- `ifUserExists` returns `!!result.Items`; a query result always carries an item
  array, possibly empty, so the answer is true for every user.
- `attachmentUrl: null` is `None`; a linked URL is `Some(url)`.
- The adapter opens an existing table: its constructor takes the table's current
  contents, any consistent table.

## Model

| member | source | states |
|---|---|---|
| `GroupsAccess.GroupAccess.constructor` | backEnd/src/dataLayer/groupsAccess.ts:16-23 | a new adapter holds the given bucket and the existing table's contents, whatever records of whichever users they hold |
| `GroupsAccess.GroupAccess.TodoItemExists` | backEnd/src/dataLayer/groupsAccess.ts:25-28 | true iff `getTodoItem` returns a record, i.e. iff the id is stored; changes nothing |
| `GroupsAccess.AttachmentUrl` | backEnd/src/dataLayer/groupsAccess.ts:30-33 | the URL starts with `https://`, ends with the attachment id and is 26 characters longer than bucket and id together |
| `GroupsAccess.AttachmentUrlInjective` | backEnd/src/dataLayer/groupsAccess.ts:30-33 | two attachment ids in one bucket give the same URL only if they are equal |
| `GroupsAccess.GroupAccess.GetAttachmentUrl` | backEnd/src/dataLayer/groupsAccess.ts:30-33 | returns `AttachmentUrl(bucket, attachId)`, deterministically and without touching the table |
| `GroupsAccess.GroupAccess.GetTodoItems` | backEnd/src/dataLayer/groupsAccess.ts:44-61 | returns the owner query over the index in forward order |
| `GroupsAccess.Select` | backEnd/src/dataLayer/groupsAccess.ts:47-54 | the key condition `userId = :userId` over the index keeps only stored records of that user, at most one per key |
| `GroupsAccess.ListByOwner` | backEnd/src/dataLayer/groupsAccess.ts:44-61 | the forward owner query returns only stored records of that user, no more than there are keys |
| `GroupsAccess.ListByOwnerExact` | backEnd/src/dataLayer/groupsAccess.ts:44-61 | a record is listed for a user iff it is stored under its own id and its userId is that user |
| `GroupsAccess.ListByOwnerNoRepeats` | backEnd/src/dataLayer/groupsAccess.ts:44-61 | no record is listed twice: the listed todoIds are pairwise distinct |
| `GroupsAccess.Get` | backEnd/src/dataLayer/groupsAccess.ts:63-76 | the lookup yields a record iff the id is stored, and then exactly the stored record; an absent id is None, not an error |
| `GroupsAccess.GroupAccess.GetTodoItem` | backEnd/src/dataLayer/groupsAccess.ts:63-76 | returns `Get` of the current table and changes nothing |
| `GroupsAccess.Put` | backEnd/src/dataLayer/groupsAccess.ts:79-86 | after the put the id reads as the new record, whatever was there before; every other id reads as before; consistency is kept |
| `GroupsAccess.ListAfterPutFresh` | backEnd/src/dataLayer/groupsAccess.ts:79-86 | putting a record under an unused id appends it to its owner's listing and leaves every other owner's listing unchanged |
| `GroupsAccess.GroupAccess.CreateTodo` | backEnd/src/dataLayer/groupsAccess.ts:79-86 | the new table is `Put` of the old one, and stays consistent |
| `GroupsAccess.UpdateFields` | backEnd/src/dataLayer/groupsAccess.ts:88-106 | sets name, dueDate and done of that record to the update's values; userId, todoId, createdAt and attachmentUrl and every other record stay as they were |
| `GroupsAccess.GroupAccess.UpdateTodoItem` | backEnd/src/dataLayer/groupsAccess.ts:88-106 | the new table is `UpdateFields` of the old one, and stays consistent |
| `GroupsAccess.Remove` | backEnd/src/dataLayer/groupsAccess.ts:108-117 | afterwards the id reads as absent and every other id as before; deleting an absent id changes nothing |
| `GroupsAccess.RemoveIdempotent` | backEnd/src/dataLayer/groupsAccess.ts:108-117 | deleting twice leaves the same table as deleting once |
| `GroupsAccess.Without` | backEnd/src/dataLayer/groupsAccess.ts:108-117 | dropping a key from the index keeps exactly the other keys, keeps them distinct, and is the identity when the key is absent |
| `GroupsAccess.GroupAccess.DeleteTodo` | backEnd/src/dataLayer/groupsAccess.ts:108-117 | the new table is `Remove` of the old one, and stays consistent |
| `GroupsAccess.SetAttachment` | backEnd/src/dataLayer/groupsAccess.ts:119-132 | sets only attachmentUrl of that record to the given URL; its other fields and every other record stay as they were |
| `GroupsAccess.GroupAccess.UpdateAttachmentUrl` | backEnd/src/dataLayer/groupsAccess.ts:119-132 | the new table is `SetAttachment` of the old one, and stays consistent |
| `GroupsAccess.GroupAccess.IfUserExists` | backEnd/src/dataLayer/groupsAccess.ts:134-148 | always true, also for a user with no records |
| `GroupsAccess.GroupAccess.GetTodo` | backEnd/src/dataLayer/groupsAccess.ts:150-162 | returns the owner query over the index walked backwards |
| `GroupsAccess.SelectReverse` | backEnd/src/dataLayer/groupsAccess.ts:150-162 | selecting over the reversed keys gives the reversed selection |
| `GroupsAccess.ListByOwnerDesc` | backEnd/src/dataLayer/groupsAccess.ts:150-162 | the backward owner query returns exactly the forward listing's records in reverse order |
| `Groups.GetTodos` | src/businessLogic/groups.ts:14-18 | returns what the store's forward owner query returns |
| `Groups.SpreadAsWritten` | src/businessLogic/groups.ts:23-30 | for a body with only name and dueDate it builds the same record as `NewTodoItem` |
| `Groups.SpreadAsWrittenTakesOverRecord` | src/businessLogic/groups.ts:23-33 | a body carrying another user's todoId makes the put replace that user's record under the caller's id, although the generated id was unused |
| `Groups.NewTodoItem` | src/businessLogic/groups.ts:23-30 | the record has the caller's userId, the generated todoId and createdAt, done false, no attachment, and name and dueDate from the request |
| `Groups.NewTodoItemIgnoresStrayFields` | src/businessLogic/groups.ts:23-30 | body fields beyond name and dueDate do not change the built record |
| `Groups.CreateTodoItemSpec` | src/businessLogic/groups.ts:20-36 | the built record carries the caller's userId, the generated todoId and createdAt, reads back under its id, every other id reads as before, and consistency is kept |
| `Groups.CreateTodoItemListed` | src/businessLogic/groups.ts:20-36 | the created record reads back under its id, is appended to its owner's listing, appears in no other owner's listing, and nothing else changes |
| `Groups.CreateTodoItem` | src/businessLogic/groups.ts:20-36 | stores and returns the built record under the unused generated id, keeping the table consistent |
| `Groups.Authorize` | src/businessLogic/groups.ts:41-49 | NotFound iff the id is absent; Forbidden iff it is present with another owner; Ok iff present and owned by the caller (absence is checked first) |
| `Groups.UpdateTodoSpec` | src/businessLogic/groups.ts:38-52 | the outcome is `Authorize`'s; a refusal leaves the table equal; an acceptance keeps the set of ids; consistency is kept |
| `Groups.UpdateTodoEffect` | src/businessLogic/groups.ts:38-52 | a refused update leaves the table unchanged; an accepted one changes only name, dueDate and done of that record |
| `Groups.UpdateTodo` | src/businessLogic/groups.ts:38-52 | outcome and new table are those of the look-up, check, update sequence |
| `Groups.DeleteTodoItemSpec` | src/businessLogic/groups.ts:54-70 | the outcome is `Authorize`'s; a refusal leaves the table equal; an acceptance removes exactly that id; consistency is kept |
| `Groups.DeleteTodoItemEffect` | src/businessLogic/groups.ts:54-70 | a refused delete leaves the table unchanged; an accepted one makes the record absent and changes nothing else |
| `Groups.DeleteTodoItem` | src/businessLogic/groups.ts:54-70 | outcome and new table are those of the look-up, check, delete sequence |
| `Groups.UpdateAttachUrlSpec` | src/businessLogic/groups.ts:72-89 | the outcome is `Authorize`'s; a refusal leaves the table equal; an acceptance keeps the set of ids; consistency is kept |
| `Groups.UpdateAttachUrlEffect` | src/businessLogic/groups.ts:72-89 | a refused link leaves the table unchanged; an accepted one sets only that record's attachmentUrl, to the public URL of the attachment id |
| `Groups.UpdateAttachUrl` | src/businessLogic/groups.ts:72-89 | outcome and new table are those of the URL, look-up, check, write sequence |
| `Groups.Step` | src/businessLogic/groups.ts:20-89 | one service request keeps the table consistent, and only a create or a delete changes the set of stored ids |
| `Groups.Run` | src/businessLogic/groups.ts:20-89 | a sequence of service requests keeps the table consistent, and one made only of updates and attachment links keeps the set of stored ids |
| `Groups.StepLeavesOthersAlone` | src/businessLogic/groups.ts:38-89 | a request never changes or removes a record owned by someone other than its caller, unless a creation reuses that record's id |
| `Groups.RunLeavesOthersAlone` | src/businessLogic/groups.ts:20-89 | any sequence of requests by other users leaves a user's record exactly as it was, as long as no creation reuses its id |
| `Groups.StepKeepsIdentity` | src/businessLogic/groups.ts:20-89 | a request with a fresh creation id keeps the table consistent, never changes userId, todoId or createdAt of a record it leaves stored, and only a creation adds an id |
| `Groups.RunNeverRestores` | src/businessLogic/groups.ts:54-70 | once an id is absent, no later request brings it back unless a creation uses that id |
| `Groups.RunKeepsIdentity` | src/businessLogic/groups.ts:20-89 | along any run whose creations use unused, distinct ids, a record still stored at the end has its original userId, todoId and createdAt |
| `Groups.IfUserExists` | src/businessLogic/groups.ts:97-103 | returns the store's answer, which is always true |
| `Groups.GetTodo` | src/businessLogic/groups.ts:105-109 | returns the store's backward owner query, which is the forward listing reversed |

## Findings

| source | as written | input that shows it | evidently intended | confidence | as-written member | corrected member |
|---|---|---|---|---|---|---|
| src/businessLogic/groups.ts:23-30 | the parsed request body (src/lambda/http/createTodo.ts:16, no schema check) is spread after the defaults, so its `userId`, `todoId`, `createdAt`, `done` or `attachmentUrl` replace them; the put then overwrites whatever is stored under that todoId | user `mallory` creates with body `{"name":"mine now","dueDate":"2024-03-01","todoId":"t1"}` while `t1` is `alice`'s record: `t1` is replaced by a record owned by `mallory` | the caller's userId, the generated todoId and the clock's createdAt always win; only name and dueDate come from the body | medium, not executed | `Groups.SpreadAsWritten`, `Groups.SpreadAsWrittenTakesOverRecord` | `Groups.NewTodoItem`, `Groups.NewTodoItemIgnoresStrayFields`, `Groups.RunLeavesOthersAlone` |

## Left out

- `getUrl` and `generatedUrl` (pre-signed S3 upload URLs): a call into the AWS SDK's
  signer, with an expiry parsed from an environment string.
- Logging, X-Ray wrapping and the environment lookups of the constructor: the table and
  index names are not modelled; the bucket name is a constructor argument.
- uuid generation and the clock: parameters of `Groups.CreateTodoItem`.
- Failures of DynamoDB or S3 (throttling, network, configuration): every store call
  completes; they would propagate unchanged and are not part of `Outcome`.
- Concurrency: the read-check-write race between requests, and the writes at
  src/businessLogic/groups.ts:51 and :69 that are not awaited; every call is treated as
  finishing before the next.
- Query pagination: a query returns all matching records.
- Read consistency: point reads (`get` without `ConsistentRead`) and owner-index queries
  are modelled as seeing every earlier write. In DynamoDB both are eventually consistent,
  so a just-created record may be missing from a listing for a while, and the look-up in
  updateTodo, deleteTodoItem and updateAttachUrl may still return a just-deleted record.
- The sort key of the owner index is defined in deployment configuration that is not
  part of this model; the index order is the order in which ids were first stored.
- `GroupsAccess.GroupAccess.UpdateTodoItem`: requires the id to be stored; a DynamoDB
  update of a missing key would create a partial record, which the service never asks
  for since it checks existence first.
- `GroupsAccess.GroupAccess.UpdateAttachmentUrl`: requires the id to be stored, for the
  same reason.
- `Groups.CreateTodoItem`: builds the record with `NewTodoItem`, the corrected form
  listed under Findings, not the spread as written; the request body is taken as having
  string `name` and `dueDate`.
- The HTTP handlers (backEnd/src/lambda/http/getTodos.ts, whose "user does not exist"
  branch is unreachable since `IfUserExists` is always true;
  backEnd/src/lambda/http/generateUploadUrl.ts; src/lambda/http/createTodo.ts) and the
  client configuration client/src/config.ts: request parsing and response shaping.
- The `TodoItem`, `TodoUpdate` and request type declarations under `models/` and
  `requests/` are not part of this model; their fields are taken as the ones the code
  reads and writes.
