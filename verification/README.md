# Application lifecycle and audit log, in Dafny

This project models the core of a small application registry service. Submitted
*applications* move through a fixed approval lifecycle:
`CREATED → VERIFIED → ACCEPTED → PUBLISHED`. Every state change is recorded in
an append-only *history* log.

The model covers:

- `ApplicationService`: create, look up, verify, accept and publish, delete,
  reject, partial update, and the listing filter.
- `HistoryService`: append, fetch all, fetch by id, fetch by application.

The application store is a `map<Id, Application>` and the history store is a
`seq<History>`. Each mutating operation (add, the three forward moves, delete,
reject, update) is a pure function from the two stores to a `Reply`. A `Reply`
holds either the returned application or a typed error, together with the
stores after the call. The read operations return what they read: a
`Result<Application>` or `Result<History>` for a lookup by id, a sequence of
records for a history query, a set for all applications, and a `Page` for the
listing. The service's exceptions
become the error values `NotFound(id)`, `WrongState(expected states)`,
`NoParameter` and `NoReason`. Two further errors come from the framework:

- `MissingId`: the repository refuses a null id. Only the update request's
  id is modelled as possibly null; see "Left out" for the other arguments.
- `NoSuchElement`: `Optional.get()` is called on an absent history record.

Modules:

- `Model`: the records, the lifecycle states and the errors. It also holds
  the repository's `save` (an upsert keyed by the entity's own id), its
  `delete(entity)`, and Java's `String.isBlank` with `Character.isWhitespace`
  written out.
- `HistoryService`: the log and its read operations.
- `ApplicationService`: the lifecycle engine. `ChangeApplicationState` is the
  one guarded primitive behind the three forward moves. `RemoveApplication`
  is shared by delete and reject, parameterised by the eligible states and
  the removal tag.
- `Lifecycle`: every mutating call as a step `Apply`, runs of steps `Run`,
  the invariant `Valid` that every step keeps, and the properties that
  relate several calls.
- `Scenarios`: the documented scenarios on concrete data, including the four
  applications the service tests start from.

Three behaviours of the code are easy to miss; the model keeps them:

- `getHistoryById` on an absent id fails through `Optional.get()`. It does
  not raise the service's not-found error.
- `updateApplication` checks only for null. A blank name or content is
  accepted and stored (`UpdateAcceptsBlankName`), so a stored application can
  have a blank name even though creation refuses one.
- `addApplication` with an id that is already stored overwrites that
  application and puts it back to `CREATED`, whatever state it had reached
  (`AddOverwritesExisting`). So "no move back to an earlier state" holds for
  every call except such an add (`StepsFollowTable`, `PublishedStaysPublished`).
  An add without an id cannot do this: the store generates an id no stored
  application has, and the save inserts (`IdlessAddInserts`).

## Model

| member | source | states |
|---|---|---|
| HistoryService.AddHistory | src/main/java/application/management/task/service/HistoryService.java:17-19 | appending keeps every earlier record in place, adds exactly one record carrying the given date, state, application id and reason, and preserves identifier uniqueness |
| HistoryService.GetHistoryById | src/main/java/application/management/task/service/HistoryService.java:25-27 | a found record is in the log and carries the id; the lookup fails, with the generic no-such-element failure, exactly when no record has that id |
| HistoryService.GetHistoryOfApplication | src/main/java/application/management/task/service/HistoryService.java:29-31 | a record is returned iff it is in the log and is about that application; the result is empty, not an error, exactly when there are none |
| HistoryService.GetAllHistory | src/main/java/application/management/task/service/HistoryService.java:21-23 | returns every record of the log, in insertion order |
| HistoryService.AllHistoryFetchableById | src/main/java/application/management/task/service/HistoryService.java:21-27 | every record that fetching all history lists can be fetched again by its own id |
| HistoryService.AddThenGetAll | src/main/java/application/management/task/service/HistoryService.java:17-23 | after an append, fetching all history gives the earlier records followed by the new one |
| HistoryService.GetHistoryByIdOnPositions | src/main/java/application/management/task/service/HistoryService.java:25-27 | with store-assigned identifiers, the lookup returns exactly the record with that id and fails for every unused id |
| HistoryService.AddThenGetById | src/main/java/application/management/task/service/HistoryService.java:17-27 | round trip: the appended record can be fetched by the id the store gave it, and lookups of every other id are unchanged |
| HistoryService.HistoryOfApplicationAppend | src/main/java/application/management/task/service/HistoryService.java:29-31 | selecting one application's records keeps log order: the selection of a concatenation is the concatenation of the selections |
| HistoryService.HistoryOfApplicationGrows | src/main/java/application/management/task/service/HistoryService.java:12-32 | when the log only grows, an application's earlier history stays, unchanged, at the front of its selection |
| HistoryService.AddThenHistoryOfApplication | src/main/java/application/management/task/service/HistoryService.java:17-31 | an appended record joins the end of an application's history exactly when it is about that application |
| ApplicationService.GetApplicationById | src/main/java/application/management/task/service/ApplicationService.java:43-45 | succeeds iff the id is stored, returning the stored application; otherwise fails with not-found naming the id |
| ApplicationService.GetAllApplications | src/main/java/application/management/task/service/ApplicationService.java:39-41 | returns every stored application and nothing else |
| ApplicationService.AddApplication | src/main/java/application/management/task/service/ApplicationService.java:47-54 | succeeds iff name and content are both non-null and non-blank; the stored application is CREATED whatever state was sent, keeps the given id, name and content, and no record is written; without an id it gets a fresh one, so every stored application stays and one is added; otherwise fails with the missing-parameter error and changes nothing |
| ApplicationService.ChangeApplicationState | src/main/java/application/management/task/service/ApplicationService.java:68-79 | not-found comes before the state check; succeeds iff the stored state is the exact predecessor; on success id, name and content are kept, the state becomes the successor, and exactly one record is appended carrying the left state, the application's id and no reason; a wrong state fails naming the predecessor; a failure changes nothing |
| ApplicationService.VerifyApplication | src/main/java/application/management/task/service/ApplicationService.java:56-58 | succeeds iff the application is CREATED, leaving it VERIFIED; a failure changes nothing |
| ApplicationService.AcceptApplication | src/main/java/application/management/task/service/ApplicationService.java:60-62 | succeeds iff the application is VERIFIED, leaving it ACCEPTED; a failure changes nothing |
| ApplicationService.PublishApplication | src/main/java/application/management/task/service/ApplicationService.java:64-66 | succeeds iff the application is ACCEPTED, leaving it PUBLISHED; a failure changes nothing |
| ApplicationService.RemoveApplication | src/main/java/application/management/task/service/ApplicationService.java:81-111 | the checks run in order: not-found, then eligible state, then non-blank reason, each with its own error; on success the last stored values are returned, one record with the removal tag and the reason is appended, and the application leaves the store; a failure changes nothing |
| ApplicationService.DeleteApplication | src/main/java/application/management/task/service/ApplicationService.java:81-95 | succeeds iff the application is CREATED and the reason is non-blank; any other state fails naming CREATED even when the reason is blank; on success the application is gone and the appended record is tagged DELETED with the reason |
| ApplicationService.RejectApplication | src/main/java/application/management/task/service/ApplicationService.java:97-111 | succeeds iff the application is VERIFIED or ACCEPTED and the reason is non-blank; any other state fails naming both states; on success the application is gone and the appended record is tagged REJECTED with the reason |
| ApplicationService.UpdateApplication | src/main/java/application/management/task/service/ApplicationService.java:113-127 | a null id is refused, then not-found, then succeeds iff the state is CREATED or VERIFIED, else fails naming both; each of name and content is replaced only when a non-null value is sent; id and state are kept; no record is written; a failure changes nothing |
| ApplicationService.CriteriaAreConjunctive | src/main/java/application/management/task/service/ApplicationService.java:131-139 | the criteria list built from the filters holds of an application iff it has the given name (when the name is non-blank) and the given state (when a state is given) |
| ApplicationService.GetAllPages | src/main/java/application/management/task/service/ApplicationService.java:129-146 | the listing holds exactly the stored applications that pass the supplied filters, with their stored values, and the total is their number |
| ApplicationService.FiltersIntersect | src/main/java/application/management/task/service/ApplicationService.java:133-139 | with both filters the listing is exactly the intersection of the name-only and the state-only listings (the filters combine with AND) |
| ApplicationService.NoFilterListsAll | src/main/java/application/management/task/service/ApplicationService.java:137-139 | with no filter the listing is the whole store |
| ApplicationService.BlankNameIgnored | src/main/java/application/management/task/service/ApplicationService.java:133-134 | a null or blank name is not used as a filter: the listing equals the state-only listing |
| ApplicationService.UnfilteredListingIsAll | src/main/java/application/management/task/service/ApplicationService.java:39-41 | without filters the listing holds the same applications as getAllApplications |
| Lifecycle.Apply | src/main/java/application/management/task/service/ApplicationService.java:47-127 | over every mutating call, an add without an id being given a fresh one: a failure changes nothing; the log only grows, by exactly one record when a lifecycle call succeeds and by none for add and update |
| Lifecycle.Run | src/main/java/application/management/task/service/HistoryService.java:12-32 | along any sequence of calls the starting log is a prefix of the final log: no record is ever changed or removed |
| Lifecycle.ApplyPreservesValid | src/main/java/application/management/task/service/ApplicationService.java:47-127 | every call keeps the invariant: each application under its own id in a live state, and every record well formed with a store-assigned id |
| Lifecycle.RunPreservesValid | src/main/java/application/management/task/service/ApplicationService.java:47-127 | every sequence of calls keeps the invariant |
| Lifecycle.StepsFollowTable | src/main/java/application/management/task/service/ApplicationService.java:56-79 | apart from an add, a call stores no new application and moves a stored one at most one step forward along the table, never back |
| Lifecycle.IdlessAddInserts | src/main/java/application/management/task/service/ApplicationService.java:47-54 | an add without an id stores a new CREATED application under the generated id, leaves every stored one as it was, and grows the count by one |
| Lifecycle.AddOverwritesExisting | src/main/java/application/management/task/service/ApplicationService.java:47-54 | an add naming a stored id replaces that application, resets it to CREATED and leaves the number of applications unchanged |
| Lifecycle.ForwardCallsFollowTable | src/main/java/application/management/task/service/ApplicationService.java:56-79 | verify, accept and publish each succeed iff the forward table leads from the stored state to the call's target state |
| Lifecycle.PublishedIsTerminal | src/main/java/application/management/task/service/ApplicationService.java:56-127 | every call other than add that addresses a PUBLISHED application fails with a wrong-state error and changes nothing |
| Lifecycle.SameAfterOtherCall | src/main/java/application/management/task/service/ApplicationService.java:56-127 | a call other than add that addresses a different application leaves this one as it was |
| Lifecycle.PublishedStaysPublished | src/main/java/application/management/task/service/ApplicationService.java:56-127 | along any run with no add naming its id, a PUBLISHED application stays stored and PUBLISHED; adds without an id get fresh ids and leave it alone |
| Lifecycle.RemovalKeepsHistory | src/main/java/application/management/task/service/ApplicationService.java:81-111 | after a successful delete or reject the application is not found, its history has gained exactly the removal record, and that record is still retrievable by application id after any later calls |
| Lifecycle.ForwardPathReachesPublished | src/main/java/application/management/task/service/ApplicationService.java:56-79 | from CREATED, verify, accept and publish reach PUBLISHED and append three records about the application, leaving CREATED, VERIFIED and ACCEPTED in order |
| Lifecycle.AddThenGet | src/main/java/application/management/task/service/ApplicationService.java:43-54 | round trip: a successful add's result is what a lookup by its id finds, and the log is untouched |
| Lifecycle.UpdateThenGet | src/main/java/application/management/task/service/ApplicationService.java:113-127 | round trip: after an update a lookup finds the updated values, state and log are unchanged, and repeating the update changes nothing more |
| Lifecycle.UpdateAcceptsBlankName | src/main/java/application/management/task/service/ApplicationService.java:116-121 | an update with a blank name succeeds and stores the blank name |
| Lifecycle.VerifyTwiceFails | src/main/java/application/management/task/service/ApplicationService.java:68-78 | verifying a CREATED application twice: the second call fails naming CREATED and changes nothing |
| Scenarios.SeededContents | src/test/java/application/management/task/service/ApplicationServiceTest.java:38-49 | the four seeding adds leave exactly the four applications, all CREATED, an empty log and a valid store |
| Scenarios.SeededListingCounts | src/test/java/application/management/task/service/ApplicationServiceTest.java:149-168 | on the seeded store the listing totals are 3 by name and state, 3 by name, and 4 by state |
| Scenarios.AddScenarios | src/test/java/application/management/task/service/ApplicationServiceTest.java:57-92 | an add without a name or without a content fails with the missing-parameter error; an add without a state is stored CREATED with its name and content |
| Scenarios.WrongStateScenarios | src/test/java/application/management/task/service/ApplicationServiceTest.java:115-147 | verifying twice names CREATED, accepting a CREATED application names VERIFIED, and publishing it names ACCEPTED |
| Scenarios.PublishScenario | src/test/java/application/management/task/service/ApplicationServiceTest.java:135-141 | create, verify, accept, publish ends PUBLISHED with three records leaving CREATED, VERIFIED, ACCEPTED |
| Scenarios.DeleteScenario | src/test/java/application/management/task/service/ApplicationServiceTest.java:170-181 | a delete without a reason fails and changes nothing; a delete with reason "bad" makes the lookup fail with not-found and leaves the single DELETED record with that reason |
| Scenarios.RejectScenario | src/test/java/application/management/task/service/ApplicationServiceTest.java:183-196 | a reject with a null or an empty reason fails with the missing-reason error, the application stays VERIFIED and only the verify's record exists; with a reason, the application is gone |

## Left out

- HTTP controllers, request validation, response codes and logging: they are
  transport plumbing around the service.
- The exception-to-status mapping and the error message texts: errors carry
  their context (the id, the expected states) as structured values instead.
- Page slicing: skip, limit, and the defaults for page and size. `GetAllPages`
  returns every matching application and the total. The source computes the
  total with skip and limit cleared, so it does not depend on the page.
- The clock: the date of each record is a parameter.
- Identifier generation. When an add carries no id, the generated id is a
  parameter, and the model requires it to be one no stored application has
  (`Admissible`, and `AdmissibleRun` along a run), as the document store's
  generated ids are. How the store picks it is not modelled. A history
  record's store-assigned id is modelled as its position in the log.
- Null arguments other than the update request's id. The ids passed to
  `getApplicationById`, the three forward moves, delete, reject and
  `getHistoryById` are never null, and neither is the reason holder passed
  to delete and reject: the HTTP layer always supplies them from the path
  and the body. So the framework's failure on `findById(null)` and the null
  dereference of a missing reason holder are not modelled. A null reason
  inside the holder is modelled, as `None`.
- `addHistory` with a caller-supplied id, which would be an upsert: every
  caller in the service builds the record without an id.
- `getAllApplications` returns the stored applications as a set. The list
  order of the document store is not modelled.
- The two writes of a call are not transactional, and concurrent callers can
  race on one id. Each call is modelled as one atomic sequential step.
- The source of the `State` enum and of the exception classes is not part of
  this model. `State` and `Error` are defined here from their uses in the
  service: the six states it names, and one error per exception it throws.
- The history repository's derived query `findAllByApplicationId` is not
  declared in the repository interface as written. It is modelled by the
  meaning of its name: the records whose application id matches, in log
  order.
