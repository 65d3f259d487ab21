# Document lifecycle and retention engine — a Dafny model

This project models the core of `gestion_documental`, a NestJS and MongoDB service for
tenant-scoped documents:

- **The documents service** (`DocumentsService`): creating documents, listing them page by
  page, reading one with an audit entry, bumping the version counter, checking an export
  request and naming its file, synthesising the version history, replacing the ACL with an
  audit entry, attaching a retention deadline, and deleting under a retention guard.
- **The retention sweep** (`RetentionTaskService.handleRetentionCleanup`): one pass over the
  documents whose retention deadline has passed. HARD-mode documents are deleted, all others
  get a `deletedAt` stamp, and each disposal is audited. A failure on one document is caught
  and does not stop the pass.
- **The in-process authentication state** (`auth.controller.ts`): the registry of
  (role, tenant) pairs and the single global session, driven by register, login and logout.
- **The route guard** (`AuthGuard.canActivate`): it requires an open session, records the
  session's role and tenant on the request, and checks the roles the route declares.

The two MongoDB collections (documents and audit log) are the fields of one `Database` object
that both services share. Each service is a class holding that object, and its methods state
the whole new store. The session is an object whose three fields the auth methods update in
place.

Files and modules:

- `common.dfy` (`Common`): optional values, the HTTP errors, and JavaScript truthiness.
- `dates.dfy` (`Dates`): calendar dates, chronological order, and `setFullYear`.
- `numerals.dfy` (`Numerals`): decimal rendering of version numbers.
- `schemas.dfy` (`Schemas`): the stored records.
- `documents_service.dfy` (`Documents`): the documents service.
- `retention_task.dfy` (`Retention`): the retention sweep.
- `auth_controller.dfy` (`Auth`): the authentication state.
- `auth_guard.dfy` (`Guard`): the route guard.
- `scenarios.dfy` (`Scenarios`): client runs of the lifecycle that use only the contracts.

Behaviours of the code that the model keeps as written:

- A malformed id makes `createVersion` fail with BadRequest (`documents.service.ts:78`).
- The delete guard answers BadRequest (`documents.service.ts:215`).
- The delete route's summary says "Soft Delete" (`documents.controller.ts:102`), but `remove`
  deletes physically (`documents.service.ts:222`).
- As written, the delete guard reads `retentionPolicy.expiryDate` and the export's tenant check
  reads `doc.tenantId`. Nothing writes either field, so neither check ever fires. These are the
  two Findings below. The service methods use the corrected checks, and the as-written checks
  are kept beside them with lemmas that exhibit the difference.
- `updateAcl` replaces the ACL object wholesale. The request body has no `owners`, so the
  stored ACL loses its owners.
- The retention request documents only SOFT and HARD as modes (`update-retention.dto.ts:10`),
  but the sweep treats any mode other than `HARD`, including a missing one, as soft.
- `getDownloadUrl` and `updateRetention` do not check the id format. For them a malformed id
  is the error Mongoose raises when it casts the id (`CastError`, answered with 500).
- For a missing document, `updateRetention` returns `null` rather than failing.

## Model

| member | source | states |
|---|---|---|
| Dates.AddYears | src/documents/documents.service.ts:187-188 | the year moves by `n` and the time of day is kept; month and day are kept except that 29 February becomes 1 March in a year that is not leap; the result is a valid date |
| Dates.AddYearsMovesForward | src/documents/documents.service.ts:187-188 | a positive number of years gives a strictly later date, a negative one an earlier date, zero the same date |
| Numerals.IntToDecimalInjective | src/documents/documents.service.ts:116 | two different integers never render to the same decimal text |
| Documents.Window | src/documents/documents.service.ts:44 | `skip(n).limit(m)` keeps at most abs(m) elements, starting at position n, in order |
| Documents.CeilDiv | src/documents/documents.service.ts:53 | `Math.ceil(a / b)` is the least q with a <= q*b for a positive b (mirrored for a negative b) |
| Documents.NewestFirstOrderExists | src/documents/documents.service.ts:44 | every set of stored documents can be ordered newest first, each exactly once |
| Documents.ListingLength | src/documents/documents.service.ts:43-45 | an order of the matching documents holds each match exactly once, so the page window and `total` come from the same set |
| Documents.PageNonEmptyIffNotPastLast | src/documents/documents.service.ts:40-53 | with a positive page size, page p >= 1 holds documents exactly when p <= lastPage |
| Documents.NextVersionIncreases | src/documents/documents.service.ts:84 | the counter strictly increases; from any non-zero value it moves by exactly one, and from 0 it becomes 2 |
| Documents.FileNameDistinguishesVersions | src/documents/documents.service.ts:116 | two versions of one document never share an export file name |
| Documents.HistoryShape | src/documents/documents.service.ts:151-163 | a history for n >= 1 has n entries numbered 1..n in order, and exactly the last is CURRENT |
| Documents.AclOf | src/documents/documents.service.ts:173 | the stored ACL is the request body, and it has no owners list |
| Documents.RetentionFor | src/documents/documents.service.ts:187-194 | the stored retention has a valid `deleteAt`, strictly in the future when the number of years is positive |
| Documents.RemoveIgnoresRetentionDeadline | src/documents/documents.service.ts:210-219 | as written, the guard never locks a document the service stored, not even right after a retention was attached, when the intended guard does |
| Documents.IntendedLockBlocksRemoval | src/documents/documents.service.ts:185-219 | with the guard on `retention.deleteAt`, a retention of one year or more locks deletion until its deadline and releases it from then on |
| Documents.DownloadIgnoresTenant | src/documents/documents.service.ts:103-106 | as written, the tenant check lets a caller of another tenant than the owner through, where the intended check refuses it |
| Documents.IntendedTenantCheckIsolates | src/documents/documents.service.ts:103-106 | with the check on the owning tenant recorded by `create`, a caller with a tenant passes exactly on that tenant's documents |
| Documents.DocumentsService.LogAction | src/documents/documents.service.ts:226-234 | appends exactly one entry by the fixed actor `user_admin_test`; the documents are untouched |
| Documents.DocumentsService.Create | src/documents/documents.service.ts:21-29 | stores a document of the caller's tenant at version 1 without retention, writes no audit entry, and refuses an empty tenant; the store invariants are kept |
| Documents.DocumentsService.FindAll | src/documents/documents.service.ts:31-56 | a negative skip fails; otherwise `total` counts the not-deleted documents matching the domain, the data is the window of a newest-first order of exactly those documents, and `lastPage` is the rounded-up page count |
| Documents.DocumentsService.FindOne | src/documents/documents.service.ts:59-75 | malformed id gives BadRequest, missing document NotFound, both without an audit entry; otherwise returns the document and appends one READ entry |
| Documents.DocumentsService.CreateVersion | src/documents/documents.service.ts:77-95 | BadRequest or NotFound leave the store as it was; otherwise only the counter of that document changes, strictly increasing, and the receipt reports it with the comment |
| Documents.DocumentsService.GetDownloadUrl | src/documents/documents.service.ts:98-116 | errors in order: malformed id, missing document, a caller tenant other than the owner (corrected check, see Findings), requested version above current; otherwise the link names the file of the target version |
| Documents.DocumentsService.GetDocumentVersions | src/documents/documents.service.ts:146-164 | BadRequest or NotFound; otherwise a history of `currentVersion || 1` entries, numbered from 1, only the last CURRENT, all by `admin_test` |
| Documents.DocumentsService.UpdateAcl | src/documents/documents.service.ts:166-183 | BadRequest or NotFound change nothing; otherwise the ACL alone is replaced and one UPDATE_ACL entry carrying the new ACL is appended |
| Documents.DocumentsService.UpdateRetention | src/documents/documents.service.ts:185-201 | a malformed id fails and a missing document yields none, both changing nothing; otherwise only the retention of that document is replaced; never audited |
| Documents.DocumentsService.Remove | src/documents/documents.service.ts:203-223 | BadRequest or NotFound change nothing; a document whose retention deadline is still ahead (corrected guard, see Findings) is refused with BadRequest and the store is unchanged; otherwise exactly that document is removed and returned |
| Retention.DisposeOneMore | src/documents/tasks/retention-task.service.ts:36-44 | disposing of one more document removes it if HARD and only stamps it otherwise |
| Retention.SweepAuditStep | src/documents/tasks/retention-task.service.ts:47-61 | taking one more document appends its own audit entry only when both its store step and its audit step succeed |
| Retention.DisposedShape | src/documents/tasks/retention-task.service.ts:36-44 | after disposal, documents outside the disposed set are unchanged, disposed HARD ones are gone, and disposed others differ only by `deletedAt` |
| Retention.OnlyStoreFailuresStayEligible | src/documents/tasks/retention-task.service.ts:27-44 | after a run, exactly the selected documents whose store step failed are still eligible for the next run |
| Retention.SecondRunChangesNothing | src/documents/tasks/retention-task.service.ts:27-44 | a second run at the same instant after a run without store failures selects nothing and changes nothing |
| Retention.SweepAuditEntries | src/documents/tasks/retention-task.service.ts:47-61 | every appended entry is by SYSTEM_CRON_WORKER, marked SUCCESS, for a taken document whose two steps succeeded, with the action matching its mode |
| Retention.SweepAuditCount | src/documents/tasks/retention-task.service.ts:32-67 | a run appends exactly one entry per taken document whose store and audit steps both succeeded |
| Retention.DisposedKeepsInvariant | src/documents/tasks/retention-task.service.ts:36-44 | disposal keeps the store invariants |
| Retention.SweepAndIntendedLockAgree | src/documents/tasks/retention-task.service.ts:27-30 | a not-deleted document with a deadline is selected by the sweep exactly when the delete guard of `Remove` no longer locks it |
| Retention.RetentionTaskService.DisposeOne | src/documents/tasks/retention-task.service.ts:33-66 | one document: a failing store step changes nothing; otherwise a HARD document is deleted and any other gets `deletedAt`, and its audit entry is appended unless the audit save fails |
| Retention.SweepStep | src/documents/tasks/retention-task.service.ts:32-44 | taking the next document of the query's result disposes of it exactly when its store step succeeds, and it is still as the query saw it |
| Retention.RetentionTaskService.HandleRetentionCleanup | src/documents/tasks/retention-task.service.ts:21-69 | takes each selected document exactly once, in the order the query returned them; the store becomes the disposal of the selected documents whose store step succeeded; the audit log grows by their entries in that order; nothing else changes and the store invariants are kept |
| Auth.FindUser | src/auth/auth.controller.ts:26 | finds the pair exactly when it is registered |
| Auth.RegisterProperties | src/auth/auth.controller.ts:25-33 | registering keeps the registry free of duplicates, makes the pair known, forgets no pair, and is idempotent |
| Auth.AuthController.Register | src/auth/auth.controller.ts:25-33 | appends the pair exactly when it is new, keeping the state invariant |
| Auth.AuthController.Login | src/auth/auth.controller.ts:38-62 | an open session gives BadRequest, an unregistered pair Unauthorized, both leaving the session as it was; otherwise the session holds a `session-` token and the pair |
| Auth.AuthController.Logout | src/auth/auth.controller.ts:66-85 | with no open session nothing changes; otherwise it reports the closed role and tenant and clears all three fields |
| Guard.Decide | src/auth/auth.guard.ts:9-33 | Unauthorized exactly without a session token; allowed exactly with a token and either no declared roles or a session role among them; otherwise Forbidden |
| Guard.CanActivate | src/auth/auth.guard.ts:9-33 | decides as `Decide` and, once past the token check, records the session's role and tenant on the request even when it then refuses |
| Guard.EmptyRoleListDeniesAll | src/auth/auth.guard.ts:23-26 | a declared but empty role list lets no session through |
| Guard.MissingRoleIsForbidden | src/auth/auth.guard.ts:27-30 | with roles declared, an open session without a role is Forbidden |
| Guard.RouteAccess | src/documents/documents.controller.ts:18-106 | create, ACL update and delete need ADMIN; versioning needs ADMIN or USER; every other route needs only an open session |
| Guard.OpenSessionsAndRoutes | src/auth/auth.guard.ts:11-30 | under the session invariant, every open session may version, and exactly the ADMIN sessions may create, re-permission and delete |

## Left out

- MongoDB persistence is an in-memory map and sequence, and `_id` allocation is a parameter of `Create`.
- `isValidObjectId` is modelled as "24 hexadecimal characters". Mongoose also accepts some 12-character strings; that case is not modelled.
- Hex case is not canonicalised: an id differing only in letter case names a different document.
- The `$regex` domain filter is approximated as an ASCII case-insensitive substring test. Regular-expression metacharacters and non-ASCII case folding are not modelled.
- The clock is a parameter (`now`).
- The sweep reads the clock twice per document, for `deletedAt` and for `executionDate`. Both are one parameter `stamp` for the whole run.
- The random token suffix (`Math.random().toString(36)`) is a parameter of `Login`.
- The response `message` texts are not modelled.
- The logger lines are not modelled.
- The `updatedAt`/`createdAt` timestamps Mongoose adds to audit entries are not modelled.
- Document.createdAt is kept; updatedAt is not modelled.
- `getDownloadUrl` writes the export file and schedules its deletion after 10 minutes. That file-system and timer work is not modelled; only the checks, the file name and the URL are.
- The file serving of the `downloadFile` route is not modelled. Only its guard is: the class-level guard covers it, and it needs any open session (`Guard.RouteAccess`).
- The cron schedule is not modelled; the sweep is modelled as one invocation.
- Concurrent requests interleaving with a sweep are not modelled; each method is atomic.
- The order in which the sweep's query returns documents is unspecified. The model takes any order that lists each selected document once, and reports it as `order`.
- A failing store or audit step in the sweep is given as the sets `storeFails` and `auditFails`. The cause of a failure is not modelled.
- Nest routing, Swagger, the ValidationPipe (whitelist and class-validator rules) and the `Roles` decorator are not modelled. Route roles appear only as the table in `Guard.RouteRoles`.
- Request bodies are assumed to reach the service as written. This assumption goes against the code: the global pipe (`main.ts:8-12`, `whitelist` with `forbidNonWhitelisted`) refuses with 400 every property that carries no class-validator decorator, and no property of `CreateDocumentDto` or `UpdateRetentionDto` carries one. So `create` and `updateRetention` with a non-empty body are refused before the service runs, and the model describes the service as if they were not.
- `version.schema.ts` is not modelled: the service never writes version records.
- Numbers are integers. Fractional values and NaN for `page`, `limit`, `version` and `retentionYear` are not modelled.
- Numbers are unbounded integers, and dates have an unbounded year. The range and precision of a JavaScript double are not modelled: integers beyond 2^53 are exact in the model. The exponent form in which `${targetVersion}` renders a magnitude of 1e21 or more is not modelled. The Date range, which ends about the year 275760, is not modelled either. `setFullYear` past that range gives an Invalid Date, and `updateRetention` then fails when the date is cast. The model stores a valid date instead, and `Documents.RetentionFor` promises a later `deleteAt` for any number of years.
- Foreground store and audit writes are assumed never to fail. The sweep models failing steps, but the service methods do not. For example, in `updateAcl` the ACL is replaced first (`documents.service.ts:171-175`). If `logAction`'s save then fails (`documents.service.ts:233`), the request ends with 500, and the ACL stays replaced with no UPDATE_ACL entry. `DocumentsService.UpdateAcl`'s contract rules that outcome out, and the same holds for the READ entry of `FindOne`.
- Auth.AuthController.Register: requires a body the global validation pipe admits (`src/main.ts:8`): role ADMIN or USER and a non-empty tenant. Other bodies never reach the handler. Login has no such requirement; a body outside the registry is Unauthorized.
- Documents.DocumentsService.FindAll: requires `limit != 0`. The controller turns a 0 or missing limit into 10, and `Math.ceil(total / 0)` is not an integer page number.
- Absent and `null` are not distinguished for `deletedAt`, `retention` and the optional ACL lists.
- Mongoose's default of an empty array for an ACL list that the stored object lacks is not modelled; such a list reads back as absent.
- Dates are calendar dates with a millisecond offset in local time. Time zones and daylight-saving shifts are not modelled.

## Findings

| source | as written | input that shows it | evidently intended | confidence | as-written member | corrected member |
|---|---|---|---|---|---|---|
| src/documents/documents.service.ts:210-219 | the delete guard reads `retentionPolicy.expiryDate`, a path the schema does not declare and no operation writes | `updateRetention(id, {policyId: "RET-1", retentionYear: 5, mode: "SOFT"})`, then at once `remove(id)`: the document is deleted | refuse deletion while `retention.deleteAt`, the deadline `updateRetention` stores, is in the future | high; not executed | Documents.RemoveIgnoresRetentionDeadline | Documents.IntendedLockBlocksRemoval |
| src/documents/documents.service.ts:103-106 | the tenant check compares `doc.tenantId`, a path the schema does not declare and `create` never writes, so it never fires | a document created under tenant `t1`, exported with `tenantId = "t2"`: the link is returned | compare the caller's tenant with the owning tenant `customerId` that `create` records | high; not executed | Documents.DownloadIgnoresTenant | Documents.IntendedTenantCheckIsolates |

The as-written checks are the predicates `Documents.RetentionLocked` and
`Documents.TenantMismatch`. `DocumentsService.Remove` and `DocumentsService.GetDownloadUrl` use
the corrected checks `RetentionLockedIntended` and `TenantMismatchIntended`.
`Retention.SweepAndIntendedLockAgree` shows that the corrected delete guard and the sweep split
time at the same instant. The scenarios `RemoveDuringRetentionScenario` and
`CrossTenantDownloadScenario` run the corrected methods on the inputs of the two rows.
