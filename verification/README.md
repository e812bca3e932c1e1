# Campus platform backend: a verified model

The project models four parts of the campus platform backend in Dafny and proves what they are there
to guarantee. `dafny verify dfyconfig.toml` checks all of it.

* **Idempotent writes.** A write reserves a row for (actor, operation, key hash), does its work and
  stores its reply in one transaction; retries are answered from the row. `Idempotency` is a state
  machine in which any number of such transactions interleave statement by statement over one table
  with a unique index and row locks; `RequestScopes` says which requests share a row. `HttpReplay`
  is the HTTP side: buffered writer, replayable headers, after-commit callbacks; `HttpHeaders` has
  header names and cloning.
* **RBAC, sessions and policy propagation.** `PolicyRules`, `Rbac`, `RbacSafety`, `RbacFrames`,
  `PermissionListing`, `RbacStore`, `SpellingRuns` and `Bootstrap` hold users, roles, rules, session
  versions and the outbox, with every transaction of the permission and user services as one
  serialised step. SQL conditions and unique indexes compare by the collation of the tables there,
  which may equate names that differ in case, accents or width; the service and the enforcer compare
  exactly. `Sessions`, `SessionSafety`, `TokenLife` and `AuthService` add login, refresh rotation
  and authentication, interleaved step by step over that database. `PolicyRelay` and `RelayRecovery`
  are the outbox relay of many instances with leases on one clock, `PolicyReload` the cached
  enforcer of one instance under concurrent reloads.
* **Schema normaliser.** `EntityOrder` (entities by foreign key), `ApiPaths` (path templates),
  `PermissionDerivation`, and `Normalizers`, `NormalEntities`, `NormalOperations`, `Normalize`,
  `NormalizeLoops`, `NormalizeLimits` for what a second normalisation does. `DeclaredEntities`,
  `DeclaredLists`, `DeclaredOperations` and `DeclaredSchema` say what is accepted and what it
  becomes in terms of the declarations, `NamePatterns` in terms of regular expressions.
* **OpenAPI composer and generation.** `Yaml`, `YamlNodes`, `OpenApi`, `OpenApiTree`,
  `OpenApiContract` for copying nodes and removing and merging operations in place,
  `OperationRoutes` for the routes of a module contract, `PlannedPaths`, `GeneratedFiles` and
  `GenerationCheck` for the registry, written files, drift check and pruning.

`Options`, `Ordering`, `Text`, `Uniques` and `SchemaTypes` are shared vocabulary. Code that changes
things in place is modelled by classes and methods whose contracts give the new state as a function
of the old one; the properties are lemmas about those functions and about all runs of the state
machines.

Assumptions. SHA-256 and the token hash are injective, JSON decoding inverts encoding, signed tokens
cannot be forged, random identifiers are never drawn twice, and permission transactions are
serialised by the database. The collation is any one that tells texts of lower-case letters, digits,
underscores and colons apart from each other, and likewise method expressions. Passwords, random
identifiers, clock readings, template rendering and the outcome of publishing are parameters.
Session versions and identifiers are unbounded integers except where 64 bits matter
(`PolicyRules.ParseUint`). Letters are those of ASCII.

Where the code does not do what its comments say, the model follows the code and proves exactly when
the promise holds:

* The guard for the last super administrator and the existence test for requested roles compare by
  the collation, everything else compares exactly, and requested names are not matched against the
  role pattern: `SpellingRuns.AdminStaysIff`, `RbacSafety.AssignmentKeepsExactIff`,
  `RbacSafety.AssignmentLosesAdminIff`, `Bootstrap.BootstrapMakesAdminIff`.
* `EnsureCurrentBaseRoleForUser` is documented not to demote a verified member, but it decides from
  the cached enforcer: `Bootstrap.ReconcilingKeepsBaseIff`, `Bootstrap.PromotionIsUndone`.
* `CanDisable` counts disabled holders of the role, as cached: `Bootstrap.OlderGuardFailsIff`.
* The ETag of an error reply is lost, since only stored replies have their header names
  canonicalised: `HttpReplay.ErrorPathHeaders`.
* A reply of exactly 65536 bytes passes the size check and cannot be stored:
  `HttpReplay.HandlerCommitsIff`.
* The refusals "idempotency_in_progress" and "lost pending ownership" cannot occur:
  `Idempotency.UnreachableRefusals`.
* A stored session version of zero survives its first bump: `SessionSafety.BumpTakesEffectIff`.
* A second `Normalize` can refuse what the first accepted: `Normalize.NormalizeTwice`,
  `NormalizeLimits.SharedNameExample`, `NormalizeLimits.HiddenKeyExample`.
* Composing paths again is a fixed point, merging components again is a conflict:
  `OpenApi.ComponentsDoNotRemerge`.
* An expected file can be pruned when the previous manifest spells its path differently:
  `GeneratedFiles.ExpectedSurvivesIff`, `GeneratedFiles.PruningUnderAnotherSpelling`.
* A table named "repository" makes two generated files fall on one path, and the check after a
  generation fails: `GenerationCheck.CheckAfterGenerateIff`.
* A reuse of a refresh token ends its family only if the deletion that follows succeeds:
  `SessionSafety.FailedDeletionKeepsFamily`.

## Model

| member | source | states |
|---|---|---|
| `Idempotency.StepKeepsInv` | internal/core/idempotency/idempotency.go:152-259 | every statement of every transaction keeps: committed rows are completed and match the committed work, an uncommitted row belongs to one live transaction, a replay carries the stored reply |
| `Idempotency.ReachableInv` | internal/core/idempotency/idempotency.go:152-259 | the invariant holds after any interleaving of any number of transactions |
| `Idempotency.AtMostOnce` | internal/core/idempotency/idempotency.go:152-213 | in every reachable state the work of one entry of the unique index has committed at most once, and rows exist exactly for committed work |
| `Idempotency.RepliesAgree` | internal/core/idempotency/idempotency.go:162-213 | any two committed requests of one index entry had the same request hash and got the same reply |
| `RequestScopes.ScopesAgreeIff` | internal/core/idempotency/idempotency.go:224-230 | two requests share an index entry exactly when actor, operation and key without surrounding space are equal |
| `RequestScopes.BegunIffWellFormed` | internal/core/idempotency/idempotency.go:261-273 | a request is begun exactly with an actor, an operation, a key of at most 128 bytes that is not blank, and a hash of 64 |
| `RequestScopes.BegunRequest` | internal/core/idempotency/idempotency.go:152-163 | in every run a transaction works for the request it was begun with |
| `RequestScopes.OncePerKey` | internal/core/idempotency/idempotency.go:224-249 | in every reachable state at most one transaction of an actor, operation and key has committed its own work, and the history holds all its effects |
| `RequestScopes.SameKeySameReply` | internal/core/idempotency/idempotency.go:162-213 | any two answered requests of one actor, operation and key had the same hash and got the same reply |
| `RequestScopes.AnsweredForItsOwnKey` | internal/core/idempotency/idempotency.go:224-259 | in every reachable state a transaction is answered from a record, or refused for a reused key, only because another one of the same actor, operation and key committed: with the same hash and that reply, or with another hash |
| `RequestScopes.LookupIff` | internal/core/idempotency/idempotency.go:224-233 | in every reachable state a lookup finds nothing exactly when no such transaction has committed; otherwise it ends in the reply or the conflict |
| `RequestScopes.SameKeyWaits` | internal/core/idempotency/idempotency.go:226-249 | while a transaction works, another one of the same actor, operation and key can neither look up nor insert |
| `RequestScopes.FoundRowIsLocked` | internal/core/idempotency/idempotency.go:226-229 | a row that was found is locked, and the others wait |
| `RequestScopes.FallbackLocks` | internal/core/idempotency/idempotency.go:240-248 | so is a row found after a failed insert |
| `RequestScopes.WorkIsKept` | internal/core/idempotency/idempotency.go:179-211 | in every run the committed effects of a transaction are exactly those of its work, and the callbacks run for it none or exactly those its work registered, in order |
| `Idempotency.UnreachableRefusals` | internal/core/idempotency/idempotency.go:198-210 | no reachable transaction is refused as in progress or for lost ownership |
| `Idempotency.OddRefusals` | internal/core/idempotency/idempotency.go:198-210 | they would follow if a pending row were found, or the own row were no longer pending or another's |
| `Idempotency.RecordsArePermanent` | internal/core/idempotency/idempotency.go:190-211 | over every run a committed record stays in the table unchanged and completed, and committed work stays committed |
| `Idempotency.NoWorkAfterCommit` | internal/core/idempotency/idempotency.go:224-259 | once a scope has a record, no later event of any run does work for it |
| `Idempotency.DifferentRequestIsRefused` | internal/core/idempotency/idempotency.go:251-259 | a lookup that finds a record of another request hash ends in the reuse conflict |
| `Idempotency.AbortedForGood` | internal/core/idempotency/idempotency.go:162-211 | a rolled-back transaction never commits and never runs a callback later |
| `Idempotency.AbortChangesNothingCommitted` | internal/core/idempotency/idempotency.go:162-211 | rolling back leaves the committed table and the committed work as they were |
| `Idempotency.DoomedNeverCommits` | internal/core/idempotency/idempotency.go:162-211 | a transaction whose work failed or was refused never commits and never runs a callback, in any continuation; rollback is all it can do |
| `Idempotency.KeyUsableAfterAbort` | internal/core/idempotency/idempotency.go:224-249 | in every reachable state, after a rollback a new transaction with the same key gets to do its work |
| `Idempotency.ReachableLocks` | internal/core/idempotency/idempotency.go:224-249 | in every reachable state only committed rows are locked for update |
| `Idempotency.WorkedIsKept` | internal/core/idempotency/idempotency.go:190-211 | a transaction commits only with the reply of its own work, whose body fits the column |
| `Idempotency.WorkCommitsIff` | internal/core/idempotency/idempotency.go:190-211 | after its work a transaction can commit in some continuation exactly when the work was accepted and the body fits the column |
| `Idempotency.AcceptedIff` | internal/core/idempotency/idempotency.go:179-190 | a result is accepted exactly with a status from 200 to 599 and at most 65536 bytes, and keeps all its values, with cloned headers |
| `Idempotency.CallbacksOnceInOrder` | internal/core/idempotency/idempotency.go:93-130 | in every run the callbacks executed for a transaction are none, or, after its own commit, exactly the registered ones once in order |
| `HttpReplay.CanonicalNames` | internal/core/idempotency/idempotency.go:280-288 | of the replayable names exactly ETag is not canonical as spelled |
| `HttpHeaders.CanonicalIs` | internal/core/idempotency/idempotency.go:280-288 | the canonical form has a capital at the front of each word and small letters after it; a name with a character that is no token character is its own |
| `HttpReplay.ReplayableHeaders` | internal/api/httpapi/idempotency.go:161-169 | the loop keeps exactly the listed headers that have values |
| `HttpHeaders.CloneBy` | internal/core/idempotency/idempotency.go:280-288 | for any source, any iteration order and any canonical form: exactly the canonical names, each with the values of the names it stands for, and with those of its only name unchanged |
| `HttpHeaders.CloneHeaders` | internal/core/idempotency/idempotency.go:280-288 | the same with the canonical form of header names |
| `HttpReplay.ApplyReplayHeaders` | internal/api/httpapi/idempotency.go:171-178 | the replayable headers are replaced by the source's, all others are untouched |
| `HttpReplay.StoreHeaders` | internal/api/httpapi/idempotency.go:100-107 | keeping the replayable headers and cloning them, one after the other, gives what a reply stores |
| `HttpReplay.StoredValues` | internal/api/httpapi/idempotency.go:100-107 | a stored reply has, in each replayable header, the values the handler set |
| `HttpReplay.ReplayDeliversHeaders` | internal/api/httpapi/idempotency.go:125-128 | a client answered from a stored reply receives those values, canonicalisation included |
| `HttpReplay.ErrorPathHeaders` | internal/api/httpapi/idempotency.go:109-120 | on an error reply each replayable header arrives except ETag, which is lost |
| `HttpReplay.BufferedWriter.Serve` | internal/api/httpapi/idempotency.go:35-68 | whatever a handler calls, the buffered reply is the first non-zero status and all bytes in order |
| `HttpReplay.HandlerPassesIff` | internal/api/httpapi/idempotency.go:81-107 | a handler run passes the checks on the result exactly for a status from 200 to 399 and a body within the limit of 65536 bytes; otherwise its work has failed |
| `HttpReplay.HandlerCommitsIff` | migrations/20260721144620_platform_idempotency.up.sql:10 | in every reachable state, after a handler run its transaction can commit exactly for such a status and a body of at most 65535 bytes, which is what the BLOB column holds |
| `HttpReplay.ReplayedResponseIsTheSame` | internal/api/httpapi/idempotency.go:70-130 | whatever the work, two clients answered for one scope receive the same status, body and replayable headers |
| `HttpReplay.EveryClientGetsTheReply` | internal/api/httpapi/idempotency.go:70-130 | over every run: if the work of a committed transaction was a handler run, every client answered for its scope receives the handler's status, body and all four replayable headers, through buffer, selection, cloning, storage and application |
| `HttpReplay.AfterCommit.Register` | internal/core/idempotency/idempotency.go:93-108 | registration appends, and is refused once the callbacks have run |
| `HttpReplay.AfterCommit.Run` | internal/core/idempotency/idempotency.go:111-130 | all registered callbacks are executed once, in order, even if some fail; a second call executes none |
| `HttpReplay.DeferAfterCommit` | internal/core/idempotency/idempotency.go:93-108 | inside a boundary the callback is registered, outside it is executed at once, a nil one is ignored |
| `PolicyRules.SubjectInjective` | internal/core/permission/service.go:161 | different users have different subjects |
| `PolicyRules.ParseOfSubject` | internal/core/permission/service.go:754-764 | parsing inverts the subject exactly for identifiers of 64 bits |
| `PolicyRules.ParseUintIff` | internal/core/permission/service.go:754-764 | parsing accepts exactly the numerals of numbers of 64 bits, with any number of zeros in front |
| `PolicyRules.NewPolicyRule` | internal/core/permission/adapter.go:103-113 | the columns hold the first six values, then empty strings |
| `PolicyRules.RuleArray` | internal/core/permission/adapter.go:115-121 | the loaded rule is the row without trailing empty columns, never without its type |
| `PolicyRules.RowRoundTrip` | internal/core/permission/adapter.go:30-41 | a stored rule loads as it was exactly when it has at most six values and no trailing empty one |
| `PolicyRules.AssignedUserIds` | internal/core/permission/service.go:754-764 | the loop collects exactly the non-zero identifiers that parse |
| `PolicyRules.ExpressionRoundTrip` | internal/core/permission/service.go:398-400 | a method set written as an expression is read back unchanged |
| `Uniques.UniqueStrings` | internal/generator/schema.go:783-800 | the loop yields the strictly increasing list of the trimmed non-empty values |
| `Uniques.UniqueTwice` | internal/core/permission/service.go:723-737 | normalising a normalised list changes nothing |
| `RbacSafety.StepKeepsInv` | internal/core/permission/service.go:261-704 | under any collation every transaction keeps: unique valid role names, every p rule names an existing role and every g rule some spelling of one, at most one of guest and member per user, session versions of at least one |
| `RbacSafety.RunKeepsInv` | internal/core/permission/service.go:261-704 | so does every run of transactions, whatever is requested |
| `RbacFrames.StepFrame` | internal/core/permission/service.go:261-704 | for every transaction: which rows it may remove or add; every other row is in the table exactly if it was before, with the same mark. Permission replacement and role deletion touch the policies of that role only |
| `RbacFrames.AssignmentRows` | internal/core/permission/service.go:363-374 | after an assignment the rows of the user are exactly one for each requested name and one for the base role the user had |
| `RbacFrames.PermissionRows` | internal/core/permission/service.go:455-475 | after a replacement the policies of the role are requested ones, none marked as generated |
| `RbacFrames.ManifestIff` | internal/core/permission/service.go:572-597 | the generated list of guests goes to the guest role, that of members to the member role |
| `RbacFrames.ReconciledRows` | internal/core/permission/service.go:572-597 | after reconciling, the generated policies of a base role are on its list, declared ones stay, and nothing on the list is missing but for the unique index |
| `RbacFrames.RoleRows` | internal/core/permission/service.go:218-284 | what every transaction makes of the role rows: none disappears but by its deletion, and none is renamed |
| `RbacFrames.StatusAfter` | internal/core/user/service.go:205-255 | what every transaction makes of the status of an account |
| `RbacFrames.DeletionAcceptedIff` | internal/core/permission/service.go:261-284 | a role is deleted exactly if it exists, is not built in and is assigned to nobody in any spelling |
| `RbacFrames.CreationAcceptedIff` | internal/core/permission/service.go:218-231 | a role is created exactly if its trimmed name matches the role pattern and is not taken |
| `RbacFrames.AccountsAcceptedIff` | internal/core/user/service.go:205-255 | accounts are changed exactly if they exist, and created exactly while there are identifiers |
| `RbacFrames.BuiltinIsProtected` | internal/core/permission/service.go:268-271 | a built-in role is neither deleted nor given other permissions |
| `RbacFrames.BuiltinStays` | internal/core/permission/service.go:261-704 | over every run a built-in role stays, built in and under its name |
| `RbacFrames.AdminPolicyStays` | internal/core/permission/service.go:261-704 | over every run the policy for all paths of a built-in super administrator role is never lost |
| `RbacFrames.PoliciesStay` | internal/core/permission/service.go:261-704 | over every run without a request for that role its declared policies stay |
| `RbacSafety.OwnColumnsAreLower` | migrations/000001_core.up.sql:34-39 | in the columns ptype and v0 the collation and exact comparison agree |
| `Rbac.ToLowerIsCollation` | migrations/000001_core.up.sql:34-39 | ignoring the case of ASCII letters is a collation as assumed |
| `RbacSafety.AssignmentKeepsExactIff` | internal/core/permission/service.go:314-374 | an accepted assignment keeps every rule naming a role exactly if and only if each requested name is a role name as written, that is, if and only if each matches the role pattern |
| `RbacSafety.RunKeepsExact` | internal/core/permission/service.go:261-704 | over every run whose role requests match the role pattern every p or g rule names an existing role exactly |
| `RbacSafety.DeletedInv` | internal/core/permission/service.go:261-284 | deleting a role that is not in use removes its name and every rule that mentions it, and keeps the invariant |
| `RbacSafety.AssignmentIsExact` | internal/core/permission/service.go:314-380 | after an accepted assignment the user has the requested roles and exactly one base role, the same as before; nobody else changes |
| `RbacSafety.BaseIsExact` | internal/core/permission/service.go:648-697 | base-role reconciliation selects exactly the given base role, removes every spelling of either, and keeps all other roles of everybody |
| `RbacSafety.OthersKeepEveryAdmin` | internal/core/user/service.go:205-255 | transactions other than role assignment and disabling leave every active super administrator one |
| `RbacSafety.AssignmentLosesAdminIff` | internal/core/permission/service.go:347-367 | an accepted assignment takes the last active super administrator away exactly when it drops the role from the only one; it is accepted then because another active account holds another spelling that the collation equates with the name |
| `RbacSafety.DisablingLosesAdminIff` | internal/core/permission/service.go:497-532 | likewise for disabling |
| `RbacSafety.StepKeepsAnAdmin` | internal/core/permission/service.go:261-704 | where nobody is assigned another spelling of the role, one transaction never takes away the last active super administrator |
| `RbacSafety.RunKeepsAnAdmin` | internal/core/permission/service.go:261-704 | once an active super administrator exists, one exists after every run in which no role request asks for another spelling of the role |
| `RbacSafety.PatternRunKeepsAnAdmin` | internal/core/permission/service.go:38 | in particular after every run whose role requests match the role pattern |
| `SpellingRuns.AdminStaysIff` | internal/core/permission/service.go:314-367 | for any set of names, runs from an empty database whose role requests ask for these names only always keep an active super administrator if and only if the set holds no other spelling of the role that fits its column |
| `SpellingRuns.TwoStepsLoseTheAdmin` | internal/core/permission/service.go:339-367 | for any other spelling of the role, two accepted assignments, one asking for it, leave no super administrator |
| `SpellingRuns.SettingIsReached` | internal/core/permission/service.go:535-563 | under any collation the situation for these two steps is reached from an empty database |
| `SpellingRuns.VariantRunLosesTheAdmin` | internal/core/permission/service.go:339-367 | so, under any collation and for any other spelling, a run from the empty database has a super administrator and then none |
| `SpellingRuns.ShoutedIsVariant` | migrations/000001_core.up.sql:34-39 | SUPER_ADMIN is such a spelling where case is ignored |
| `SpellingRuns.AccentedIsVariant` | migrations/000001_core.up.sql:34-39 | the lower-case name with an accent on the u is one where accents are ignored |
| `RbacSafety.RefusalIsExact` | internal/core/permission/service.go:502-520 | where nobody is assigned another spelling of the role, disabling is refused for this reason exactly when it would leave no active super administrator |
| `RbacSafety.PolicyChangeIsRecorded` | internal/core/permission/sync.go:204-207 | a transaction that changes the rules appends exactly its own outbox row |
| `RbacSafety.RunIsRecorded` | internal/core/permission/sync.go:204-207 | over a run the outbox only grows, and has grown if the rules differ |
| `RbacSafety.BumpIsExact` | internal/core/permission/service.go:451-475 | a successful transaction raises the session version of exactly the affected users, by one; for a permission replacement these are the holders of the role |
| `RbacSafety.RunVersionsGrow` | internal/core/permission/service.go:375-379 | over every run accounts stay and session versions never fall |
| `PermissionListing.AcceptedGrants` | internal/core/permission/service.go:418-442 | a permission request is accepted exactly when each of its entries is |
| `PermissionListing.PermissionsRoundTripIff` | internal/core/permission/service.go:388-413 | permissions read right after being replaced are exactly the requested paths with their normalised methods, if and only if no two entries with the same methods have different paths that the collation equates |
| `RbacStore.CountMeansKnown` | internal/core/permission/service.go:339-346 | the row count equals the list length exactly when every name is a spelling of a role and no two names are spellings of one role |
| `RbacStore.CheckGrants` | internal/core/permission/service.go:418-442 | the validation loop returns the first entry's error, or the rules to insert |
| `RbacStore.Store.CountOtherAdmins` | internal/core/permission/service.go:351-361 | the joined count is zero exactly when no other active user holds the role in any spelling |
| `RbacStore.Store.GetUserRoles` | internal/core/permission/service.go:292-311 | inside a transaction: exactly the user's direct roles, sorted |
| `RbacStore.Store.SetUserRoles` | internal/core/permission/service.go:314-380 | each refusal in its exact case, a name too long for its column included, with nothing changed; otherwise rules, version and outbox as specified and nothing else |
| `RbacStore.Store.DisableUser` | internal/core/permission/service.go:497-532 | refused for the last active super administrator or a missing user; otherwise disabled with a raised version and nothing else |
| `RbacStore.Store.EnableUser` | internal/core/user/service.go:205-246 | a missing user is refused; otherwise active with a raised version and nothing else, and the invariant is kept |
| `RbacStore.Store.CreateRole` | internal/core/permission/service.go:218-231 | malformed and existing names are refused; otherwise exactly one role name is added, and the invariant is kept |
| `RbacStore.Store.DeleteRole` | internal/core/permission/service.go:261-284 | missing, built-in and used roles are refused; otherwise the role and its policies are gone |
| `RbacStore.Store.SetPermissions` | internal/core/permission/service.go:418-480 | refusals in order; otherwise the role's policies are replaced and its holders' versions raised |
| `RbacStore.Store.EnsureBuiltin` | internal/core/permission/service.go:572-601 | the role is built in, its generated policies are those of the manifest, declared ones stay |
| `RbacStore.Store.EnsureBase` | internal/core/permission/service.go:648-704 | the same, and the user's base role is replaced |
| `RbacStore.Store.GrantSuperAdmin` | internal/core/permission/service.go:545-563 | role and policy exist afterwards, the user holds the role in some spelling, what existed is not touched, and the invariant is kept |
| `RbacStore.Store.CreateGuestUser` | internal/core/user/service.go:375-402 | the account and its guest role appear in one step |
| `RbacStore.Store.Bootstrap` | internal/core/permission/service.go:535-568 | the four transactions in order, the base role chosen from the cached snapshot |
| `Bootstrap.ReconciledIsFixed` | internal/core/permission/service.go:572-597 | ensuring a reconciled built-in role again only adds an outbox row |
| `Bootstrap.BootstrapIsIdempotent` | internal/core/permission/service.go:534-568 | a second bootstrap of the same user changes nothing but the outbox |
| `Bootstrap.BootstrapMakesAdminIff` | internal/core/permission/service.go:545-563 | afterwards an active account is an active super administrator if and only if it did not hold the role in another spelling only, under any collation |
| `Bootstrap.ReconcilingKeepsBaseIff` | internal/core/permission/service.go:604-614 | the base role is kept exactly when the snapshot agrees with the table about the member role |
| `Bootstrap.PromotionIsUndone` | internal/core/permission/service.go:604-614 | reconciling from the snapshot of before a promotion turns the member back into a guest |
| `Bootstrap.OlderGuardFailsIff` | internal/core/permission/service.go:484-494 | for any cached snapshot, the older guard lets the last active super administrator be disabled exactly when the snapshot does not show the user as a holder or shows another holder |
| `Bootstrap.OlderGuardFails` | internal/core/permission/service.go:484-494 | it does so after one of two super administrators was disabled, where DisableUser refuses |
| `Bootstrap.TwoAdminsAreReached` | internal/core/permission/service.go:535-563 | two super administrators are reached from an empty database |
| `SessionSafety.StepGood` | internal/core/auth/service.go:181-250 | every step of every request keeps the session invariant |
| `SessionSafety.RunGood` | internal/core/auth/service.go:108-256 | so does every interleaving with the database transactions |
| `SessionSafety.ExchangedAtMostOnce` | internal/core/auth/service.go:181-209 | in every run each refresh token is exchanged successfully at most once |
| `SessionSafety.RefreshableIff` | internal/core/auth/service.go:181-209 | an uninterrupted refresh succeeds exactly for a delivered refresh token in form, issued and not expired, current in its session, of an active account with the same version |
| `SessionSafety.UsableIff` | internal/core/auth/service.go:284-296 | what parsing and the account check amount to, field by field: kind, session named twice, issued and not expired, active account, same version |
| `TokenLife.PresentedAlive` | internal/core/auth/service.go:284-296 | in every run a token that was accepted or exchanged had been presented, as one of the right kind, at a time from its issue to before its expiry |
| `TokenLife.AcceptedForItsAccount` | internal/core/auth/service.go:186-194 | a token is accepted or checked only for an active account with the version it carries |
| `TokenLife.ExpiredForGood` | internal/core/auth/service.go:284-296 | once the clock has reached its expiry a token can never be presented again in any continuation, and nothing is accepted or exchanged for it but by a request under way |
| `TokenLife.SigningStep` | internal/core/auth/service.go:259-283 | a login signs for a new session of the account it read, a refresh for the session, account and version of the presented token, each pair with the lifetimes of its kinds; nothing else signs |
| `TokenLife.SignedTokens` | internal/core/auth/service.go:259-283 | in every run each signed token has the lifetime of its kind, and all tokens of a session are for its account |
| `TokenLife.LoginIff` | internal/core/auth/service.go:109-137 | a login goes on exactly for an active account, with its effective version |
| `TokenLife.RejectedIff` | internal/core/auth/service.go:195-204 | a refresh is rejected at the swap exactly when the presented token is not the current one |
| `TokenLife.StoreStep` | internal/infrastructure/redisclient/session_store.go:75-150 | for every step, which sessions it stores or removes |
| `TokenLife.LogoutEndsSession` | internal/core/auth/service.go:253-258 | after a logout no token of the session refreshes or newly authenticates in any continuation; other sessions are untouched |
| `TokenLife.RevocationEndsAll` | internal/core/auth/service.go:221-226 | after a revocation the same holds of all tokens of the user; sessions of others are untouched |
| `SessionSafety.OneRefreshableToken` | internal/core/auth/service.go:195-209 | at any moment at most one token of a session can be refreshed |
| `SessionSafety.RotationHandsOver` | internal/core/auth/service.go:195-209 | rotation makes the new token current and the presented one not |
| `SessionSafety.ReuseIsDetected` | internal/core/auth/service.go:199-204 | a token that was exchanged before always fails the swap |
| `SessionSafety.GoneForGood` | internal/core/auth/service.go:221-256 | a removed session never returns: none of its tokens refreshes again, or authenticates, except in a request that had already seen the session |
| `SessionSafety.ReuseEndsFamily` | internal/core/auth/service.go:199-204 | from the deletion that follows a detected reuse on, no token of the family refreshes or newly authenticates in any continuation |
| `SessionSafety.RejectionWaits` | internal/core/auth/service.go:199-204 | a rejected refresh can perform that deletion at any later time until it is over |
| `SessionSafety.FailedDeletionKeepsFamily` | internal/core/auth/service.go:199-204 | if the deletion fails, exactly the tokens that could be refreshed before can be refreshed after |
| `SessionSafety.OldTokensAreRefused` | internal/core/auth/service.go:186-194 | after a role, permission, status or password change, every token with a version the affected account had before is refused in all later states |
| `SessionSafety.VersionsInUse` | internal/core/auth/service.go:109-137 | these are the versions of all tokens signed so far and of all accounts a login under way has read |
| `SessionSafety.BumpTakesEffectIff` | internal/core/auth/service.go:309-314 | raising the stored version changes the effective one exactly when the stored one is not zero |
| `AuthService.SessionStore.Rotate` | internal/infrastructure/redisclient/session_store.go:75-117 | compare-and-swap: false and no change for a missing session or another token |
| `AuthService.SessionStore.DeleteUser` | internal/infrastructure/redisclient/session_store.go:131-150 | exactly the user's sessions are gone |
| `AuthService.Service.Login` | internal/core/auth/service.go:109-137 | a pair exactly for an active account with a matching password; the pair is accepted and its session stored; otherwise nothing is stored |
| `AuthService.Service.Refresh` | internal/core/auth/service.go:181-209 | exchange, refusal without effect, or reuse with the session removed, each in its exact case; a token is usable exactly if its kind, session, times, account and version are right |
| `AuthService.Service.Authenticate` | internal/core/auth/service.go:229-250 | accepted exactly for an access token in form, issued and not expired, of an existing session and an active account with the same version |
| `AuthService.RefreshIsRun` | internal/core/auth/service.go:181-209 | the uninterrupted refresh is a run of the interleaved system that leaves exactly the new token, or no session, in the store |
| `PolicyRelay.ListingIsEligible` | internal/core/permission/sync.go:149-155 | the listing holds at most a hundred rows, all eligible, in order of identifier |
| `PolicyRelay.ListingMissesOnlyLater` | internal/core/permission/sync.go:149-155 | a row that may be claimed is left out only behind a full batch of earlier ones |
| `PolicyRelay.ListedIff` | internal/core/permission/sync.go:149-155 | a row is listed exactly when it is undispatched and unlocked, or locked before the bound, and fewer than a hundred such rows come before it |
| `PolicyRelay.OnePassAtATime` | internal/core/permission/sync.go:131-146 | an instance runs one loop, and one pass at a time |
| `PolicyRelay.ClaimTakesEffectIff` | internal/core/permission/sync.go:157-166 | a claim takes effect exactly under that condition on the row, and is passed over otherwise |
| `PolicyRelay.PassRelays` | internal/core/permission/sync.go:148-185 | a pass whose publications succeed dispatches exactly the first hundred such rows, each with one more attempt and unlocked |
| `RelayRecovery.StaleClaimIsRecovered` | internal/core/permission/sync.go:150-185 | in every state any instance has a run that publishes and dispatches an undispatched row whose lock, if any, is more than thirty seconds old |
| `RelayRecovery.EveryChangeCanBeRelayed` | internal/core/permission/sync.go:150-185 | so in every reachable state every undispatched row can be brought out after thirty-one seconds, whoever died holding it |
| `RelayRecovery.PassIsRun` | internal/core/permission/sync.go:148-185 | an undisturbed pass is a run of the interleaved system that leaves the outbox as the pass does |
| `RelayRecovery.FailedPublication` | internal/core/permission/sync.go:167-176 | a failed publication releases the row if it is still held, with one more attempt, and ends the pass |
| `PolicyRelay.DispatchedRows` | internal/core/permission/sync.go:178-182 | after a pass each dispatched row is marked once, with the clock reading of its own claim |
| `PolicyRelay.UntouchedRows` | internal/core/permission/sync.go:157-182 | all other rows are as before |
| `PolicyRelay.Outbox.RelayPass` | internal/core/permission/sync.go:148-185 | an undisturbed pass publishes the listed rows in order up to the first failure, dispatches those and releases the failed one; without failure it relays exactly the first hundred rows that are undispatched and unlocked, or locked more than thirty seconds before |
| `PolicyRelay.StepGood` | internal/core/permission/sync.go:148-185 | every statement of every instance keeps the relay invariant |
| `PolicyRelay.DispatchedWasPublished` | internal/core/permission/sync.go:167-182 | in every run the outbox has one row per recorded change, and a dispatched row was published |
| `PolicyRelay.DispatchedIsFinal` | internal/core/permission/sync.go:178-182 | rows are never removed, and a dispatched row never changes again |
| `PolicyRelay.ChangesAreOwned` | internal/core/permission/sync.go:157-182 | a row changes only by a claim when it is free or its lease has run out, or by the owner of the current claim |
| `PolicyRelay.LeaseIsExclusive` | internal/core/permission/sync.go:16-17 | within the lease nobody but the owner changes a claimed row |
| `PolicyRelay.DispatchFollowsPublication` | internal/core/permission/sync.go:167-182 | a row becomes dispatched only in the completion of the instance that holds it, after publication, with the time of its claim |
| `PolicyRelay.ChangeReachesOutbox` | internal/core/permission/sync.go:204-207 | a transaction that changes rules leaves its own undispatched row |
| `PolicyReload.SnapshotsAdvance` | internal/core/permission/sync.go:187-199 | over every run of commits and concurrent reloads the stored snapshot never moves back |
| `PolicyReload.ReloadIncludesCommit` | internal/core/permission/service.go:766-770 | a reload called after a commit and stored leaves a snapshot that includes the commit, for good |
| `PolicyReload.ReloadedRulesAreCurrent` | internal/core/permission/sync.go:187-199 | with no commit since the call, the cached rules are the committed ones |
| `PolicyReload.CommitIsRecorded` | internal/core/permission/sync.go:187-199 | a commit adds the database as its transaction leaves it |
| `PolicyReload.MutualExclusion` | internal/core/permission/sync.go:187-199 | no two reloads are past the mutex at once |
| `PolicyReload.WaitingCallCompletes` | internal/core/permission/sync.go:187-199 | in every state a waiting reload has a run that stores the rules committed last and frees the mutex, even if the one before it fails |
| `EntityOrder.OrderEntities` | internal/generator/schema.go:249-307 | for any list: terminates; succeeds exactly when table names are distinct and not empty, all references resolve and the foreign keys have no cycle; the result is a permutation |
| `EntityOrder.GreedyOrderCorrect` | internal/generator/schema.go:277-306 | the order exists exactly for acyclic foreign keys, puts every referenced table earlier, and is the least such order by original position |
| `EntityOrder.GreedyIsLeast` | internal/generator/schema.go:277-306 | no order that respects the dependencies comes before the greedy one |
| `EntityOrder.OrderImpliesAcyclic` | internal/generator/schema.go:298-304 | if any dependency order exists there is no cycle |
| `EntityOrder.StuckImpliesCycle` | internal/generator/schema.go:298-304 | when no entity is ready there is a cycle |
| `EntityOrder.ArrangementIsPermutation` | internal/generator/schema.go:277-306 | the ordered list has the same entities, each once |
| `EntityOrder.OrderOfOrdered` | internal/generator/schema.go:249-307 | ordering an ordered list changes nothing |
| `EntityOrder.CheckReferences` | internal/generator/schema.go:249-276 | the loop reports a bad reference exactly when there is one, and collects each entity's dependencies |
| `ApiPaths.RewriteBraces` | internal/generator/openapi.go:159-168 | the loop ends on every string and computes the left-to-right scan |
| `ApiPaths.ScanSucceedsIff` | internal/generator/openapi.go:162-164 | it reports an invalid path exactly when some opening brace has no closing brace left |
| `ApiPaths.TranslationOfValidPath` | internal/generator/schema.go:802-804 | on accepted paths loop and regular expression agree, the result is a valid permission path, and it can be translated back |
| `ApiPaths.TranslationIsOnto` | internal/generator/schema.go:702-724 | every valid permission path is the translation of a valid operation path |
| `ApiPaths.TranslationIsInjective` | internal/generator/schema.go:802-804 | different accepted paths have different translations |
| `ApiPaths.RewritesDifferOutsideValidPaths` | internal/generator/openapi.go:159-168 | on other paths the two rewrites can differ |
| `NamePatterns.WordPatterns` | internal/generator/schema.go:24-25 | module names, table and field names, and role names are exactly the matches of their regular expressions |
| `NamePatterns.TypePattern` | internal/generator/schema.go:26 | so are type names |
| `NamePatterns.PermissionPattern` | internal/generator/schema.go:27 | permission names |
| `NamePatterns.SegmentPattern` | internal/generator/schema.go:28 | literal path segments |
| `NamePatterns.TemplatePattern` | internal/generator/schema.go:29 | path parameters of operations |
| `NamePatterns.CasbinPattern` | internal/generator/schema.go:30 | path parameters of permissions |
| `NamePatterns.HeaderPattern` | internal/generator/schema.go:31 | and header names |
| `PermissionDerivation.PermissionsFromOperations` | internal/generator/schema.go:748-781 | for any iteration order of the map the result is the one specified list |
| `PermissionDerivation.KeyInjective` | internal/generator/schema.go:752-753 | different permissions never share a grouping key |
| `PermissionDerivation.DerivedShapeIsUnique` | internal/generator/schema.go:766-781 | sorted, distinct and complete leaves one list |
| `PermissionDerivation.OperationIsCovered` | internal/generator/schema.go:748-781 | every operation is covered by a permission with its name, path and roles, its method listed once |
| `PermissionDerivation.PermissionsDiffer` | internal/generator/schema.go:748-781 | by exactly one |
| `PermissionDerivation.NothingExtra` | internal/generator/schema.go:748-781 | every listed method comes from an operation the permission covers |
| `NormalEntities.NormEntitySettles` | internal/generator/schema.go:309-362 | a normalised entity is left alone by normalisation |
| `NormalEntities.NormEntitiesSettles` | internal/generator/schema.go:207-240 | a normalised entity list keeps its order and its primary entity the second time |
| `DeclaredEntities.ForeignKeyIff` | internal/generator/schema.go:338-355 | a foreign key is accepted exactly when its reference is table, dot, column, both names, and its action is one of three; the halves are those of the reference, the action is the written one in capitals, CASCADE if blank |
| `DeclaredEntities.FieldIff` | internal/generator/schema.go:806-867 | a field is accepted exactly when name, former name, kind and size are allowed; the derived types, Go name, JSON name and tag are those of the declaration |
| `DeclaredEntities.EntityIff` | internal/generator/schema.go:309-357 | an entity is accepted, and becomes what it becomes, exactly as it declares: names, fields, keys, and indexes over its own fields |
| `DeclaredLists.EntitiesAcceptedIff` | internal/generator/schema.go:207-307 | a list of entities is accepted exactly when each is, tables differ, at most one is primary, every reference as written names a declared column, and the references between tables have no cycle |
| `DeclaredLists.EntitiesBecome` | internal/generator/schema.go:207-307 | it becomes the declared entities in the least order that puts each after those it refers to, with the marked entity, or else the first, as primary |
| `NormalOperations.OperationTwice` | internal/generator/schema.go:414-543 | an accepted operation is left alone the second time exactly when it does not hide a required key header |
| `NormalOperations.EnsureKeyFixed` | internal/generator/schema.go:619-641 | the key header is added or completed once |
| `NormalOperations.TrimmedNamesHideNothing` | internal/generator/schema.go:642-646 | header names without surrounding space hide no key |
| `DeclaredOperations.HeaderIff` | internal/generator/schema.go:559-606 | a header or query parameter is accepted exactly when name, type, format, enumeration and bounds are allowed, and becomes what it declares |
| `DeclaredOperations.BodyFieldIff` | internal/generator/schema.go:656-700 | likewise a body field |
| `DeclaredOperations.KeyRuleIff` | internal/generator/schema.go:619-652 | what becomes of the headers of an operation: the first key header completed, one added, or none allowed to be required |
| `DeclaredOperations.OperationIff` | internal/generator/schema.go:414-537 | an operation is accepted, and becomes what it becomes, exactly as it declares: scalars with their defaults, roles, headers, query, body and responses |
| `DeclaredSchema.CrudIff` | internal/generator/schema.go:363-375 | CRUD names are accepted exactly when each is one of five and none occurs twice, and are put in order |
| `DeclaredSchema.PermissionIff` | internal/generator/schema.go:376-410 | a declared permission is accepted exactly with a name, a path and at least one method, none twice; its methods are put in order |
| `DeclaredSchema.SchemaAcceptedIff` | internal/generator/schema.go:198-247 | a schema is accepted exactly when version, module, entities, components, CRUD names, permissions and operations are as declared above |
| `DeclaredSchema.SchemaBecomes` | internal/generator/schema.go:198-247 | what an accepted schema becomes, part by part |
| `Normalize.DerivedAccepted` | internal/generator/schema.go:376-412 | derived permissions pass the checks for declared ones exactly when their names are distinct |
| `Normalize.DistinctNamesIff` | internal/generator/schema.go:748-781 | derived names are distinct exactly when operations under one name share path and roles |
| `Normalize.NormalizeTwice` | internal/generator/schema.go:198-247 | normalising an accepted schema again changes nothing if permission names are distinct and no key is hidden, and refuses it otherwise |
| `Normalize.NormalizeIsIdempotent` | internal/generator/generator.go:98-100 | with one path and role set per permission name and header names without surrounding space, the second normalisation changes nothing |
| `NormalizeLimits.SharedNameIsRefusedLater` | internal/generator/schema.go:383-387 | any two normalised operations with one permission name and different paths make such a refused schema |
| `NormalizeLimits.SharedNameExample` | internal/generator/schema.go:383-387 | a concrete one |
| `NormalizeLimits.HiddenKeyIsRefusedLater` | internal/generator/schema.go:642-646 | so does any operation that hides a key |
| `NormalizeLimits.HiddenKeyExample` | internal/generator/schema.go:642-646 | a concrete one |
| `NormalizeLoops.NormalizeEach` | internal/generator/schema.go:414-452 | the loop rewrites every element in place, or stops at the first refused or repeated one; both exactly as specified |
| `NormalizeLoops.NormalizeHeaders` | internal/generator/schema.go:477-488 | headers in place, names distinct up to case |
| `NormalizeLoops.NormalizeOperationList` | internal/generator/schema.go:414-537 | operations in place, identifiers and routes distinct |
| `NormalizeLoops.TrimEnum` | internal/generator/schema.go:581-597 | enumerated values trimmed in place, none empty or repeated |
| `NormalizeLoops.NormalizeIdempotency` | internal/generator/schema.go:619-652 | the first matching header is completed, or a new one appended, or the declaration refused |
| `OperationRoutes.GroupRoutes` | internal/generator/generator.go:366-376 | the loop groups consecutive operations of one path; none is lost, repeated or moved |
| `OperationRoutes.OneRoutePerPath` | internal/generator/generator.go:366-376 | on the sorted operations of an accepted schema every path has exactly one route |
| `Yaml.EntryIff` | internal/generator/openapi.go:340-350 | the value of a key is that of its first pair, and only mappings have any |
| `Yaml.ScalarIff` | internal/generator/openapi.go:352-358 | the text of a key is that of its first value, if it is a scalar |
| `Yaml.GeneratedIff` | internal/generator/openapi.go:225-239 | an operation is generated exactly if it is a mapping with the key x-generated-module |
| `YamlNodes.CloneNode` | internal/generator/openapi.go:360-367 | the copy holds the value of the original and consists of new nodes only |
| `YamlNodes.HoldsOneValue` | internal/generator/openapi.go:360-367 | nodes, shared or not, hold one value, so original and copy agree in everything |
| `OpenApi.MergeSucceedsIff` | internal/generator/openapi.go:241-267 | merging succeeds exactly when no generated (path, method) collides with the target or another generated one |
| `OpenApi.MergedContents` | internal/generator/openapi.go:241-267 | each path then holds what it held, then the operations addressed to it, in order |
| `OpenApi.MergedNames` | internal/generator/openapi.go:241-267 | new paths appear in order of first use |
| `OpenApi.CleaningUndoesMerging` | internal/generator/openapi.go:225-267 | removing generated operations after merging gives the cleaned base back |
| `OpenApi.CompositionIsFixedPoint` | internal/generator/openapi.go:225-267 | composing the composed paths with the same fragments gives the same paths |
| `OpenApi.ComponentsMergeIff` | internal/generator/openapi.go:269-315 | components merge exactly when no (group, name) collides |
| `OpenApi.MergedComponentsContents` | internal/generator/openapi.go:269-315 | each group then holds what it held, then its new definitions, in order |
| `OpenApi.ComponentsDoNotRemerge` | internal/generator/openapi.go:269-315 | merging the same components again is a conflict unless there are none |
| `OpenApiTree.Item.RemoveGenerated` | internal/generator/openapi.go:227-234 | backward deletion in place equals the order-preserving filter |
| `OpenApiTree.Tree.RemoveGeneratedOperations` | internal/generator/openapi.go:225-239 | the same over all paths, with emptied paths removed |
| `OpenApiTree.Tree.MergeGeneratedPaths` | internal/generator/openapi.go:241-267 | the in-place merge computes the specified section or reports the conflict |
| `OpenApiTree.Tree.MergeGeneratedComponents` | internal/generator/openapi.go:269-315 | likewise for components |
| `OpenApiContract.Composer.Compose` | internal/generator/openapi.go:25-89 | paths cleaned, paths and components of every module merged in turn, operationIds checked: accepted and computed exactly as specified, in place |
| `OpenApiContract.ContractProperties` | internal/generator/openapi.go:25-89 | an accepted contract has unique operationIds, keeps the hand-written operations and reproduces itself over the same base components; over its own components only if there are none |
| `OpenApiTree.ValidateOperationIds` | internal/generator/openapi.go:317-336 | accepts exactly the contracts whose operationIds are unique |
| `GeneratedFiles.UpsertTwice` | internal/generator/generator.go:378-419 | registering a module again leaves the registry as it is |
| `GeneratedFiles.UpsertKeepsOthers` | internal/generator/generator.go:378-419 | other modules keep their entries |
| `GeneratedFiles.RegisterModule` | internal/generator/generator.go:403-415 | the loop replaces the module's entry or appends it, sorted |
| `GeneratedFiles.WrittenFile` | internal/generator/generator.go:149-160 | if paths planned twice agree in content, every planned file has its planned content, a preserved one that existed its old content |
| `GeneratedFiles.GenerationIsFixedPoint` | internal/generator/generator.go:94-162 | with such a plan a check after a generation reports no drift, and a second generation changes no file |
| `GenerationCheck.CheckAfterGenerateIff` | internal/generator/generator.go:94-162 | for every accepted schema and every renderer of its files, a check after a generation makes the same plan and reports no drift if and only if the schema is not one of version 2 with a table "repository" whose file differs from the repository interface |
| `PlannedPaths.PlanIsDistinctIff` | internal/generator/generator.go:260-349 | the paths planned for a module are distinct exactly without a table "repository" in a version 2 schema |
| `PlannedPaths.EntityFilePath` | internal/generator/generator.go:296-323 | where the file of each entity is |
| `PlannedPaths.NamedAfterModule` | internal/generator/generator.go:296-349 | where the adapter, the contract and the permissions of a module are |
| `PlannedPaths.PreservedFiles` | internal/generator/generator.go:296-323 | of the files of a module exactly the rule and its test are preserved |
| `PlannedPaths.PlanIsConsistentIff` | internal/generator/generator.go:260-349 | all files planned for one path agree exactly unless such a table's file differs from the repository interface |
| `PlannedPaths.RepositoryTableDrifts` | internal/generator/generator.go:296-323 | if it differs, a check right after a generation reports drift |
| `GeneratedFiles.RepeatedPathDrifts` | internal/generator/generator.go:149-160 | so does any path planned twice with different contents |
| `GeneratedFiles.Repository.Generate` | internal/generator/generator.go:94-162 | check mode reports the differing files and writes none; otherwise the plan is written |
| `GeneratedFiles.ManagedIff` | internal/generator/generator.go:120-147 | the managed files are exactly the planned ones that are not preserved |
| `GeneratedFiles.ChangedIff` | internal/generator/generator.go:120-147 | the changed files are exactly the planned ones that are missing, or differ and are not preserved |
| `GeneratedFiles.PruningIsExact` | internal/generator/managed.go:72-127 | of all files exactly those denoted by a previous entry no longer expected are gone, the manifest is the expected one, and nothing else is altered or added |
| `GeneratedFiles.ExpectedSurvivesIff` | internal/generator/managed.go:91-117 | an expected file that exists survives unchanged if and only if no previous entry denotes it under a spelling that is not expected |
| `GeneratedFiles.PruningUnderAnotherSpelling` | internal/generator/managed.go:108-145 | a concrete expected file with another spelling passes the marker test and is removed |
| `GeneratedFiles.ReconcileRespelled` | internal/generator/managed.go:72-127 | reconciling reports success on it |
| `GeneratedFiles.ReconciledPassesCheck` | internal/generator/managed.go:72-95 | a check right after a successful reconciliation succeeds |
| `GeneratedFiles.StaleEntries` | internal/generator/managed.go:173-186 | the loop yields exactly the previous paths no longer expected |
| `GeneratedFiles.Repository.Reconcile` | internal/generator/managed.go:72-127 | refusals leave the expected files alone; success removes the stale ones and writes the manifest |

## Left out

- HttpHeaders.Canonical: header names are lists of the words between dashes.
- Idempotency.Scope: operation identifiers compare exactly, although the collation of their column ignores case; generated identifiers never differ in case only.
- Rbac.Apply: does not model 64-bit overflow of session versions, infrastructure failures or permission paths too long for their column, which roll back and change nothing.
- Rbac.ChangePassword: of a password change only the raised session version is modelled, as a step of the specification.
- PolicyRelay.Outbox.RelayPass: meets no competing claim; the interleaved model of the same module does.
- PermissionDerivation.PermissionsFromOperations: requires names, paths and roles without NUL, which normalised operations never have.
- Sessions.Session: the eviction of the oldest session beyond twenty and the expiry of sessions are one step that may remove any session at any time.
- OpenApi.Section: path items are mappings; items of other YAML kinds, and two paths sharing one operation node by alias, are not modelled.
- Normalize.NormSchema: which of several errors is reported is not modelled, and components keep their names only; declarations are values, so of the in-place rewriting only the loops of `NormalizeLoops` are captured.
- GeneratedFiles.Repository: file-system effects are a map from path to content; path confinement, symbolic links and atomic replacement are not modelled.
- Casbin matching, JWT signing, bcrypt, AES, Redis and GORM: foreign libraries.
- WeChat account lookup, user names, role descriptions, listings: would only add easy members.
- Configuration centre, domain events, notices, payment, middleware, command-line programs: other parts of the repository.
