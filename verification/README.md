# Verified model of the commerce backend's core

Dafny models of the parts of the backend where state, time and concurrency meet, with proofs of what they keep over
whole runs. `dafny verify dfyconfig.toml` checks everything.

| file | models |
|---|---|
| `CategoryForest.dfy` | parent pointers, the walk up them, and what moving and deleting do to everybody's ancestors |
| `CategoryService.dfy` | creating, updating and deleting categories, as a class over the table and as steps of a run |
| `CategoryTree.dfy` | the nested tree: the two passes over shared mutable nodes, the tree value they denote, its flattening |
| `CategoryReads.dfy` | category writes, cache invalidation and cached tree reads together, over any number of processes |
| `RefreshSessions.dfy` | sessions and refresh-token rotation, every refresh split into its read and its conditional write |
| `SignInMethods.dfy` | passwords in two copies and linked Google accounts: all operations on the user and account tables |
| `AuthCache.dfy` | cached authentication contexts over any number of processes and one Redis with its per-user index |
| `Permissions.dfy` | roles, permissions and sessions, the requests, socket handshakes and profile reads that cache them on any number of processes, and the operations that change them |
| `CacheService.dfy` | the general two-level cache, over any number of processes |
| `Metrics.dfy` | ring buffers, percentiles, status classes and the capped route table |
| `Realtime.dfy` | realtime events between server instances over one Redis channel |
| `CursorPagination.dfy`, `Base64Url.dfy` | cursors, pages and walks over pages |
| `Templates.dfy` | replacing `{{name}}` tokens |
| `Slug.dfy` | slugs |

A service that changes state is a class whose methods follow the source branch by branch and are proved equal to an
outcome function; runs are sequences of steps over the same functions, and the theorems quantify over all runs. The
database is a map or sequence of rows with its unique indexes, Redis a map with expiry times, the clock a number of
milliseconds. Where several servers or requests can interleave (refreshes, authentication contexts, the cache, realtime
events) steps come in any order; category writes, sign-in operations and role changes are serial, whichever process makes
them, because the code does not guard them against one another.

## What turned out not to hold

Each of these has a lemma at an input and one that says for all inputs exactly when the code does what one would expect;
where it does so again after a while, another gives the bound, with an input just short of it.

- A refresh token can be used twice: tokens are told apart only by their second of issue, so a token refreshed within the
  second it was issued in is minted again unchanged (`SameSecondReuse`, `SingleUseIffLaterSecond`).
- A whole-user invalidation misses a context that is stored between its index read and its deletes, or that was being
  loaded meanwhile (`StoreInsideInvalidationEscapes`, `LoadAcrossInvalidationEscapes`, `InvalidationHoldsIff`).
- Deleting a role invalidates nothing. Its permissions are granted from caches for up to 600 seconds, not 300: the context
  stays in Redis for 300, and a process that takes it over at the end, because it never had it, restarted, or stamped its
  own copy earlier, keeps it for another 300 (`RoleDeletedServesStale`, `GrantedAfterDeletion`, `CurrentAfterRoleDeletedIff`,
  `DeletionTakesNothingIff`; for every kind of change and interleaving `ContextsAgeOut`, `AgeOutIsTight`).
- Replacing a role's permissions or a user's roles reaches Redis and the memory of the process that does it; another
  process grants from its memory for up to 300 seconds more (`ReplacedElsewhereServesStale`,
  `CurrentAfterReplacedElsewhereIff`, `GrantedAfterReplacement`).
- Logging out does not end a session at once. A socket handshake looks at the user and not at the session and caches a
  context for it, after which requests are accepted again; and other processes serve what they have in memory
  (`HandshakeReopensSession`, `LoggedOutElsewhereServed`, `LoggedOutRefusedIff`). What does end it is the access token: five
  minutes after a logout, a revocation or a password reset nothing accepts it any more (`RevocationBound`).
- Resetting a password revokes the sessions and invalidates nothing: a session with a cached context is served until its
  token ends (`ResetServesRevokedSession`, `ResetServesIff`, `RevocationBound`).
- A category write reaches Redis and the memory of the process that does it; another process answers the old tree for up
  to an hour (`OldTreeElsewhere`, `CurrentAfterWriteElsewhereIff`, `ReadsCurrentAgain`; for the cache in general
  `InvalidatedElsewhereServed`, `InvalidatedEverywhere`).
- Creating a category refuses an empty slug; renaming one can store it (`RenameStoresEmptySlug`, `EmptySlugStoredIff`,
  `EmptySlugIff`).
- A template with nothing bound is not always unchanged: a name such as `toString` is found on every object
  (`InheritedNameIsReplaced`, `NothingBoundIsIdentityIff`).
- For the same reason two passes with two variable objects are not always one pass with both (`SecondObjectTooLate`,
  `TwoObjectsAreOneIff`, `TwoNullableObjectsAreOneIff`).
- The tree builder drops every row that does not hang from a root (`CycleDisappears`, `FlattenPermutesIffAcyclic`). The
  serial category operations never make such rows (`RunKeepsForest`).
- A walk over pages starts over behind a page that ends in a row with an empty id (`EmptyIdStartsOver`, `WalkEndsIff`).
  This concerns the helper alone: its one caller, `productQuery.service.ts` line 164, pages over uuids.

Three comments in the source say something else than the code does; the model follows the code.

- `slug.util.ts` line 14 says underscores become hyphens; the code has removed them one step earlier
  (`UnderscoreExample`; `AsCommentedIff` says for which texts that makes a difference).
- `authSession.service.ts` lines 416 and 417 say Google is linked to an account with a verified e-mail; the code links an
  unverified one too, and a password it was registered with then signs in (`UnverifiedPasswordSurvivesLink`).
- `authAccount.prisma` line 14 says a PASSWORD account's external id is the user's id; the code stores the e-mail address
  when there is one (`ExternalIdIsOwnIff`).

## Model

| member | source | states |
|---|---|---|
| CategoryForest.IsDescendantOf | src/modules/catalog/services/categoryHierarchy.service.ts:63-85 | on every finite parent map, cyclic and dangling ones included, the walk ends and answers true exactly when the ancestor is reachable in zero or more parent steps |
| CategoryForest.MoveKeepsAcyclicIff | src/modules/catalog/services/category.service.ts:97-115 | storing a new parent keeps the pointers acyclic exactly when the check finds no path from the new parent to the moved category |
| CategoryForest.DetachKeepsAcyclic | src/modules/catalog/services/category.service.ts:97-125 | making a category a root never closes a cycle |
| CategoryForest.MoveAncestors | src/modules/catalog/services/category.service.ts:97-134 | who is above whom after a permitted move: outside the moved subtree as before, inside it the path up to the moved category and then the new parent and what is above that |
| CategoryForest.DeleteAncestors | src/modules/catalog/services/category.service.ts:170-183 | deleting a category changes no other pair of ancestor and descendant |
| CategoryForest.DeleteKeepsForest | src/modules/catalog/services/category.service.ts:170-183 | handing orphans to the grandparent keeps the pointers acyclic and leaves none dangling |
| CategoryForest.CreateKeepsForest | src/modules/catalog/services/category.service.ts:34-59 | a new row under an existing parent or under none closes no cycle and dangles nowhere |
| CategoryService.Service.CreateCategory | src/modules/catalog/services/category.service.ts:19-63 | on success a row with a non-empty slug nobody had and a parent that exists, no other row touched; a refusal changes nothing; a forest stays a forest; each refusal exactly when it applies first, and every field of the row |
| CategoryService.Service.UpdateCategory | src/modules/catalog/services/category.service.ts:68-138 | accepted only from somebody signed in who has system:manage, created the row, or has category:update or product:update, and forbidden to exactly the others; each other refusal exactly when it applies first; on success just that row with the fields sent; a forest stays a forest |
| CategoryService.DenialIs | src/modules/catalog/catalog-auth.helper.ts:17-43 | who is denied and why: exactly the anonymous, and exactly those signed in who neither manage the system, nor created the row, nor have one of the two permissions |
| CategoryService.UpdateIsDone | src/modules/catalog/services/category.service.ts:68-134 | for every table and input: the reason an update is refused for, or every field of the row it stores |
| CategoryService.Service.DeleteCategory | src/modules/catalog/services/category.service.ts:143-187 | accepted only from somebody signed in who has system:manage, created the row, or has category:delete or product:delete, and forbidden to exactly the others; refused with products; on success the row gone and its children with its parent, all else as it was; a forest stays a forest |
| CategoryService.OpKeepsForest | src/modules/catalog/services/category.service.ts:19-187 | each call keeps an acyclic forest without dangling parents and with unique slugs |
| CategoryService.RunKeepsForest | src/modules/catalog/services/category.service.ts:19-187 | so does every serial run of creates, updates and deletes, accepted or refused |
| CategoryService.CycleRefusedExactly | src/modules/catalog/services/category.service.ts:97-115 | in a forest, an update refuses a new parent as itself or a descendant exactly when storing it would close a cycle |
| CategoryService.DeletedAncestors | src/modules/catalog/services/category.service.ts:143-187 | after a delete every other category has the ancestors it had, less the deleted one |
| CategoryService.MovedAncestors | src/modules/catalog/services/category.service.ts:97-138 | the ancestors of every category after an accepted move |
| CategoryService.EmptySlugStoredIff | src/modules/catalog/services/category.service.ts:83-95 | an accepted call stores an empty slug exactly when it is an update that renames to a name without slug characters and sends no slug |
| CategoryService.RenameStoresEmptySlug | src/modules/catalog/services/category.service.ts:83-95 | renaming Shoes to !!! without sending a slug stores the empty slug |
| CategoryTree.MakeNodes | src/modules/catalog/services/categoryHierarchy.service.ts:35-43 | one fresh node without children per listed row, under its id |
| CategoryTree.PushNodes | src/modules/catalog/services/categoryHierarchy.service.ts:45-52 | every node's children become the nodes of the listed rows naming it as parent, in listing order; the roots are the other rows' nodes |
| CategoryTree.BuildTree | src/modules/catalog/services/categoryHierarchy.service.ts:35-54 | the shared node graph denotes the forest of the listing, for every listing with distinct ids |
| CategoryTree.LinkedDenotes | src/modules/catalog/services/categoryHierarchy.service.ts:45-54 | nodes linked to their kids denote finite trees below every root, although cycles may exist elsewhere |
| CategoryTree.RootPathUnique | src/modules/catalog/services/categoryHierarchy.service.ts:45-52 | there is at most one walk from a root down to a row |
| CategoryTree.FlattenForest | src/modules/catalog/services/categoryHierarchy.service.ts:35-54 | flattening gives exactly the rows that hang from a root, once each, cyclic listings included |
| CategoryTree.RootedIffAcyclic | src/modules/catalog/services/categoryHierarchy.service.ts:45-52 | every listed row hangs from a root exactly when the listed pointers have no cycle |
| CategoryTree.FlattenPermutesIffAcyclic | src/modules/catalog/services/categoryHierarchy.service.ts:35-54 | the flattened tree is a permutation of the listing exactly when the listed pointers have no cycle |
| CategoryTree.CycleDisappears | src/modules/catalog/services/categoryHierarchy.service.ts:45-52 | two rows naming each other as parent are in no tree |
| CategoryTree.UnfoldShaped | src/modules/catalog/services/categoryHierarchy.service.ts:45-52 | at every depth a node's children are the listed rows naming it as parent, in listing order |
| CategoryTree.TreeOfForest | src/modules/catalog/services/categoryHierarchy.service.ts:25-58 | for every forest and status filter: all matching rows once, children and roots exactly as they should be and in (sortOrder, name) order |
| CategoryReads.TreeKeyInjective | src/common/cache/cache.keys.ts:41 | every status filter has a key of its own |
| CategoryReads.TreeKeysInvalidated | src/modules/catalog/services/categoryHierarchy.service.ts:90-94 | the category pattern matches every tree key, as a glob and as the regular expression built from it |
| CategoryReads.InvalidateCategoryCache | src/modules/catalog/services/categoryHierarchy.service.ts:90-106 | both stores lose exactly the keys of the two patterns and the given detail keys |
| CategoryReads.Serialize | src/common/cache/cache.service.ts:70-71 | writing out a node graph gives the tree it denotes |
| CategoryReads.GetCategoryTree | src/modules/catalog/services/categoryHierarchy.service.ts:25-58 | what is cached is answered; otherwise the nodes are built, and what they denote, the forest of the listing, is answered and stored in both caches |
| CategoryReads.SomeEnvBuilds | src/modules/catalog/services/categoryHierarchy.service.ts:28-55 | for every collation the listing query and the builder can be what the run theorems take them to be |
| CategoryReads.StepKeepsSync | src/modules/catalog/services/categoryHierarchy.service.ts:25-106 | whatever step any process makes, short of a write on another one, every tree that process p's memory or Redis could still serve stays the tree of the current rows |
| CategoryReads.StepKeepsRedisSync | src/modules/catalog/services/categoryHierarchy.service.ts:25-106 | a write, read or restart on any process leaves no tree in Redis but that of the current rows |
| CategoryReads.RunKeepsSync | src/modules/catalog/services/categoryHierarchy.service.ts:25-106 | so after every run with writes on p alone, and the rows stay a forest |
| CategoryReads.ReadsAreCurrent | src/modules/catalog/services/categoryHierarchy.service.ts:25-58 | every tree read on a process that makes all the writes, in every serial run of all processes, answers the tree of the current rows, with each selected row exactly once |
| CategoryReads.ReadsCurrentAgain | src/modules/catalog/services/categoryHierarchy.service.ts:90-106 | whatever was written on whichever process until time t, every process reads the current tree again from t + 3600 s on |
| CategoryReads.CurrentAfterWriteElsewhereIff | src/modules/catalog/services/categoryHierarchy.service.ts:90-106 | right after an accepted write on another process a tree read on p is current exactly when p did not have that tree in memory or the write leaves it as it was |
| CategoryReads.OldTreeElsewhere | src/modules/catalog/services/categoryHierarchy.service.ts:90-106 | one millisecond earlier, after every accepted write, a process that had built the tree still answers the old one |
| RefreshSessions.AuthSessionService.IssueUserSessionAndTokens | src/modules/auth/authSession.service.ts:23-71 | while it verifies, the new token is accepted by a refresh exactly until seven days after issue; every other session answers as before |
| RefreshSessions.AuthSessionService.RefreshRead | src/modules/auth/authSession.service.ts:139-176 | goes on to swap exactly when the conditional update would succeed at once for the token, its user and an unexpired session; deletes only live sessions for a token that could not be swapped or after expiry; rejected exactly for a token not handed out or a week old and a session gone, another user's or revoked, and otherwise deleted exactly for a superseded token or an expired session |
| RefreshSessions.AuthSessionService.RefreshSwap | src/modules/auth/authSession.service.ts:178-192 | after a success the new token, and no other of the session, can be swapped; without one nothing changes; other sessions keep theirs |
| RefreshSessions.AuthSessionService.RefreshDrop | src/modules/auth/authSession.service.ts:158-170 | no token of the session can be swapped any more, and every other token can that could |
| RefreshSessions.AuthSessionService.Logout | src/modules/auth/authSession.service.ts:206-214 | just that session is revoked, revoked ones stay so |
| RefreshSessions.AuthSessionService.RevokeSession | src/modules/auth/authSession.service.ts:234-243 | only the user's own unrevoked session is found, and revoked |
| RefreshSessions.AuthSessionService.RevokeAllSessions | src/modules/auth/authSession.service.ts:245-253 | all of the user's sessions but a kept one are revoked, and the count is of those that were active |
| RefreshSessions.StepKeepsInv | src/modules/auth/authSession.service.ts:23-253 | every step of every interleaving keeps: chains of successes, rows holding the newest hash, expiry fixed at login, in-flight refreshes well formed |
| RefreshSessions.RefreshesFormOneChain | src/modules/auth/authSession.service.ts:139-204 | in every interleaving the successful refreshes of a session form one chain from the login token, each read within seven days of login, and a stored hash is the last link's |
| RefreshSessions.SingleUseIffLaterSecond | src/modules/auth/authSession.service.ts:172-192 | no token is accepted twice exactly when none is refreshed again within its own second of issue |
| RefreshSessions.SameSecondReuse | src/modules/auth/authSession.service.ts:172-192 | two refreshes with the login token both succeed when all happens in one second |
| RefreshSessions.UninterruptedRefresh | src/modules/auth/authSession.service.ts:139-204 | a refresh without interference succeeds exactly for the newest token of a live session within both expiry times |
| RefreshSessions.DeadForever | src/modules/auth/authSession.service.ts:178-192 | once a session is revoked or deleted no later swap on it succeeds, whatever was read before |
| RefreshSessions.KillingSteps | src/modules/auth/authSession.service.ts:206-253 | logout, revocation, revoking all and a pending delete do end a session |
| RefreshSessions.SupersededTokenKillsSession | src/modules/auth/authSession.service.ts:158-163 | refreshing a live session with a superseded token deletes it as soon as that refresh writes, whatever runs in between |
| SignInMethods.AuthTables.InsertAccount | prisma/schema/Identity/authAccount.prisma:22-27 | an account row is inserted exactly when it breaks neither unique index |
| SignInMethods.AuthTables.WritePassword | src/modules/auth/authSession.service.ts:548-569 | both copies of the hash are written, or neither when an index refuses; written exactly when the external id the account is to have is no other user's |
| SignInMethods.AuthTables.Register | src/modules/auth/authRegistration.service.ts:37-144 | refused exactly for a verified e-mail and what the unique indexes do not take; otherwise the user of the e-mail, or a new one, has a PASSWORD account with this e-mail and hash |
| SignInMethods.AuthTables.Login | src/modules/auth/authSession.service.ts:73-137 | the answer, from the row of the e-mail's user alone: credentials, unverified e-mail, inactive user or that user, in this order; nothing changes but that a missing PASSWORD account is made if the indexes allow |
| SignInMethods.AuthTables.AuthenticateWithGoogle | src/modules/auth/authSession.service.ts:360-476 | who is signed in: the subject's user, else the user of the e-mail, who is linked and verified, else a new one; every refusal exactly when it applies |
| SignInMethods.AuthTables.SetPassword | src/modules/auth/authSession.service.ts:478-518 | a user without a password signs in with this one from then on; nobody else gains or loses a way to sign in; the copies stay consistent; each refusal exactly when it applies, and then nothing changes |
| SignInMethods.AuthTables.ChangePassword | src/modules/auth/authSession.service.ts:520-586 | accepted only with the password in use, whichever copy holds it; the new one is in use then; nobody gains or loses a way to sign in; each refusal exactly when it applies, and then nothing changes |
| SignInMethods.AuthTables.ResetPassword | src/modules/auth/authRegistration.service.ts:302-344 | the user of the e-mail signs in with this password from then on; nobody else gains or loses a way to sign in; never without the right code; each refusal exactly when it applies, and then nothing changes |
| SignInMethods.AuthTables.LinkGoogle | src/modules/auth/authSession.service.ts:588-643 | the subject belonged to nobody and signs in this user from then on; nobody else gains or loses a way to sign in; each refusal exactly when it applies, and then nothing changes |
| SignInMethods.AuthTables.UnlinkProvider | src/modules/auth/authSession.service.ts:645-685 | accepted exactly for a method the user has besides another one; just that method of just that user is gone; each refusal exactly when it applies, and then nothing changes |
| SignInMethods.LoginHashIsRowHash | src/modules/auth/authSession.service.ts:89-90 | in a consistent database it does not matter which copy of the hash a login reads |
| SignInMethods.OpDescribed | src/modules/auth/authSession.service.ts:73-685 | every operation keeps the database consistent and changes of every user just the password, Google link and verified flag the operation is for |
| SignInMethods.RunKeepsSignIn | src/modules/auth/authSession.service.ts:73-685 | over every serial run the copies agree, there is one account per user and provider, and nobody who could sign in loses the last way |
| SignInMethods.OpKeepsAMethod | src/modules/auth/authSession.service.ts:645-685 | only unlinking takes a way to sign in away, and never the last one |
| SignInMethods.ListIsMethods | src/modules/auth/authSession.service.ts:687-715 | the list names each way to sign in exactly once, and its length is what unlinkProvider counts |
| SignInMethods.UnlinkAcceptedIff | src/modules/auth/authSession.service.ts:655-666 | unlinking is accepted exactly for a method the user has when there is another |
| SignInMethods.UnlinkAnswers | src/modules/auth/authSession.service.ts:645-666 | with two providers a user with one method is told it is the last, whichever is named |
| SignInMethods.UnlinkRemovesExactly | src/modules/auth/authSession.service.ts:668-681 | just the named method of just that user is gone |
| SignInMethods.LoginFollowsPassword | src/modules/auth/authSession.service.ts:73-100 | after any operation a login is refused for its credentials exactly when the password is not the one that operation left |
| SignInMethods.UnverifiedPasswordSurvivesLink | src/modules/auth/authSession.service.ts:405-436 | linking Google by e-mail makes a password work that was refused until then exactly when the e-mail was unverified and the password is the right one |
| SignInMethods.ExternalIdIsOwnIff | src/modules/auth/authSession.service.ts:499-508 | the external id of a password account is the user id exactly when the user has no e-mail address |
| AuthCache.Process.GetAuthContext | src/common/utils/auth-cache.ts:40-69 | a live memory entry is answered as it is; otherwise exactly a live Redis context of that user, of the session named and of a session not expired, which memory then keeps for 300 s; asking again answers the same, other keys are not touched |
| AuthCache.Process.SetAuthContext | src/common/utils/auth-cache.ts:71-92 | this process serves the context back, and so does one that starts once Redis is written while its session lasts; every index stays complete; 300 s from each write |
| AuthCache.Process.ForgetUserKeys | src/common/utils/auth-cache.ts:98-102 | the loop deletes exactly the user's keys |
| AuthCache.Process.BeginInvalidate | src/common/utils/auth-cache.ts:94-118 | memory answers nothing for the user and what it did for everybody else; with a complete index the keys read are all that Redis would answer |
| AuthCache.Process.FinishInvalidate | src/common/utils/auth-cache.ts:119-123 | the listed keys answer nothing at any time, all others what they did |
| AuthCache.Process.InvalidateUser | src/common/utils/auth-cache.ts:94-127 | with a complete index nothing is served for the user any more, by this process or by one that has just started |
| AuthCache.Process.InvalidateSession | src/common/utils/auth-cache.ts:94-115 | nothing is served for the session any more; what other keys answer is not touched |
| AuthCache.StepKeepsCovered | src/common/utils/auth-cache.ts:71-127 | every live Redis context stays in its user's live index, which outlives it, and in every pending invalidation's list |
| AuthCache.QuietRunCovered | src/common/utils/auth-cache.ts:40-127 | so over every run that stores no context of the user inside an invalidation of the user |
| AuthCache.StepKeepsSealed | src/common/utils/auth-cache.ts:40-127 | once sealed, no step of any process lets an older context spread |
| AuthCache.FinishSeals | src/common/utils/auth-cache.ts:117-123 | an invalidation that finishes with Redis reachable, everything that matters listed and nothing older in flight seals the user |
| AuthCache.InvalidationHoldsIff | src/common/utils/auth-cache.ts:40-127 | whatever runs afterwards, the 300 s bound holds exactly when the list about to be deleted has every Redis context that could still be taken over and no older context is in flight |
| AuthCache.InvalidationBound | src/common/utils/auth-cache.ts:40-127 | after any run without such a store, an invalidation finishing at time t with nothing older in flight: no process serves a context loaded before t from t + 300 s on |
| AuthCache.BoundIsTight | src/common/utils/auth-cache.ts:63-65 | one millisecond earlier it can happen |
| AuthCache.StoreInsideInvalidationEscapes | src/common/utils/auth-cache.ts:84-123 | a store between the index read and the deletes is served after the bound |
| AuthCache.LoadAcrossInvalidationEscapes | src/common/utils/auth-cache.ts:71-123 | so is a context whose load was in flight |
| AuthCache.ContextsAgeOut | src/common/utils/auth-cache.ts:40-92 | with nothing loaded before t in flight at t, whatever any process does and even with no invalidation, none serves a context loaded before t from one millisecond short of t + 600 s on |
| AuthCache.AgeOutIsTight | src/common/utils/auth-cache.ts:52-65 | one millisecond earlier a process that took the context over from Redis in its last millisecond there does |
| Permissions.DerivedIsGranted | src/plugins/auth.plugin.ts:141-144 | flattening and deduplicating gives exactly the permissions granted through some role |
| Permissions.AcceptedIff | src/modules/authorization/authorization.service.ts:110-126 | the count comparison accepts exactly when each distinct identifier, spellings of one uuid told apart, names a row of its own |
| Permissions.Server.Authenticate | src/plugins/auth.plugin.ts:71-185 | without a cached context accepted exactly for an active user and, with a session named, one that is there, its own, unrevoked and unexpired, and the context is stored with that expiry; with no outdated context in memory or Redis, the permissions put on the request are exactly those granted through some role, and none is outdated afterwards |
| Permissions.Server.SocketAuth | src/sockets/socket.auth.ts:57-113 | without a cached context accepted exactly for an active user; what it grants is exact, as for a request; for an active user a request in the same session is served from then on, whatever has become of the session |
| Permissions.Server.GetCurrentUser | src/modules/auth/authSession.service.ts:267-358 | without a cached context answered exactly for an existing user, without a look at status or session; the permissions in it are exact, as for a request |
| Permissions.Server.ReplaceRolePermissions | src/modules/authorization/authorization.service.ts:105-155 | the role then has exactly the permissions named, no other role changes, no outdated context is left in this process's memory or in Redis; a refusal changes nothing; refused exactly without the role, or when not each identifier names a row of its own |
| Permissions.Server.ReplaceUserRoles | src/modules/authorization/authorization.service.ts:158-204 | the user then has exactly the roles named, no other user changes, no outdated context is left in this process's memory or in Redis; a refusal changes nothing; refused exactly without the user, or when not each identifier names a row of its own |
| Permissions.Server.DeleteRole | src/modules/authorization/authorization.service.ts:88-97 | refused exactly without the role and for SUPER_ADMIN; otherwise everybody is left with exactly what some other role grants |
| Permissions.StepKeeps | src/common/utils/auth-cache.ts:40-127 | in every run of all processes each live Redis context is in its user's live index, which outlives it, nothing cached lives longer than 300 s and no access token longer than five minutes |
| Permissions.StepKeepsRedisUpToDate | src/modules/authorization/authorization.service.ts:105-204 | no step of any process but deleting a role leaves an outdated context in Redis |
| Permissions.StepKeepsUpToDate | src/modules/authorization/authorization.service.ts:105-204 | every step but deleting a role, and replacing on another process, leaves what process p can serve from its memory or from Redis equal to what the database grants |
| Permissions.RunKeepsUpToDate | src/modules/authorization/authorization.service.ts:105-204 | so does every run of such steps |
| Permissions.GrantedIsCurrent | src/plugins/auth.plugin.ts:71-185 | after every run of requests, handshakes, profile reads, logins, refreshes, logouts, revocations, resets and restarts on any processes and role and user replacements on p, a request or handshake on p is granted exactly what the database grants its user then, whether read from memory, Redis or the database |
| Permissions.CurrentAfterReplacedElsewhereIff | src/modules/authorization/authorization.service.ts:105-204 | right after a replacement on another process an accepted request on p is granted what the database grants exactly when its context was not in p's memory or the replacement leaves the user what it had |
| Permissions.GrantedAfterReplacement | src/modules/authorization/authorization.service.ts:105-204 | after any run until time t, with replacements on any processes and no deletion, every process grants what the database grants from t + 300 s on |
| Permissions.ReplacedElsewhereServesStale | src/modules/authorization/authorization.service.ts:158-204 | one millisecond earlier a user can still have, on another process, the permissions of the roles taken away |
| Permissions.LoggedOutRefusedIff | src/sockets/socket.auth.ts:57-105 | after any run and a logout, or a revocation of all, on process p: in all states of every later run requests in the session are refused on process q exactly when q is p, or did not have its context in memory, or its token no longer verified, and no handshake or profile read has since stored a context for it while its token verified |
| Permissions.HandshakeReopensSession | src/sockets/socket.auth.ts:61-103 | a logged-out session is refused, and after a handshake with its token accepted on every process to the token's last millisecond |
| Permissions.LoggedOutElsewhereServed | src/modules/auth/authSession.service.ts:206-214 | a process other than the one that logged it out, with its context in memory, serves it as long |
| Permissions.RevocationBound | src/common/utils/token.ts:14-25 | a session logged out, revoked or reset at time t is refused on every request and handshake of every process from t + 300 s on, because a revoked session gets no new access token and the last lives five minutes |
| Permissions.RevocationSparesOthers | src/modules/auth/authSession.service.ts:206-253 | after any run a logout, a revocation or a reset of one user leaves every answer to everybody else's requests, on every process, as it was |
| Permissions.CurrentAfterRoleDeletedIff | src/modules/authorization/authorization.service.ts:88-97 | after any run as for GrantedIsCurrent, right after a role is deleted an accepted request is granted what the database grants exactly when its context was in neither cache, or the user did not hold the role, or has all it grants through other roles |
| Permissions.DeletionTakesNothingIff | src/modules/authorization/authorization.service.ts:88-97 | deleting a role takes nothing from a user exactly when the user does not hold it or has all it grants through other roles |
| Permissions.GrantedAfterDeletion | src/common/utils/auth-cache.ts:40-92 | after any run until time t, deletions of roles included, every process grants what the database grants from one millisecond short of t + 600 s on |
| Permissions.RoleDeletedServesStale | src/common/utils/auth-cache.ts:52-65 | one millisecond earlier the only permission of the deleted role is still granted by another process, one that restarted, or the same one when Redis was written later than memory was stamped |
| Permissions.ResetServesIff | src/modules/auth/authRegistration.service.ts:315-344 | right after a password reset a request in a revoked session is accepted exactly when its token verifies and its context is cached |
| Permissions.ResetServesRevokedSession | src/modules/auth/authRegistration.service.ts:339-343 | one millisecond before the bound it can still be accepted |
| CacheService.CacheProcess.Get | src/common/cache/cache.service.ts:23-52 | what is live in memory, else what is live in Redis, which memory then has for a minute, else nothing; asking again answers the same, other keys are not touched |
| CacheService.CacheProcess.Set | src/common/cache/cache.service.ts:57-75 | the value is answered for its ttl, with Redis ready not a millisecond longer, and by a process that has just started too; other keys answer as before at every time |
| CacheService.CacheProcess.GetOrFetch | src/common/cache/cache.service.ts:81-101 | what had an answer keeps it, and only without one the fetched value is taken; with a ttl the answer is there for the next call, in both stores |
| CacheService.CacheProcess.Del | src/common/cache/cache.service.ts:106-119 | the key has no answer at any time any more; other keys answer as before |
| CacheService.CacheProcess.InvalidatePattern | src/common/cache/cache.service.ts:135-162 | the loops delete exactly the matching keys of both stores; memory keeps those with a line break behind the prefix |
| CacheService.InvalidationCompleteIff | src/common/cache/cache.service.ts:135-162 | no key with the prefix is left exactly when Redis is reachable or holds none and no remembered key has a line break behind the prefix |
| CacheService.StepKeepsInv | src/common/cache/cache.service.ts:23-162 | every entry anywhere traces back to a set of its key and value, with at most sixty seconds on top of that set's ttl |
| CacheService.ReturnedIsRecent | src/common/cache/cache.service.ts:23-75 | across any number of processes a returned value was set under that key less than ttl + 60 s before |
| CacheService.RecencyIsTight | src/common/cache/cache.service.ts:45-47 | two milliseconds short of that bound a value is still returned |
| CacheService.InvalidatedEverywhere | src/common/cache/cache.service.ts:135-162 | an invalidation on process p with Redis reachable: on p get answers only what was set since, on every other process too once the ttl of the sets before it and sixty seconds have passed, whatever runs in between |
| CacheService.InvalidatedElsewhereServed | src/common/cache/cache.service.ts:57-75 | one millisecond earlier the process that did the set still answers it |
| Metrics.PushRotates | src/common/observability/metrics.service.ts:74-80 | recording appends and, when full, drops the oldest of the window the buffer is a rotation of |
| Metrics.RingIsRotatedWindow | src/common/observability/metrics.service.ts:74-80 | the buffer is always a rotation of the last durations in arrival order |
| Metrics.SortSorts | src/common/observability/metrics.service.ts:108 | an ascending permutation |
| Metrics.SortedUnique | src/common/observability/metrics.service.ts:108 | there is only one |
| Metrics.StatsIgnoreOrder | src/common/observability/metrics.service.ts:103-128 | the statistics depend only on the multiset of samples |
| Metrics.StatsOfHistory | src/common/observability/metrics.service.ts:74-128 | the statistics of the buffer are those of the last durations of the whole history |
| Metrics.StatsInOrder | src/common/observability/metrics.service.ts:103-128 | min, p50, p90, p99 and max are in order and the average lies between the ends, for every monotone rounding |
| Metrics.PercentileMeaning | src/common/observability/metrics.service.ts:114-117 | a percentile is a recorded sample with at most p percent strictly below and more than that at or below, unless it is the maximum; for every p |
| Metrics.IncrementalIsRecount | src/common/observability/metrics.service.ts:60-72 | counting as requests come gives what counting afterwards with the final entries gives, so nothing is split between a key and its overflow |
| Metrics.AllOrNothing | src/common/observability/metrics.service.ts:60-72 | an ordinary key's entry holds all requests with that key; without one the map was full |
| Metrics.CountsSumToTotal | src/common/observability/metrics.service.ts:48-72 | the counts add up to the number of requests |
| Metrics.RoutesBounded | src/common/observability/metrics.service.ts:60-72 | at most 300 entries and one per distinct method |
| Metrics.CountStatusCounts | src/common/observability/metrics.service.ts:50-54 | the class counters count the statuses of the log by range |
| Metrics.RequestHeld | src/common/observability/metrics.service.ts:47-81 | recording a request keeps counters, routes and buffer those of the log |
| Metrics.QueryHeld | src/common/observability/metrics.service.ts:86-98 | recording a query keeps counters and buffer those of the log |
| Metrics.MetricsService.RecordHttpRequest | src/common/observability/metrics.service.ts:47-81 | the log grows by the request and every field stays the function of the log it should be |
| Metrics.MetricsService.RecordDbQuery | src/common/observability/metrics.service.ts:86-98 | the same for queries |
| Metrics.MetricsService.ComputeStats | src/common/observability/metrics.service.ts:103-128 | of any samples the count, the rounded least, greatest and average, and the rounded samples that stand at 50, 90 and 99 percent; zeros for none |
| Metrics.StatsSummarize | src/common/observability/metrics.service.ts:103-128 | what every figure says of the samples, with no sorting in the statement |
| Metrics.MetricsService.LatencySnapshot | src/common/observability/metrics.service.ts:156-176 | the snapshot's latency blocks are the statistics of the last 5000 and 2000 durations; each figure says of them what it should |
| Metrics.MetricsService.Reset | src/common/observability/metrics.service.ts:232-243 | an empty log |
| Realtime.RealtimeServer.InitSocketServer | src/sockets/socket.server.ts:29-219 | starting twice is starting once; every message of another instance is emitted from then on |
| Realtime.RealtimeServer.PublishRealtimeEvent | src/sockets/socket.server.ts:252-278 | own messages stay in publication order, none twice; the echo of this one will be dropped; emitted to this room under this event while there is a socket server, and published just so when Redis is ready |
| Realtime.RealtimeServer.OnMessage | src/sockets/socket.server.ts:221-232 | nothing of its own is emitted again; of others, while there is a socket server, everything in order of arrival |
| Realtime.RealtimeServer.CloseSocketServer | src/sockets/socket.server.ts:322-339 | closing twice is closing once; nothing received or published is emitted until the next start |
| Realtime.StepKeepsOrdered | src/sockets/socket.server.ts:207-278 | each origin's messages stand in publication order, without repetition, from sockets through queue to connection |
| Realtime.StepKeepsDelivering | src/sockets/socket.server.ts:207-239 | what a subscriber has emitted and what waits in its queue are together the channel since it subscribed |
| Realtime.EmittedInOrderOnce | src/sockets/socket.server.ts:207-278 | in every run every instance emits each origin's messages in order and none twice |
| Realtime.EmittedAsPublished | src/sockets/socket.server.ts:221-278 | in every run whatever any instance emits has the room, event and data its origin published under its number |
| Realtime.DeliveredExactly | src/sockets/socket.server.ts:221-232 | with an empty queue a subscriber has emitted exactly what reached Redis from others since it subscribed, in the channel's order |
| Realtime.PublisherEmitsOnce | src/sockets/socket.server.ts:252-278 | a publication is emitted by its own instance exactly once in every later state |
| Base64Url.DecodeUndoesEncode | src/common/utils/cursorPagination.ts:27-38 | decoding undoes encoding; the text is URL-safe, unpadded and of the least length |
| Base64Url.EncodeUndoesDecodeIff | src/common/utils/cursorPagination.ts:27-38 | a text is an encoding exactly when it is URL-safe, has no lone last digit and no stray bits |
| Base64Url.EncodeSpellsNumber | src/common/utils/cursorPagination.ts:27-30 | the text, read digit by digit in the alphabet of section 5 of RFC 4648, is the number the bytes are |
| CursorPagination.DecodeUndoesEncode | src/common/utils/cursorPagination.ts:27-47 | the cursor of an id decodes to that id |
| CursorPagination.FetchServes | src/common/utils/cursorPagination.ts:52-82 | without a cursor the first page, with a row's cursor the page behind it, or the first page when the id is empty |
| CursorPagination.NamedIsServed | src/common/utils/cursorPagination.ts:33-82 | any text that holds an object with a non-empty string id gets the page behind the row with that id, or an empty page without such a row |
| CursorPagination.OthersServedFirstPage | src/common/utils/cursorPagination.ts:33-62 | every other text, and no cursor, gets the first page |
| CursorPagination.NthPage | src/common/utils/cursorPagination.ts:52-82 | page k of a walk holds the rows from k times limit on, with the flags and cursors of that position |
| CursorPagination.CompleteWalkIsWholeList | src/common/utils/cursorPagination.ts:52-82 | a walk that ends went through the whole list, each row once and in order, in max(1, ceil(n / limit)) pages |
| CursorPagination.WalkEndsIff | src/common/utils/cursorPagination.ts:57-62 | following endCursor ends exactly when no page but the last ends in a row with an empty id |
| CursorPagination.EmptyIdStartsOver | src/common/utils/cursorPagination.ts:57-62 | with two rows, one a page, the first with an empty id, the second page is the first again and no walk ends |
| CursorPagination.WalkIsBounded | src/common/utils/cursorPagination.ts:52-82 | with non-empty ids no walk is longer than that, and each page is where it should be |
| Templates.TokenAtIff | src/workers/templates/notificationTemplates.ts:38 | a token is found exactly when some split of the text matches the regular expression, and every split captures the same name |
| Templates.ScanCovers | src/workers/templates/notificationTemplates.ts:38 | the scan loses nothing of the template |
| Templates.ScanIsLeftmost | src/workers/templates/notificationTemplates.ts:38 | the scan is the only way to cut a template into matches, each the token that stands there, and characters that start none |
| Templates.UnchangedIff | src/workers/templates/notificationTemplates.ts:37-42 | a template none of whose tokens is bound comes back unchanged, and only such a template does, unless a value bound to one of its tokens is empty, a lone opening brace, or begins with two |
| Templates.NothingBoundIsIdentityIff | src/workers/templates/notificationTemplates.ts:37-42 | with no variables it comes back unchanged exactly when no token names a property every object inherits |
| Templates.InheritedNameIsReplaced | src/workers/templates/notificationTemplates.ts:39-40 | {{toString}} is replaced although nothing is bound |
| Templates.InterpolateIsSubstitute | src/workers/templates/notificationTemplates.ts:37-42 | one pass over a written template substitutes piece by piece, whatever the values contain |
| Templates.TwoPassesAreOne | src/workers/templates/notificationTemplates.ts:37-42 | passes with two lookups are one with the lookup that tries the first and then the second, for literal text and first values that can begin no token |
| Templates.TwoObjectsAreOneIff | src/workers/templates/notificationTemplates.ts:37-42 | for all non-null values of two disjoint sets of variables two passes are one with their union exactly when no token names both a variable of the second set and an inherited property |
| Templates.TwoNullableObjectsAreOneIff | src/workers/templates/notificationTemplates.ts:37-42 | for all values, null ones included, exactly when no token names both a variable of either set and an inherited property |
| Templates.SecondObjectTooLate | src/workers/templates/notificationTemplates.ts:38-40 | with toString bound by the second object, two passes give the inherited function text and one pass the value |
| Templates.RescannedOnlyByASecondPass | src/workers/templates/notificationTemplates.ts:37-42 | a value that looks like a bound token comes out of one pass as it is |
| Slug.SlugifyGivesSlug | src/modules/catalog/utils/slug.util.ts:7-17 | the result is empty or runs of [a-z0-9] with single hyphens between them |
| Slug.SlugifyIsOnePass | src/modules/catalog/utils/slug.util.ts:7-17 | for all texts the chain of replacements is one pass: letters and digits stay, white space and hyphens between two of them are one hyphen, everything else goes without making one |
| Slug.FixedPointsAreSlugs | src/modules/catalog/utils/slug.util.ts:7-17 | the strings left alone are exactly the slugs |
| Slug.SlugifyIdempotent | src/modules/catalog/utils/slug.util.ts:7-17 | a second time changes nothing |
| Slug.SlugKeepsLettersAndDigits | src/modules/catalog/utils/slug.util.ts:7-17 | no letter or digit of the decomposed lower-case text is lost, added or moved |
| Slug.EmptySlugIff | src/modules/catalog/utils/slug.util.ts:7-17 | the slug is empty exactly for texts without letters and digits |
| Slug.HyphenatedIsJoined | src/modules/catalog/utils/slug.util.ts:14-16 | the last three replacements join the letters and digits, with one hyphen for every gap between two of them |
| Slug.AsCommentedIff | src/modules/catalog/utils/slug.util.ts:13-14 | for all texts the slug is what the comment says, underscores made hyphens, exactly when nowhere in the cleaned text only underscores stand between two letters or digits |
| Slug.UnderscoresAreDropped | src/modules/catalog/utils/slug.util.ts:13-14 | of a text of letters, digits and underscores the underscores are dropped |
| Slug.UnderscoreExample | src/modules/catalog/utils/slug.util.ts:13-14 | a_b becomes ab |

## Left out

- Races between category moves, between unlinking calls and between cache fills and category writes: nothing in the
  code guards them, so those runs are serial and each service call is one step.
- CategoryTree.TreeOfForest: name order is an abstract relation, since the collation is the database's; description,
  image and time columns of a category are not modelled.
- CategoryReads.ReadsAreCurrent: Redis reachable, calls one at a time and the un-awaited set finished before the next step;
  the build function stands for the listing query followed by BuildTree, as GetCategoryTree runs them. Mutation of a tree
  object shared between the cache and its readers, and dates that come back from Redis as strings, are not modelled.
- CategoryReads.InvalidateCategoryCache: detail keys without a star, as the key builders make them; the order in which
  the deletions run does not matter to its result.
- CategoryService.Service.UpdateCategory: the ownership check follows the catalog helper's order; the returned
  relations are not modelled.
- RefreshSessions.RefreshesFormOneChain: signing and SHA-256 are injective on what a token says; device, address and
  last-use columns are not modelled.
- SignInMethods.AuthTables.Login: hashing is by contract (verification accepts exactly the hashed password);
  last-login and last-use columns and the default role are not modelled.
- SignInMethods.OpDescribed: verifying an e-mail by code is a step of the runs, without a method of its own.
- SignInMethods.AuthTables.ResetPassword: one-time codes live in Redis and are a given truth value here; mails, the
  outbox and the revocation of sessions are elsewhere (RevokeAllSessions models the revocation).
- AuthCache.Process.GetAuthContext: the part of a context that matters here is user, session, permissions and session
  expiry; the memory path does not look at session expiry, as in the code. Names of roles and profile fields are not
  modelled.
- AuthCache.Process.SetAuthContext: SET, SADD and EXPIRE are one step, although the pipeline is no transaction; memory is
  stamped at a time of its own, which the runs of AuthCache take to be the same and those of Permissions do not.
- Permissions.Server.ReplaceRolePermissions: identifiers arrive trimmed and told apart as uuid, with its spelling, or
  name; audit records are not modelled, and invalidations run one after another.
- Permissions.GrantedIsCurrent: Redis reachable and calls one at a time (AuthCache interleaves loads, stores and
  invalidations and lets Redis come and go); users do not become inactive, and sessions are not deleted, within a run.
- Permissions.LoggedOutRefusedIff: a profile read, which the code makes within a request accepted earlier, may come at any
  time. A socket that is open keeps its permissions until it closes; sockets are not modelled beyond the handshake.
- Permissions.RevocationBound: a refresh is one step, so that no access token is signed after a revocation for a refresh
  that was accepted before it; of a session's access tokens only the newest is modelled, which verifies longest.
- Renaming a role or a permission: cached role names go stale, which concerns no modelled result.
- CacheService.ReturnedIsRecent: a set stamps memory and writes Redis at one time; where Redis is written later, the bound
  grows by as much, and a set under way when another process invalidates counts as made afterwards.
- CacheService.CacheProcess.InvalidatePattern: patterns are a literal prefix and a star, the only kind the category
  services use; a full SCAN iteration is given by its contract.
- CacheService.CacheProcess.Del: one key without a star; lists of keys and the star keys that del hands to
  invalidatePattern are not modelled.
- Metrics.StatsInOrder: durations are reals, rounding to two decimals is any monotone function and the percentile
  index is computed exactly; floating-point rounding is not modelled.
- Metrics.MetricsService.RecordHttpRequest: upper-casing and route sanitizing are given functions.
- Realtime.DeliveredExactly: a Redis connection is FIFO, may drop what it carries and never sends it twice; a
  subscriber's queue is FIFO and closing drops it; rooms, sockets and a subscriber connection that reconnects are not
  modelled.
- CursorPagination.WalkEndsIff: limit is at least 1 (a limit of 0 gives empty pages without a cursor); JSON and UTF-8
  are given by the contract that an object with just an id is read back; the query is over one unchanging list.
- Templates.InterpolateIsSubstitute: converting a value to a string is done before; white space is any class that
  excludes word characters and braces.
- Slug.FixedPointsAreSlugs: lower-casing and decomposition are any functions that leave [a-z0-9-] alone; an underscore
  is not white space.
- Orders, payments, inventory, carts, brands, attributes, products, jobs and workers: not part of this model.
