# Credential lifecycle of the user service: a verified model

This project models how the user service of ReCasaOS creates its first administrator, issues and
withdraws sessions, replaces passwords, and guards the files its build trusts. It proves what
those parts promise over every input and over every interleaving of their steps.

`dafny verify dfyconfig.toml` checks everything.

## Layout

| modules | what they hold |
|---|---|
| `Basics`, `Text`, `Decimal`, `Base64` | values, minima, splitting and joining, canonical numbers, RFC 4648 base64 without padding |
| `Phc` | Argon2id verifiers as PHC text: printer, parser, hashing, verification |
| `Installation`, `Bootstrap` | installation ids, the seal file, the reconcile and administrator transactions, whole calls |
| `BootstrapRuns` | any number of bootstrap calls cut at every seal access and transaction, with crashes |
| `Accounts`, `VerifierRuns` | user rows; logins that upgrade a verifier racing with password changes |
| `Resets` | the two local password resets |
| `Lockout` | failure budgets, their arithmetic, and why deleting stale ones goes unnoticed |
| `Sessions`, `Pruning` | tokens, refresh rows, the denylist, and the prune statements |
| `SessionRuns` | logins, refreshes, access checks, logouts, prunes and account changes, cut at every statement |
| `Containment`, `Chains`, `Replays`, `Logout` | safety over every run of `SessionRuns` |
| `Progress` | that genuine logins, refreshes and requests succeed in every such run |
| `UserService` | the service as one object whose methods are proved against the statements above |
| `FrozenTrees` | validation and comparison of Git trees, and paginated fetching |

A statement or transaction is written once, as a function from old tables to new tables. The class
methods, which work as the Go code does, are proved to compute these functions. The state machines are built from
the same functions, so a theorem about runs is about what the methods do. What a function means is stated apart from it, row by row
and column by column, in the methods' contracts and in lemmas. A run is a sequence of states
and actions of any length; the theorems quantify over all of them.

## Assumptions

- A database transaction or single statement is one atomic step that commits or leaves no trace.
- The clock never goes backwards. A prune may carry an older clock reading, as a delayed call does.
- Token ids, salts and generated installation ids are fresh. Token ids are compared as numbers; the empty id is 0.
- SHA-256 is injective, so a stored digest is represented by the token it is the digest of. Signatures cannot be forged: a
  client can present only tokens the service handed out.
- Argon2id is ideal above the level of `Phc`: a verifier accepts exactly one plaintext (`Accounts.Verifier`).
- The daemon never creates users; registration always answers 410 (`route/v1/user.go:42`).
- Session runs start with empty session and denylist tables. Signing keys are made per process, so no token of an
  earlier process is presentable.
- The failure budget of a refresh is left out of `SessionRuns`: without it a run can only do more.
  `UserService.Service.IssueRefreshedTokens` has it.

## Where the code and its promises differ

- `service/session.go:171-172` says that either half of a logout alone still fails closed, and the revocation comment
  (`:255-256`) that rows are pruned once expired. The middleware validates the expiry, then reads the version, then reads the
  denylist. A request that stalls before the last read until its token has expired, and until a prune has dropped the revocation, is
  accepted although the token was logged out. `Logout.StalledRequestExample` is such a run. `Logout.StalledRequestSlipsThrough` shows
  that the token's expiry is the exact boundary, and `Logout.LoggedOutTokenIsRefused` proves permanence up to it.
- The denylist cap orders by expiry only. `Pruning.CapKeepsLasting` and `Pruning.CapMayEvict` give the exact
  condition under which a revocation survives every choice the database may make among equals; `Logout.CapMayRelease` shows
  the token released where it fails.
- The base64 decoder of Go skips CR and LF, so a verifier text with such a character inside its salt or digest parses, and
  is not the text its parts print (`Phc.LineBreakIsLost`). `Phc.ReprintParsed` has the exact condition.
- The lockout bounds hold for every call that is not made at Go's zero time, which the code reads as "no window"
  (`Lockout.ZeroClockNeverLocks`). The callers pass `time.Now()`, so this limits the statement and not the service.

## Model

| member | source | states |
|---|---|---|
| `BootstrapRuns.ExactlyOnce` | pkg/userbootstrap/bootstrap.go:58-245 | over every untampered interleaving with crashes, at most one administrator is committed, at most one caller is told so, and nobody is told that recovery is required or that sealing failed; from an empty table, its rows are always exactly the committed administrator |
| `BootstrapRuns.NextInv` | pkg/userbootstrap/bootstrap.go:58-245 | every seal access, transaction, crash, deletion and edit keeps the invariant that ties marker, seal, users and what each process still believes |
| `BootstrapRuns.SealFollowsMarker` | pkg/userbootstrap/bootstrap.go:149-154 | commit before seal: a present seal implies an initialized marker with the same id and an administrator; an untampered appliance is never locked |
| `BootstrapRuns.CrashIsRepaired` | pkg/userbootstrap/bootstrap.go:54-158 | one whole reconcile after any crash is no recovery, adds no user, keeps the id, and leaves a seal exactly if the marker is in service |
| `BootstrapRuns.RestoreCannotReopenSetup` | pkg/userbootstrap/bootstrap.go:85-143 | with a surviving seal and arbitrary database replacements, no step inserts a user, and a standing is reported only for the seal's own id, in service, with users |
| `BootstrapRuns.MarkerNeverMovesBack` | pkg/userbootstrap/bootstrap.go:102-143 | between replacements the status only advances, the id stays, and a locked marker stays exactly as it is |
| `BootstrapRuns.StepOnlyAdvances` | pkg/userbootstrap/bootstrap.go:102-143 | the same of one step, and that bootstrap changes no user row while the marker is locked |
| `BootstrapRuns.SealIsWriteOnce` | pkg/userbootstrap/file_seal.go:85-146 | a published seal never changes, whatever creations and database replacements run |
| `BootstrapRuns.StepKeepsSeal` | pkg/userbootstrap/file_seal.go:85-146 | a creation that succeeds leaves the seal equal to its argument |
| `BootstrapRuns.CreatedSealIsLoaded` | pkg/userbootstrap/file_seal.go:26-146 | after a successful creation every load reads its id, and no creation for another id succeeds |
| `BootstrapRuns.UsersNeverVanish` | pkg/userbootstrap/bootstrap.go:85-143 | a legacy installation with an administrator keeps one and never gains a row through setup |
| `BootstrapRuns.InServiceForever` | pkg/userbootstrap/bootstrap.go:125-136 | an installation in service stays in service under its id through every untampered run |
| `BootstrapRuns.RestartKeepsInstallation` | service/user.go:98-164 | through any deletions and edits an administrator remains and every restart reconciles to initialized with the original id |
| `BootstrapRuns.InsertCommitsExactly` | pkg/userbootstrap/bootstrap.go:177-235 | an insert step commits exactly over a pristine marker with the promised id and no users; then the row is the one asked for and the marker names and dates it; otherwise the database is untouched |
| `BootstrapRuns.UndisturbedReconcile` | pkg/userbootstrap/bootstrap.go:58-158 | from any world, the separate steps of a reconcile nobody disturbs end where the whole call promises: database, seal and answer |
| `BootstrapRuns.UndisturbedSetup` | pkg/userbootstrap/bootstrap.go:164-245 | while setup is open, an undisturbed request ends with its administrator created, the marker in service and the seal of the same id |
| `Bootstrap.Appliance.ReconcileState` | pkg/userbootstrap/bootstrap.go:58-158 | the whole call: unreadable seal, new marker, judgement, seal creation and answer; setup is open exactly with no seal, no user and a pristine or missing marker |
| `Bootstrap.Appliance.CreateAdmin` | pkg/userbootstrap/bootstrap.go:164-245 | succeeds exactly when setup is open; then the single row has the given name, the given verifier, role admin and version 0, the marker names and dates it, and the seal agrees; each refusal with its reason, leaving all user rows alone and writing nothing beyond its reconcile |
| `Bootstrap.Appliance.InsertAndSeal` | pkg/userbootstrap/bootstrap.go:177-244 | commits exactly over the promised pristine marker and no users, and then exactly the given name and verifier as administrator and the marker that names it; otherwise no trace; a failed seal afterwards keeps the commit |
| `Bootstrap.FileSeal.Load` | pkg/userbootstrap/file_seal.go:26-83 | absent, readable with a valid id, or refused |
| `Bootstrap.FileSeal.Create` | pkg/userbootstrap/file_seal.go:85-146 | when it succeeds, that success leaves the given id readable and an existing seal untouched, and the exact text of a new one |
| `Bootstrap.ReconcileOnlyAdvances` | pkg/userbootstrap/bootstrap.go:85-143 | the transaction never lowers the status, never touches users, never unlocks, and stores what it reports with the first user and the date of entering service |
| `Bootstrap.ReconcileConverges` | pkg/userbootstrap/bootstrap.go:54-158 | from any state at all, a second reconcile gives the same answer, asks for no seal and writes nothing |
| `Bootstrap.UnsealedPolicy` | pkg/userbootstrap/bootstrap.go:85-143 | without a seal: exactly what is locked, what is open for setup, what asks for a seal, and under which id |
| `Bootstrap.SealForbidsSetup` | pkg/userbootstrap/bootstrap.go:85-143 | with a seal nothing is pristine, and initialized exactly for the seal's own readable marker with users; the id reported is the readable marker's, or else the seal's |
| `Installation.NewInstallationId` | pkg/userbootstrap/bootstrap.go:335-344 | every generated id is a valid version-4 UUID spelling its stamped random bytes |
| `Installation.StampedIsVersionFour` | pkg/userbootstrap/bootstrap.go:335-353 | the version and variant bits always pass the validator |
| `Installation.StampKeepsTheRest` | pkg/userbootstrap/bootstrap.go:335-344 | the stamp overwrites the version and variant bits and keeps the other 122 |
| `Installation.ValidIds` | pkg/userbootstrap/bootstrap.go:346-353 | the validator character by character: dashes, hexadecimal digits, version, variant |
| `Installation.HexDigitsInOrder` | pkg/userbootstrap/bootstrap.go:335-344 | digits are written 0 to 9 and a to f |
| `Installation.HexTextInjective` | pkg/userbootstrap/bootstrap.go:335-344 | different bytes are spelled differently |
| `Installation.SealTextIsCanonical` | pkg/userbootstrap/file_seal.go:70-82 | a file reads as an id exactly when it is that id's published text, with or without the final line feed |
| `Resets.ResetPassword` | service/user.go:354-622 | exactly when a reset succeeds, in terms of name, password, marker and seal, and why it fails otherwise; a failing one leaves all user rows and sessions unchanged; after a successful one the only row of that name and role accepts exactly the new password, one version higher, nothing else of any row changed, exactly that user's sessions are gone, and marker and seal agree; a locked appliance is untouched |
| `Resets.StoreReset` | service/user.go:435-470 | the final transaction finds the target again; afterwards that row accepts exactly the new password, one version higher, and exactly its sessions are gone, or nothing changed |
| `Resets.Reconciled` | service/user.go:391-441 | the checks around the reconcile succeed exactly for a matching readable initialized marker or a legacy table without seal, and never lower the marker |
| `Resets.LoadUnique` | service/user.go:627-702 | the row scan finds the unique user of that name with the wanted role, and says why not otherwise |
| `Resets.TargetIsTheOnlyOne` | service/user.go:627-702 | the target is the only row of that name, of the role asked for; each refusal exactly for no row, several rows, or the other role |
| `Resets.SelectByName` | service/user.go:628-641 | the bounded query returns two different rows whenever two exist |
| `VerifierRuns.StoredVerifierMatchesLatestChange` | service/user.go:166-255 | in every interleaving, bumps included, a row accepts exactly the password of its latest committed change, and nothing while it holds a legacy value; its version has grown by one per commit and one per bump |
| `VerifierRuns.CommitReplacesOnePassword` | service/user.go:233-248 | a committed change makes exactly its password verify, raises that version by exactly one and leaves every other row alone |
| `VerifierRuns.UpgradeChangesNoPassword` | service/user.go:187-210 | a rehash at login never changes which plaintext verifies, nor any version |
| `VerifierRuns.LoginNeedsLatestPassword` | service/user.go:166-212 | a login succeeds only with the password of the latest committed change, even if its rehash lost a race |
| `VerifierRuns.RightPasswordIsNotRefused` | service/user.go:166-187 | in every run, the latest password of the first user of that name is let in, or on to the upgrade exactly if the parameters are not the current ones |
| `VerifierRuns.UpgradeSettles` | service/user.go:187-210 | an upgrade stores current parameters for the same password exactly if the verifier it read is still stored |
| `VerifierRuns.RereadSettles` | service/user.go:198-206 | after a lost race the login succeeds exactly with the password that is then the latest |
| `VerifierRuns.ChangeIsAdmitted` | service/user.go:214-232 | a change proceeds exactly with the latest password and an acceptable new one |
| `VerifierRuns.ChangeSettles` | service/user.go:237-248 | a change commits exactly if the verifier it read is still stored, and is then the latest password |
| `VerifierRuns.OneCommitPerVerifier` | service/user.go:237-248 | among changes that read the same verifier at most one ever commits |
| `VerifierRuns.RetiredForever` | service/user.go:187-248 | a replaced verifier never comes back |
| `VerifierRuns.NextInv` | service/user.go:98-255 | every read, swap, reset, version bump, deletion and profile update keeps the verifier invariant |
| `Accounts.DeleteKeepsAdmin` | service/user.go:98-154 | the deletion transaction never removes the last administrator |
| `Accounts.CountTellsOthers` | service/user.go:125-131 | counting administrators tells exactly whether there is another one |
| `Accounts.UpdateKeepsCredentials` | service/user.go:162-164 | a profile update changes no credential and no other row, and names stay unique |
| `Accounts.UpdatesKeepRoles` | service/user.go:162-255 | profile updates, verifier swaps and version bumps keep the rows and their roles |
| `Phc.ParsePrinted` | pkg/password/password.go:75-206 | parsing a printed verifier returns exactly its parameters, salt and digest |
| `Phc.ReprintParsed` | pkg/password/password.go:144-206 | a parsed text is reprinted identically if and only if its base64 fields hold no line break |
| `Phc.ReprintParts` | pkg/password/password.go:144-188 | what reprinting changes: only the line breaks in the two base64 fields |
| `Phc.ParseExactly` | pkg/password/password.go:144-206 | exactly which texts parse, and as what: those that are printed verifiers once line breaks are dropped from two fields |
| `Phc.DefaultText` | pkg/password/password.go:75-95 | the text of a verifier with the current parameters, letter by letter up to its salt |
| `Phc.OneSpelling` | pkg/password/password.go:144-206 | each verifier has one spelling without line breaks |
| `Phc.LineBreakIsLost` | pkg/password/password.go:167-174 | a line break in the salt parses to the same verifier and is not reprinted |
| `Phc.HashWithReader` | pkg/password/password.go:75-95 | a hash parses back to its parameters, the random salt and the derived key; refused exactly for parameters out of the stated bounds, and for short randomness |
| `Phc.PrintedVerifies` | pkg/password/password.go:98-137 | a printed verifier accepts exactly the plaintexts deriving its key, and needs a rehash exactly off the defaults |
| `Phc.UnparsedIsRefused` | pkg/password/password.go:98-137 | what does not parse verifies nothing and wants a rehash |
| `Base64.DecodeOfEncode` | pkg/password/password.go:86-94 | strict unpadded decoding undoes encoding (section 4 of RFC 4648) |
| `Base64.EncodeOfDecode` | pkg/password/password.go:167-174 | whatever decodes is canonical up to line breaks (section 3.5 of RFC 4648) |
| `Base64.SymbolsFollowTheTable` | pkg/password/password.go:86-94 | the symbols are those of table 1 of RFC 4648, in its order |
| `Base64.QuantumIsOneNumber` | pkg/password/password.go:86-94 | three bytes are written as the four base-64 digits of the number they make |
| `Base64.EncodeByQuanta` | pkg/password/password.go:86-94 | longer input goes three bytes at a time, and a short end as if zeros followed |
| `Decimal.ParsePrinted` | pkg/password/password.go:190-195 | printed numbers parse to themselves |
| `Decimal.PrintParsed` | pkg/password/password.go:190-195 | only the canonical decimal spelling of a number parses |
| `Lockout.KthFailureIsLate` | service/session.go:306-346 | the k-th counted failure of a window, k >= 5, comes at least (k-5)*15 minutes after its start, so k <= 9 |
| `Lockout.RunIsRateLimited` | service/session.go:287-346 | a run of failures lasting D counts at most 9*(floor(D/1h)+1) |
| `Lockout.WindowsSpreadOut` | service/session.go:328-333 | windows open at least an hour apart and bound what is counted |
| `Lockout.ActiveLockIsNeverExtended` | service/session.go:323-327 | any number of failures during a lock leave the row as it is, and each is told the remaining time |
| `Lockout.LockIsAtMostFifteenMinutes` | service/session.go:287-346 | no run of failures leaves more than 15 minutes to wait |
| `Lockout.FifthFailureLocks` | service/session.go:306-346 | of failures within an hour the first four leave the key open and the fifth locks it for 15 minutes, in row and answer |
| `Lockout.LaterFailures` | service/session.go:323-339 | after the hour a failure opens a new window; within it, after a lock, it locks again at once |
| `Lockout.FailureAnswersLikeNextCheck` | service/session.go:287-346 | a failure is answered as the next check would be |
| `Lockout.ZeroClockNeverLocks` | service/session.go:328-332 | at Go's zero time no number of failures locks |
| `Lockout.PruningIsUnobservable` | service/session.go:409-410 | for every sequence of timed calls, answers are the same with pruning and with every prune skipped |
| `Lockout.ThinStoreAnswersAlike` | service/session.go:287-346 | a store without its stale rows and one with them give identical answers forever |
| `Sessions.MintedTokenWindow` | pkg/authsecurity/session.go:67-144 | a minted token validates exactly as its own class, from minting to the end of its lifetime |
| `Sessions.MintedClaims` | pkg/authsecurity/session.go:67-90 | when a token can be minted, and every claim it carries, with lifetimes of three hours and seven days |
| `Sessions.RotationVerdicts` | service/session.go:82-122 | every verdict exactly when it is given: a live unused session rotates, a live used one is a replay of its owner, a revoked or expired one is invalid, a taken id or digest fails the store |
| `Sessions.UnknownIsInvalid` | service/session.go:90-93 | a token no row holds is invalid |
| `Sessions.RotationEffect` | service/session.go:104-121 | the presented row is consumed in favour of a live new row of the same user; no other row changes |
| `SessionRuns.NextInv` | service/session_issue.go:28-155 | every step keeps the invariant tying tokens, rows, denylist, pending pairs and the chain of replacements |
| `SessionRuns.RotationFacts` | service/session.go:82-139 | a committed rotation consumes the presented token's own live, unused row |
| `Containment.ReuseContainment` | service/session.go:82-148 | after a detected replay's revoke and bump, whatever ran between, old sessions never rotate, and a token accepted by a later version read was minted from a row read after the bump |
| `Containment.GenerationBarrier` | service/session.go:218-240 | every version bump cuts off all tokens minted from rows read before it |
| `Containment.RunWitnessed` | service/session_issue.go:28-119 | every token handed out carries the version of the user row at the recorded step that read it |
| `Containment.RevokedFamilyIsDead` | service/session.go:141-148 | no session stored at a family revocation ever rotates again |
| `Containment.DeadForever` | service/session.go:82-148 | a revoked or deleted session never becomes live again |
| `Containment.VersionsGrow` | service/session.go:218-240 | versions never decrease and users are never created |
| `Progress.LiveSessionRotates` | service/session.go:82-139 | in every run, a refresh that reaches its rotation with a stored unused, unrevoked, unexpired session rotates it, hands out the new pair and changes no other row |
| `Progress.ReplayStartsContainment` | service/session.go:99-134 | with a used one it hands out nothing and begins the containment of its owner |
| `Progress.ContainmentProceeds` | service/session.go:123-148 | containment revokes every session of the owner and then raises the version by one |
| `Progress.DeadSessionIsRefused` | service/session.go:96-98 | with a revoked or expired one nothing changes |
| `Progress.GenuineRefreshReachesRotation` | service/session_issue.go:47-95 | an issued, valid refresh token of the current generation always gets to its rotation, with a pair minted from the current row |
| `Progress.LoginSucceeds` | service/session_issue.go:28-43 | in every reachable state a stored user can log in; the session is live and the access token valid, current and not denied |
| `Progress.AccessPasses` | route/auth.go:59-70 | a valid issued access token of the current generation passes up to the denylist read |
| `Chains.RotationConservesSessions` | service/session.go:61-139 | `replaced_by` links form disjoint acyclic chains, each from one login to exactly one unconsumed end of the same user; every stored row carries exactly these links |
| `Chains.UnconsumedCountsLogins` | service/session.go:61-139 | the never-consumed sessions ever recorded are as many as the logins recorded |
| `Chains.NoTokenRotatesTwice` | service/session.go:96-126 | no session is consumed by two rotations, through prunes and resets |
| `Chains.ConsumedForever` | service/session.go:96-126 | a consumed session keeps its one replacement |
| `Logout.LoggedOutSessionNeverRotates` | service/session.go:162-180 | after the refresh half of a logout that session never rotates, and no other session changed |
| `Logout.LoggedOutTokenIsRefused` | service/session.go:257-283 | through any prunes, a logged-out token is refused up to its expiry, unless a cap in between finds more than 1024 of the user's revocations lasting as long |
| `Logout.StalledRequestSlipsThrough` | route/auth.go:59-74 | while a logged-out token's request waits at the denylist read, a prune lets it through if and only if the token has expired |
| `Logout.CapMayRelease` | service/session.go:415-420 | where that condition on caps fails, an admissible cap releases the token at once |
| `Logout.StalledRequestExample` | route/auth.go:59-74 | a run in which a token is accepted after its logout |
| `Pruning.PruneKeepsTheNewest` | service/session.go:398-421 | after a prune a user's rows are precisely the unexpired ones outranked by fewer than 256 by issue time and id |
| `Pruning.KeptOutrankDropped` | service/session.go:412-414 | every kept row was issued after every unexpired dropped row of its user, or at the same time under a greater id |
| `Pruning.DroppedMakesRoom` | service/session.go:412-414 | a user who loses an unexpired row keeps exactly 256 |
| `Pruning.NewestSurvives` | service/session.go:408-414 | a session newer than all others of its user survives |
| `Pruning.PruneKeepsReuseEvidence` | service/session.go:96-103 | a consumed, unrevoked, unexpired row outranked by fewer than 256 is still answered as reuse after a prune |
| `Replays.ReplayIsRecognized` | service/session.go:82-148 | over any run without such a cap or a reset of the owner, a consumed session presented again before it expires is answered as reuse, or as invalid exactly if it was revoked since |
| `Replays.ConsumedIsRemembered` | service/session.go:398-421 | through the same runs the consumed row stays as it is, except for being revoked |
| `Replays.OutrankedIsForgotten` | service/session.go:412-414 | a cap forgets a session outranked by 256 rows, so that its replay is merely invalid |
| `Pruning.TopIsRank` | service/session.go:412-420 | ordering and limiting keeps exactly the rows with fewer than k above them |
| `Pruning.TopSize` | service/session.go:412-420 | ordering and limiting keeps min(k, n) rows |
| `Pruning.CapKeepsLasting` | service/session.go:415-420 | a revocation with at most 1024 as long-lasting ones survives every admissible cap |
| `Pruning.CapMayEvict` | service/session.go:415-420 | with more, some admissible cap evicts it |
| `Pruning.CapMakesRoom` | service/session.go:415-420 | a user who loses a revocation to the cap keeps exactly 1024 |
| `Pruning.CapKeepsTheLatest` | service/session.go:415-420 | each kept revocation expires no earlier than each dropped one |
| `UserService.CappedIdsIsCap` | service/session.go:415-420 | the cap the service object computes is an admissible outcome of the statement |
| `UserService.RefreshKeysDiffer` | service/session.go:55-59 | refresh budgets of different users are different rows |
| `UserService.Service.CreateRefreshSession` | service/session.go:61-80 | records exactly the new, live row when id and digest are free, or changes nothing |
| `UserService.Service.RotateRefreshSession` | service/session.go:82-139 | each verdict with its whole effect; a session rotates exactly if it is live, unused and there is room, and the two rows it leaves, column by column; a replay revokes all of its owner's sessions and raises the version by one |
| `UserService.Service.RevokeAllUserSessions` | service/session.go:141-148 | every row of the user is revoked and no other row changes |
| `UserService.Service.BumpTokenVersion` | service/session.go:218-240 | exactly one more, for that user only, and the new value is returned |
| `UserService.Service.LogoutSession` | service/session.go:173-180 | exactly that session's row is revoked and exactly its token denied |
| `UserService.Service.LogoutAllSessions` | service/session.go:184-195 | the generation advances and all rows are revoked, or nothing changes |
| `UserService.Service.CheckAccess` | route/auth.go:59-74 | acceptance claim by claim: an intact access token inside its lifetime, the user's name and version as in the token, and no revocation |
| `UserService.Service.CheckLoginLockout` | service/session.go:287-302 | the answer is the specified check of the key's row |
| `UserService.Service.RecordLoginFailure` | service/session.go:306-346 | the step-by-step update is the specified failure, in row and answer |
| `UserService.Service.RecordLoginSuccess` | service/session.go:349-356 | only that key's budget is cleared |
| `UserService.Service.PruneAuthState` | service/session.go:403-421 | what is kept is unchanged and unexpired; a user who loses an unexpired session keeps exactly 256 newer ones, and one who loses a live revocation exactly 1024 expiring no earlier; budgets go exactly a day after their window began, if not locked |
| `UserService.Service.IssueSessionPair` | service/session_issue.go:130-155 | a pair sharing one id is issued exactly when it can be minted and its row recorded; otherwise nothing changes and the reason is told |
| `UserService.Service.IssueLoginSession` | service/session_issue.go:28-43 | exactly when a login succeeds, column by column; then the pair, every claim of it, its row, present if it is the user's newest, and all three tables pruned; a failure changes nothing and says why |
| `UserService.Service.MintAndRotate` | service/session_issue.go:75-108 | signing failure, rotation, replay, invalid session and store failure, each exactly when it happens and with its whole effect |
| `UserService.Service.IssueRefreshedTokens` | service/session_issue.go:47-119 | all eight outcomes, each exactly when it happens, with all four tables afterwards; success exactly for a genuine refresh, claim by claim and column by column; the two rows and the pair a success leaves |
| `UserService.Service.FinishRefresh` | service/session_issue.go:75-119 | the rest of a refresh once the generation agrees: every outcome with all four tables |
| `UserService.GenuineRotates` | service/session_issue.go:47-95 | a refresh rotates exactly if token, budget, user row and session row are all as they should be |
| `UserService.Service.DeleteUserById` | service/user.go:98-154 | refused exactly for an absent user and for the only administrator; else that row goes and no other, its sessions are revoked and an administrator remains |
| `UserService.Service.UpdateProfile` | service/user.go:162-164 | exactly the non-empty fields of one row are stored; nothing for an absent row or a name in use |
| `UserService.Service.AuthenticateUser` | service/user.go:166-212 | succeeds exactly for the first row of that name when it accepts the password, and returns that row; only its verifier and update time may change, to current parameters for the same password; no other row changes |
| `UserService.Service.ChangeUserPassword` | service/user.go:214-255 | exactly when it succeeds; then exactly the new password verifies, the version is one higher, nothing else of any row changes, and exactly that user's sessions are revoked |
| `FrozenTrees.ValidatedTree` | scripts/trusted_attestor.py:290-321 | accepts exactly the valid documents; every raw entry is carried over with its mode, type and object hash, and nothing else is |
| `FrozenTrees.ValidDocuments` | scripts/trusted_attestor.py:290-321 | which documents are valid, in terms of their raw fields |
| `FrozenTrees.EntryIsWellFormed` | scripts/trusted_attestor.py:297-320 | which raw entries are accepted, field by field |
| `FrozenTrees.ValidPaths` | scripts/trusted_attestor.py:300-308 | which paths are accepted; the checks for outer slashes follow from that for empty components |
| `FrozenTrees.Utf8Lengths` | scripts/trusted_attestor.py:302 | the encoded length of a path: additive, one byte for ASCII and two, three or four beyond |
| `FrozenTrees.FrozenPaths` | scripts/trusted_attestor.py:270-287 | which paths are frozen by the names of files and directories on them, said of the text alone |
| `FrozenTrees.ComponentsAreBetweenSlashes` | scripts/trusted_attestor.py:270-287 | a name is a component of a path exactly if it stands between slashes or the ends of the text |
| `FrozenTrees.CollectEntries` | scripts/trusted_attestor.py:295-321 | the loop accepts exactly well-formed entries with distinct paths |
| `FrozenTrees.TrustRootsAreFrozen` | scripts/trusted_attestor.py:92-134 | every required trust root is a frozen path |
| `FrozenTrees.GuardedChanges` | scripts/trusted_attestor.py:347-361 | an ascending list of exactly the guarded changes, empty exactly if the trees agree simply |
| `FrozenTrees.CompareFrozenTrees` | scripts/trusted_attestor.py:342-361 | from raw documents, refusing exactly invalid ones and those without trust roots; which paths are listed, in terms of the raw path, mode, type and hash of the entries on either side |
| `FrozenTrees.GuardedIsReported` | scripts/trusted_attestor.py:347-361 | a path in both documents is listed exactly if its entry differs and is frozen, executable, a link or of another type; a path in one exactly if it is frozen, executable or a link |
| `FrozenTrees.NoGuardedChange` | scripts/trusted_attestor.py:270-361 | no guarded change exactly if frozen parts and executable, symlink and gitlink entries are equal and no path changes type |
| `FrozenTrees.UnchangedTrustRoots` | scripts/trusted_attestor.py:328-361 | an empty comparison means every trust root is the same blob, of the required mode, in both trees |
| `FrozenTrees.PaginatedArray` | scripts/trusted_attestor.py:434-442 | for any server: there is a result exactly when a first short page lies within the limit and the pages together are not too large, and it is all pages up to that one |
| `FrozenTrees.FetchUnchanging` | scripts/trusted_attestor.py:434-442 | an unchanging list comes back whole if it has under 100 items per allowed page, and is refused otherwise |

## Left out

- HTTP handlers, routing, OpenAPI, the gateway, message bus and event service: plumbing around the modelled operations.
- Parsing of the authorization header, JWT text and JWKS: tokens are their claims.
- Real cryptography and its limits (`argon2Gate`, timing of unknown users, signing failures other than bad claims).
- Truncation of token times to whole seconds.
- SQLite and gorm: busy timeouts, lock errors, datetime text, migrations, and database errors in the middle of a call.
- The `created_at` and `updated_at` columns of the marker, `created_at` of users, revocation reasons, audit events and global rate limiters: no modelled decision reads them.
- File permissions, ownership, symlink checks, fsync and the temporary file of the seal: only its atomic publication is modelled.
- User ids given as text; they are numbers here.
- The blob and `go:generate` checks, event checks and API calls of the attestor.
- Resets.ResetPassword: models the migrated schema; tables or columns missing from a legacy database are not represented, except that a missing state table reads as a missing marker. The process runs alone, so its verifier swap always finds the verifier it read.
- UserService.Service.AuthenticateUser: the sequential call; the lost swap and the second read are in `VerifierRuns`.
- UserService.Service.ChangeUserPassword: the sequential call; the lost swap is in `VerifierRuns`.
- Bootstrap.Appliance.CreateAdmin: the sequential call; the refusal after another process's commit, with its second reconcile, is in `BootstrapRuns`.
- Logout.LoggedOutTokenIsRefused: promises refusal up to the token's expiry, because beyond it the code can accept (`Logout.StalledRequestExample`).
- SessionRuns.NextInv: a process is abandoned simply by never stepping again; a logout-all, reset or deletion appears as its separate statements, which may then occur in any order.
