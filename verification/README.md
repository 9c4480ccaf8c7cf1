# OpenPrivy custody core, in Dafny

This project models the part of the OpenPrivy backend (and of its mobile app) that moves, re-encrypts or
authorises the use of custodial wallet keys, and proves what that code promises.

| part | files |
|---|---|
| tables, ideal cryptography, the operations of social recovery, sign-in and wallet creation as functions | `Prelude`, `Encryption`, `Tables`, `Recovery`, `SignIn`, `WalletCreation`, `RotationRow` |
| the services as classes over one data source, each method proved to do what its function says | `RecoveryService`, `AuthService`, `KeyRotation` |
| the whole backend as one step system with any number of replicas, its invariants and its runs | `Custody`, `LifeCycle`, `Invariants`, `Steps`, `WalletSteps`, `Runs`, `Deadlines`, `RecoveryTheorems`, `WalletTheorems`, `WalletAccess`, `LeftBehind`, `LoadToCommit`, `Overlaps` |
| each operation in terms of the columns, fields and bytes it reads and writes, with no definition in between | `RecoveryRows`, `RotationRows`, `SignInRows`, `WalletRows`, `UserOpRows` |
| one whole recovery as a concrete run, and the failing cases reached from it | `Witness` |
| what a rotation run promises | `SortedIds`, `RotationPromises` |
| PKCE and the mobile sign-in handoff | `Pkce`, `MobileSignIn` |
| user operations and sanctions screening, byte by byte | `BigEndian`, `UserOpFormat`, `Paymaster`, `UserOpHash`, `Destinations`, `Sanctions`, `UserOps` |
| the app's base64url decoder with its overflowing accumulator | `Base64Url` |

`dafny verify dfyconfig.toml` checks everything.

## How the system is modelled

A state holds one clock that never goes back, the tables, where each worker stands inside `complete()`, and the
rows that rotation runs have read and not yet written. `complete()` is four separate steps (the conditional claim, the
load, the commit, the conditional hand-back), so any number of replicas can be anywhere in it; a commit may succeed and
still look like a failure to its worker, and a worker may stop at any point. Rotating a row is a read step and a
conditional write step. Every other operation is one atomic step.

Assumed, and nowhere proved:

- Cryptography is ideal. A per-user key is an injective function of master key and user id, a ciphertext opens under the
  key that sealed it and under no other, key ids and token hashes are injective, and fresh nonces, tokens, ids and states
  have not occurred before. Keccak is an arbitrary function, and the hash theorem names the pairs that would collide.
- `decide` is one atomic step: it runs in a transaction and locks its rows. `startRequest`, `addGuardian`, `cancelByToken`,
  `cancelForSignIn`, the logins, wallet creation and the expiry half of `sweep` read and then write without a second look
  in the code; they are atomic steps here. `Overlaps` separates the read of a WorkOS login from its save.
- A ballot is identified by its unique index (request, guardian). E-mail addresses and chain names are lower-cased as ASCII.
- The tables start with users and wallets but no guardian, request or ballot, honest key tags, and unique WorkOS identities.
- Sanctions screening of one operation happens at one instant.

## Where the code and its documents disagree

The model follows the code.

- The comment on `describeApproval` promises no side effects (`recovery.service.ts:291`). That holds exactly when the
  request is not overdue (`RecoveryTheorems.DescribePersistsIff`): looking at an overdue request closes it for good, because
  the expiry runs outside any transaction, while `decide` on the same request rolls the expiry back
  (`RecoveryTheorems.DecideRollsExpiryBack`).
- `docs/SOCIAL_RECOVERY_DESIGN.md` makes recovery available once enough guardians to meet the threshold have confirmed;
  the code requires three active guardians (`RecoveryTheorems.StartsIff`).
- The branch of `startRequest` that refuses a requester for being a guardian is never taken (`LeftBehind.VoteIsWinnable`).
- `screenAddress` says the list "has never synced" when there was no attempt yet or the latest one failed
  (`Sanctions.NeverSyncedIff`); the words are true exactly when the sync state holds no time of a last success
  (`Sanctions.NeverSyncedIsTrueIff`, `Sanctions.NeverSyncedMisleads`).
- The first WorkOS login of a new identity is meant to create a user. The users table has neither a generated id nor a
  default, and no id is set (`auth.service.ts:180-186`), so with the shipped schema the insert is refused; the id the
  database supplies, if any, is a parameter (`SignIn.NewIdentityNeedsId`).

## Promises that fail, and exactly when

- "Moves every wallet of the old account" holds if and only if, between the transaction's load and its commit, no wallet
  is created for the account and no other recovery moves one into it (`LoadToCommit.CommitMovesAllIffNoneAdded`). Otherwise
  the late wallet stays with the locked account (`LeftBehind.WalletLeftBehind`, and in a whole run
  `Witness.WalletIsLeftBehind`).
- "Safe to retire the previous keys", when a run says so, is true if and only if every software row that already carried
  the current key's tag was really sealed by that key (`RotationPromises.VerdictIsTrueIff`); a skipped row that was not is
  lost (`RotationPromises.DishonestTagMisleads`). Honest tags imply the condition (`RotationPromises.HonestTagsSuffice`), and
  the other services keep the tags honest in every run, so there retirement is safe and stays safe
  (`WalletTheorems.RetirementStaysSafe`).
- A row whose id is the all-zero uuid is never visited by a rotation, but does block the verdict
  (`RotationPromises.NilRowBlocksVerdict`).
- `setRecoveryEmail` loads a wallet row and saves it whole. For a row with key material the save is harmless exactly when
  nothing rewrote the row in between; for a row without, as HSM wallets have, exactly when its owner at the save is the
  owner it was loaded with (`WalletAccess.SaveIsHarmlessIff`). Across a completed recovery the save hands the wallet back to
  the locked account (`WalletAccess.SaveUndoesRecovery`, and in a whole run `Witness.StaleSaveHappens`).
- "A recovered account never signs in again" takes a login as one step. The code checks the lock on a row it loads and
  saves that row whole later: a login that found the account open reopens it if and only if a recovery of the account
  committed in between (`Overlaps.LoginReopensIff`, `Witness.StaleLoginHappens`). Without such an overlap every theorem about
  runs applies (`Overlaps.OverlapFreeTracesAreRuns`).
- "Accepted call data means a fresh list" holds for call data that makes at least one call; an empty batch is accepted
  whatever the list's state (`UserOps.AcceptedIff`, `UserOps.EmptyBatchIsNotScreened`).

## Model

| member | source | states |
|---|---|---|
| `Runs.QuorumIsExact` | services/backend/src/modules/social-recovery/recovery.service.ts:307-343 | In every reachable state of every run a request has at most `threshold` approvals, exactly that many iff its unlock time is set, one refusal iff it is declined and none otherwise; its ballots belong to guardians of the old account at distinct addresses, none the requester's |
| `RecoveryRows.QuorumIsMajority` | services/backend/src/modules/social-recovery/recovery.service.ts:23-25 | In every run each request was started, and its threshold is the smallest strict majority of the guardians of the account that were active at that moment |
| `Runs.VotersWereActive` | services/backend/src/modules/social-recovery/recovery.service.ts:214-240 | Every ballot that exists was created by the start of its request, for a guardian active at that moment |
| `Deadlines.VotesComeInTime` | services/backend/src/modules/social-recovery/recovery.service.ts:307-363 | Every ballot that was decided, in any run, was decided as it stands by a vote with the token mailed for that ballot, on a request awaiting approvals, within seven days of its creation |
| `Deadlines.WindowIsSevenDays` | services/backend/src/modules/social-recovery/recovery.service.ts:224-232 | In every reachable state a request's deadline is seven days after its creation |
| `Deadlines.ActiveGuardiansConfirmed` | services/backend/src/modules/social-recovery/recovery.service.ts:151-167 | Every active guardian was invited by the owner of the row at the row's address and confirmed with the token of that very invitation, within seven days of it |
| `Deadlines.EveryGuardianWasInvited` | services/backend/src/modules/social-recovery/recovery.service.ts:110-120 | Every guardian row comes from one invitation by its owner, with that invitation's token and deadline |
| `Runs.RequestsAreOrdered` | services/backend/src/modules/social-recovery/recovery.service.ts:185-211 | Of two requests against one account one was closed before the other was created, a day before if cancelled or declined; never two open, never two completed, and a completed one is the last |
| `Runs.ClosedForever` | services/backend/src/modules/social-recovery/recovery.service.ts:389-395 | Once a request is closed its row never changes again in any run |
| `Runs.RequestIdentity` | services/backend/src/modules/social-recovery/recovery.service.ts:223-233 | Parties, threshold, cancel token, deadline and creation time of a request never change |
| `Runs.MovesAtMostOnce` | services/backend/src/modules/social-recovery/recovery.service.ts:415-461 | Over a whole run, with any number of replicas, the wallets of one request move at most once |
| `Runs.OneHolder` | services/backend/src/modules/social-recovery/recovery.service.ts:415-422 | At any time at most one call of complete() is past its claim on a request |
| `Runs.HolderClaimed` | services/backend/src/modules/social-recovery/recovery.service.ts:416-422 | A worker inside complete() won the conditional update itself, when the request was due, and has held it ever since |
| `Runs.FallbackReleasesOwnClaim` | services/backend/src/modules/social-recovery/recovery.service.ts:455-460 | The failure path puts back only the claim its own worker took and still holds, and nobody else holds one |
| `Runs.UnlockWasVoted` | services/backend/src/modules/social-recovery/recovery.service.ts:324-329 | An unlock time was set by the one approval that brought the count from below the threshold to it, and lies one time lock after it |
| `Runs.Reachable` | services/backend/src/modules/social-recovery/recovery.service.ts:100-461 | Every invariant of tables, claims, keys and identities holds in every state of every run |
| `Runs.CommitIsClaimed` | services/backend/src/modules/social-recovery/recovery.service.ts:424-427 | A transaction that commits still finds its request claimed and unchanged since it loaded it |
| `RecoveryTheorems.WalletsMoveOnlyAfterTimeLock` | services/backend/src/modules/social-recovery/recovery.service.ts:307-452 | A wallet changes owner only when a request of its owner commits, a full time lock after the approval that met the threshold, and only if no cancel link, sign-in or decline had reached the request while it could be stopped |
| `RecoveryTheorems.OwnerChangesOnlyByCommit` | services/backend/src/modules/social-recovery/recovery.service.ts:425-452 | The step that changes a wallet's owner is the commit of a request of that owner, and the new owner is its requester |
| `RecoveryTheorems.ObjectionCloses` | services/backend/src/modules/social-recovery/recovery.service.ts:318-322 | A cancel link, a sign-in to the old account or a decline, when the request can be stopped, closes it as cancelled or declined |
| `RecoveryTheorems.ObjectionIsFinal` | services/backend/src/modules/social-recovery/recovery.service.ts:368-395 | A request that met such an objection never commits afterwards |
| `RecoveryTheorems.DescribePersistsIff` | services/backend/src/modules/social-recovery/recovery.service.ts:291-305 | Looking at an approval changes nothing iff its request is not overdue; an overdue request is closed as expired |
| `RecoveryTheorems.DecideRollsExpiryBack` | services/backend/src/modules/social-recovery/recovery.service.ts:311-312 | A vote on an overdue request leaves every table as it was |
| `Witness.OverdueLookCloses` | services/backend/src/modules/social-recovery/recovery.service.ts:358-361 | Concretely: an hour after the window of the request of that run, looking at a link closes the request |
| `RecoveryTheorems.StartsIff` | services/backend/src/modules/social-recovery/recovery.service.ts:185-211 | For a requester and account that may recover at all, a request starts iff there are three active guardians, no open request and no refusal within 24 hours |
| `RecoveryTheorems.CompleteIsAllOrNothing` | services/backend/src/modules/social-recovery/recovery.service.ts:415-461 | complete() reports success iff the request was time-locked and due, nothing failed and every key could be moved and verified; then every wallet moves with account and key kept, the old account is locked, its sessions end, its circle is emptied, the request is closed with the number of wallets, and nothing else changes; otherwise the database is as before |
| `RecoveryTheorems.CommitMovesAllIff` | services/backend/src/modules/social-recovery/recovery.service.ts:427-441 | With other replicas running, the transaction moves exactly the rows it loaded: the old account ends up empty iff those are all it owns at the commit |
| `LeftBehind.WalletLeftBehind` | services/backend/src/modules/social-recovery/recovery.service.ts:427-448 | Any run that has loaded an account without a polygon wallet can continue so that a wallet created before the commit stays with the locked account |
| `LoadToCommit.CommitMovesAllIffNoneAdded` | services/backend/src/modules/social-recovery/recovery.service.ts:427-441 | The old account is empty after a commit iff, between the load and the commit, no step created a wallet for it and no other commit moved one into it |
| `LoadToCommit.CommitWasLoaded` | services/backend/src/modules/social-recovery/recovery.service.ts:425-428 | Every commit has a load of the same worker before it, with nothing of that worker in between |
| `Witness.RecoveryHappens` | services/backend/src/modules/social-recovery/recovery.service.ts:100-461 | There is a run: three invitations, three confirmations, a start, two approvals, the time lock, claim, load and commit, in which a wallet changes owner with its key and the old account is locked |
| `Witness.WalletIsLeftBehind` | services/backend/src/modules/social-recovery/recovery.service.ts:427-448 | There is a whole run in which a wallet stays with the account its recovery locked |
| `RecoveryTheorems.NothingElseMoves` | services/backend/src/modules/social-recovery/recovery.service.ts:425-452 | A step that is not a commit moves no wallet and locks no account |
| `LeftBehind.VoteIsWinnable` | services/backend/src/modules/social-recovery/recovery.service.ts:201-219 | In every reachable state owners have at most five guardians at distinct addresses, a started request has at least `threshold` voters, and the requester-is-a-guardian branch is dead |
| `Invariants.RequesterNeverStarvesVote` | services/backend/src/modules/social-recovery/recovery.service.ts:213-219 | Given distinct addresses in a circle, excluding the requester leaves at least the threshold of voters, for every circle size; that the threshold is a majority is `RecoveryRows.StartedRows` |
| `Invariants.NewMember` | services/backend/src/modules/social-recovery/recovery.service.ts:106-108 | An invitation that passes the two checks keeps a circle at no more than five members with distinct addresses |
| `Invariants.StartKeepsInv` | services/backend/src/modules/social-recovery/recovery.service.ts:176-240 | Starting a request keeps every recovery invariant: quorum, order of requests, parties, voters, token uniqueness |
| `Invariants.VoteKeepsInv` | services/backend/src/modules/social-recovery/recovery.service.ts:311-342 | A vote, whatever its effect, keeps every recovery invariant |
| `LifeCycle.VoteHasEffect` | services/backend/src/modules/social-recovery/recovery.service.ts:307-343 | A call of decide does nothing, counts one approval below the threshold, reaches the threshold and starts the time lock, or refuses and closes; nothing else |
| `Steps.StepKeepsRecovery` | services/backend/src/modules/social-recovery/recovery.service.ts:100-461 | The recovery invariants hold after every step of any replica |
| `Steps.ClaimsKept` | services/backend/src/modules/social-recovery/recovery.service.ts:415-461 | After every step each worker past its claim works on a request that is still claimed, or completed if only the acknowledgement was lost, and no two workers on the same one; a claimed request may have no worker, after a crash |
| `Steps.StepKeepsUsers` | services/backend/src/modules/auth/auth.service.ts:173-190 | No step unbinds an identity, changes an e-mail or unlocks an account, and identities stay unique |
| `RecoveryRows.InvitedRows` | services/backend/src/modules/social-recovery/recovery.service.ts:100-120 | An invitation is written iff the owner exists, the address is not the owner's in any casing nor that of a pending or active guardian, and there are fewer than five; then one pending row, lower-case address, link for seven days |
| `Prelude.TrimTakesBlanks` | services/backend/src/modules/social-recovery/recovery.service.ts:101-101 | Trimming takes the blanks off both ends and nothing else |
| `RecoveryRows.FoundInvite` | services/backend/src/modules/social-recovery/recovery.service.ts:161-167 | A link finds a row iff it is well shaped and the row is pending, carries its hash and is not past its deadline |
| `RecoveryRows.ConfirmedRows` | services/backend/src/modules/social-recovery/recovery.service.ts:151-159 | Confirming activates exactly the row found and drops its link |
| `RecoveryRows.RemovedRows` | services/backend/src/modules/social-recovery/recovery.service.ts:135-142 | Removing works on exactly the caller's pending or active guardians |
| `RecoveryRows.LookupIff` | services/backend/src/modules/social-recovery/recovery.service.ts:192-195 | The account looked up is one with that address in lower case; none only if there is none |
| `RecoveryRows.StartsIffRows` | services/backend/src/modules/social-recovery/recovery.service.ts:182-219 | A request starts iff the requester exists, has no open request and no wallet, the account exists, is another and is open, has three active guardians, no open request and none cancelled or declined within a day |
| `RecoveryRows.StartedRows` | services/backend/src/modules/social-recovery/recovery.service.ts:213-240 | A start adds one awaiting row for seven days, with the smallest strict majority of the active guardians as threshold, and one ballot for each of them whose address is not the requester's; a request that does not start changes nothing |
| `RecoveryRows.FoundBallot` | services/backend/src/modules/social-recovery/recovery.service.ts:345-363 | A link opens its ballot while the request awaits approvals, is too late after the deadline, and opens nothing otherwise |
| `RecoveryRows.NoBallotFound` | services/backend/src/modules/social-recovery/recovery.service.ts:347-352 | An ill-shaped link, or one that no pending ballot carries, opens nothing |
| `RecoveryRows.VotedRows` | services/backend/src/modules/social-recovery/recovery.service.ts:311-342 | Decline, counted approval, approval that reaches the threshold with and without its mail: the rows each one writes and leaves |
| `RecoveryRows.CancelledRows` | services/backend/src/modules/social-recovery/recovery.service.ts:368-378 | The cancel link closes the stoppable request with its hash, withdraws its links, and touches nothing else |
| `RecoveryRows.UnknownCancelLink` | services/backend/src/modules/social-recovery/recovery.service.ts:369-374 | A cancel link that no request carries changes nothing |
| `RecoveryRows.SignedInRows` | services/backend/src/modules/social-recovery/recovery.service.ts:381-395 | A sign-in closes every awaiting or time-locked request against the account, withdraws their links, and touches nothing else |
| `RecoveryRows.ExpiredRows` | services/backend/src/modules/social-recovery/recovery.service.ts:401-402 | The first half of a sweep expires exactly the awaiting requests whose deadline has come |
| `RecoveryRows.ExpiredInTime` | services/backend/src/modules/social-recovery/recovery.service.ts:358-359 | In every run a request that expired did so at its deadline or later |
| `RecoveryRows.DueIff` | services/backend/src/modules/social-recovery/recovery.service.ts:416-422 | The claim succeeds iff the request is time-locked and its unlock time has come, and changes its status only |
| `Tables.KeyMatchesIff` | services/backend/src/common/encryption/key-rotation.ts:113-142 | A key is the key of an address iff the address derives from it, as an EVM address on one of the five EVM chains or a Solana one on Solana |
| `RecoveryRows.MovableIff` | services/backend/src/modules/social-recovery/recovery.service.ts:429-431 | A wallet can be moved iff it holds no software key, or a key that the ring opens for the old account and that is the key of its address |
| `RecoveryRows.MovedRowIs` | services/backend/src/modules/social-recovery/recovery.service.ts:432-439 | A moved software row holds the same key sealed for the new owner under the current master key, tagged with it; any other row changes its owner only |
| `RecoveryServices.RecoveryService.AddGuardian` | services/backend/src/modules/social-recovery/recovery.service.ts:100-120 | Reply and new table of an invitation, refusals included |
| `RecoveryServices.RecoveryService.FindInvite` | services/backend/src/modules/social-recovery/recovery.service.ts:161-167 | The pending, unexpired invitation of a well-shaped token, whichever matching row comes first |
| `RecoveryServices.RecoveryService.ConfirmInvite` | services/backend/src/modules/social-recovery/recovery.service.ts:151-159 | Confirms exactly what FindInvite finds and consumes the token |
| `RecoveryServices.RecoveryService.RemoveGuardian` | services/backend/src/modules/social-recovery/recovery.service.ts:135-142 | Removes a pending or active guardian of the caller and nothing else |
| `RecoveryServices.RecoveryService.StartRequest` | services/backend/src/modules/social-recovery/recovery.service.ts:176-240 | Each refusal, and on success the one new request with one ballot per voter |
| `RecoveryServices.RecoveryService.InsertRequest` | services/backend/src/modules/social-recovery/recovery.service.ts:223-240 | The loop inserts exactly one pending ballot for each voter |
| `RecoveryServices.RecoveryService.FindOpenApproval` | services/backend/src/modules/social-recovery/recovery.service.ts:345-363 | Open ballot, overdue request or nothing |
| `RecoveryServices.RecoveryService.DescribeApproval` | services/backend/src/modules/social-recovery/recovery.service.ts:292-305 | Looking at an overdue request persists its expiry |
| `RecoveryServices.RecoveryService.Decide` | services/backend/src/modules/social-recovery/recovery.service.ts:307-343 | The vote transaction with its rollbacks: an overdue request and a failed notification leave everything as it was |
| `RecoveryServices.RecoveryService.CloseEach` | services/backend/src/modules/social-recovery/recovery.service.ts:383-395 | Closing requests one by one closes exactly those and withdraws exactly their links |
| `RecoveryServices.RecoveryService.CancelByToken` | services/backend/src/modules/social-recovery/recovery.service.ts:368-378 | The cancel link closes the one stoppable request it names |
| `RecoveryServices.RecoveryService.CancelForSignIn` | services/backend/src/modules/social-recovery/recovery.service.ts:381-387 | A sign-in closes every stoppable request against the account |
| `RecoveryServices.RecoveryService.MoveWallets` | services/backend/src/modules/social-recovery/recovery.service.ts:428-441 | The loop moves all loaded wallets or fails if any one cannot be opened and verified |
| `RecoveryServices.RecoveryService.Complete` | services/backend/src/modules/social-recovery/recovery.service.ts:415-461 | Claim, transaction and fallback together do what the all-or-nothing function says |
| `RecoveryServices.RecoveryService.Sweep` | services/backend/src/modules/social-recovery/recovery.service.ts:400-407 | An awaiting request whose deadline has come is expired, a due one is tried once and is then completed or exactly as it was, every other row is untouched, and the count is the number completed |
| `WalletTheorems.KeySurvives` | services/backend/src/common/encryption/key-rotation.ts:74-89 | In every interleaving of rotation, recovery and wallet creation a wallet that held a key for its owner holds the same key for its current owner, still deriving its address, still readable by the fleet |
| `WalletTheorems.StaleRotationNeverLands` | services/backend/src/common/encryption/key-rotation.ts:82-90 | A rotation write based on a row whose ciphertext was rewritten since never lands |
| `WalletTheorems.RetirementIsSafe` | services/backend/src/common/encryption/key-rotation.ts:101-108 | Whenever no software wallet is left on another key, in any run, the current key alone opens each of them to the key it always held |
| `WalletTheorems.RetirementStaysSafe` | services/backend/src/common/encryption/key-rotation.ts:101-108 | Once none is left, and as long as every writer seals under the new key, none ever is again, and at every later state the current key alone opens every software wallet to the key it always held |
| `WalletSteps.ChangeKeepsKey` | services/backend/src/common/encryption/key-rotation.ts:74-89 | Neither kind of rewrite loses a key, changes an account or leaves a dishonest tag |
| `WalletSteps.NewNonces` | services/backend/src/common/encryption/encryption.service.ts:113-122 | A rewritten row carries a ciphertext nobody can have read before |
| `WalletSteps.CompletingAccountsDiffer` | services/backend/src/modules/social-recovery/recovery.service.ts:202-207 | Two requests being completed at once concern different accounts |
| `WalletSteps.StepKeepsWallets` | services/backend/src/modules/wallet/wallet.service.ts:82-100 | Honest tags, used nonces and the loads of running transactions survive every step |
| `WalletCreation.CreateWallet` | services/backend/src/modules/wallet/wallet.service.ts:32-156 | A created software wallet opens for its owner, derives its address and is honestly tagged; one user never gets a second wallet on a chain |
| `WalletRows.CreatedRows` | services/backend/src/modules/wallet/wallet.service.ts:32-156 | A wallet is created iff the user has none on that very chain and the mode supports the chain; the row of each mode, column by column |
| `WalletRows.ReleasedIff` | services/backend/src/modules/wallet/wallet.service.ts:238-256 | A key is released iff the wallet exists, is a software wallet of the asking user and the ring opens it for that user; it is what was sealed |
| `WalletAccess.KeyFollowsOwner` | services/backend/src/modules/wallet/wallet.service.ts:238-256 | After any run, the key is released to the owner of the moment, always the same key, and to nobody else |
| `WalletAccess.SaveIsHarmlessIff` | services/backend/src/modules/wallet/wallet.service.ts:212-216 | A whole-row save of a row loaded earlier leaves the table alone: with key material, iff nothing rewrote the row in between; without, iff the owner is the one loaded; and always if nothing rewrote it |
| `WalletAccess.SaveUndoesRecovery` | services/backend/src/modules/wallet/wallet.service.ts:212-216 | Across a completed recovery such a save returns the wallet to the locked account |
| `Witness.StaleSaveHappens` | services/backend/src/modules/wallet/wallet.service.ts:212-216 | There is a whole run in which a save across the commit gives the moved wallet back to the locked account |
| `Overlaps.OverlapFreeTracesAreRuns` | services/backend/src/modules/wallet/wallet.service.ts:212-216 | A trace with wallet saves and two-part logins, none overlapping a change of its row, has the states of a run of the step system |
| `KeyRotation.RotateWallets` | services/backend/src/common/encryption/key-rotation.ts:38-110 | For any batch size of at least one the run ends, visits each eligible row exactly once in id order although rows leave the query, leaves exactly the specified table and report, and counts as remaining the software rows of the final table not tagged with the current key |
| `RotationRows.TableAfter` | services/backend/src/common/encryption/key-rotation.ts:71-91 | Row by row: a software row with key material, id above nil and another tag is resealed and retagged iff the run applies, the ring opens it for its owner and it is the key of its address; every other row is as it was |
| `RotationRows.ReportIs` | services/backend/src/common/encryption/key-rotation.ts:48-56 | Every column of the report, counted on the tables before and after: scanned, rotated, each failure with its reason and in id order, remaining, and the verdict |
| `RotationRows.RemainingCount` | services/backend/src/common/encryption/key-rotation.ts:101-106 | Remaining is what was scanned after a dry run and what failed after an apply run, plus the nil row if it remains |
| `RotationRows.RotatedIs` | services/backend/src/common/encryption/key-rotation.ts:74-80 | One row is resealed, or fails as undecryptable or as not the key of its address, each iff it applies |
| `KeyRotation.NextBatch` | services/backend/src/common/encryption/key-rotation.ts:60-69 | A page is the first `batchSize` eligible rows past the last id, in ascending order: no more, and fewer only if there are no more |
| `KeyRotation.RotateOne` | services/backend/src/common/encryption/key-rotation.ts:72-96 | One row is rewritten only if it decrypts, matches its address and round-trips; otherwise it is reported and untouched |
| `KeyRotation.RotateBatch` | services/backend/src/common/encryption/key-rotation.ts:71-97 | A page advances the run by exactly its rows |
| `RotationPromises.ReportBalances` | services/backend/src/common/encryption/key-rotation.ts:58-99 | Scanned is rotated plus failed, each scanned row is one or the other, and failed rows are byte for byte unchanged |
| `RotationPromises.FailuresAreExact` | services/backend/src/common/encryption/key-rotation.ts:93-96 | The failure list holds exactly the rows that fail, each with its reason |
| `RotationPromises.ResumingIsHarmless` | services/backend/src/common/encryption/key-rotation.ts:35-37 | An apply run stopped after any rows and rerun ends, up to nonces, with the table of one uninterrupted run |
| `RotationPromises.SecondApplyIsIdle` | services/backend/src/common/encryption/key-rotation.ts:35-37 | A second full apply rotates nothing and rescans exactly the earlier failures, with the same reasons |
| `RotationPromises.DryRunThenApply` | services/backend/src/common/encryption/key-rotation.ts:82-91 | A dry run writes nothing and announces exactly what the apply run then does, whatever the batch sizes |
| `RotationPromises.VerdictMeans` | services/backend/src/common/encryption/key-rotation.ts:101-108 | The verdict is given iff the run applied and no software row, the nil id included, is left on another key |
| `RotationPromises.VerdictIsTrueIff` | services/backend/src/common/encryption/key-rotation.ts:65-65 | Given the verdict, every software wallet opens under the current key alone iff every row skipped for its tag was sealed by the current key for its owner |
| `RotationPromises.HonestTagsSuffice` | services/backend/src/common/encryption/key-rotation.ts:65-65 | Tables whose tags name the sealing keys meet that condition |
| `RotationPromises.SafeToRetire` | services/backend/src/common/encryption/key-rotation.ts:101-108 | When the verdict is true, the current key alone opens every software wallet to its earlier plaintext and every tag is honest |
| `RotationPromises.DishonestTagMisleads` | services/backend/src/common/encryption/key-rotation.ts:65-65 | Concretely: a row with a dishonest tag is skipped, the verdict is given, and the row is lost |
| `RotationPromises.NilRowBlocksVerdict` | services/backend/src/common/encryption/key-rotation.ts:58-62 | A row with the all-zero id is never visited, unchanged, and blocks the verdict |
| `Encryption.EncryptionService.Create` | services/backend/src/common/encryption/encryption.service.ts:38-56 | Startup succeeds iff every key has 32 bytes and the current key is not a previous one |
| `Encryption.EncryptionService.DecryptWithKeyId` | services/backend/src/common/encryption/encryption.service.ts:137-148 | The attempts in order return exactly the plaintext and key id of the ring key that sealed the text, in whatever order the keys stand |
| `Encryption.EncryptionService.DecryptWithCurrentKeyOnly` | services/backend/src/common/encryption/encryption.service.ts:151-158 | Agrees with decryption by a service that has only the current key |
| `WalletRows.OpensIff` | services/backend/src/common/encryption/encryption.service.ts:137-148 | A ciphertext opens to a plaintext and key id iff it was sealed from that plaintext for this user by that key of the ring |
| `Encryption.EncryptionService.ReencryptToCurrentKey` | services/backend/src/common/encryption/encryption.service.ts:165-171 | Succeeds iff the ring opens the text; the new text opens under the current key alone to the same plaintext |
| `SignInRows.SignsInAsIff` | services/backend/src/modules/auth/auth.service.ts:149-203 | A WorkOS login signs in as an existing account iff it is open and carries this identity, or nobody does, it carries none, and the profile is verified with its address; the rows then written, and none otherwise |
| `SignInRows.BoundOnlyByVerifiedOwner` | services/backend/src/modules/auth/auth.service.ts:156-176 | Over every run an existing account is bound to an identity only by a login with a verified profile at its own address, while it carried none and was open |
| `SignInRows.RefusedBecause` | services/backend/src/modules/auth/auth.service.ts:160-178 | Which refusal applies, iff |
| `SignInRows.NewAccountRows` | services/backend/src/modules/auth/auth.service.ts:180-202 | The row of a new account |
| `SignInRows.PasswordRows` | services/backend/src/modules/auth/auth.service.ts:94-131 | A password login succeeds iff the account exists and is open, and leaves its row as it is |
| `SignInRows.AcceptedIff` | services/backend/src/modules/auth/strategies/jwt.strategy.ts:34-44 | A token is accepted iff its account exists, is open, and did not end its sessions after the second the token was issued in |
| `AuthServices.AuthService.Match` | services/backend/src/modules/auth/auth.service.ts:152-178 | Identity first, then verified e-mail of an unlinked account, else new; the lock refuses both kinds of match |
| `AuthServices.AuthService.LoginWithWorkOs` | services/backend/src/modules/auth/auth.service.ts:149-203 | Row update, cancellation of open recoveries and minted token, or a refusal that changes nothing, also when a new row gets no id |
| `AuthServices.AuthService.Login` | services/backend/src/modules/auth/auth.service.ts:94-131 | The password path: unknown and locked accounts are refused and nothing changes |
| `SignIn.NewIdentityNeedsId` | services/backend/src/modules/auth/auth.service.ts:180-192 | A profile that matches no account signs in iff the database supplies an id for the new row; otherwise nothing changes |
| `Overlaps.LoginReopensIff` | services/backend/src/modules/auth/auth.service.ts:178-192 | A login that found the account open and saves its row later leaves a locked account open iff a recovery of it committed in between; the account is locked iff one did |
| `Witness.StaleLoginHappens` | services/backend/src/modules/auth/auth.service.ts:178-192 | There is a whole run in which a login across the commit opens the locked account again |
| `RecoveryTheorems.SignInLeavesNothingOpen` | services/backend/src/modules/auth/auth.service.ts:178-196 | A login that mints a token leaves no awaiting or time-locked request against that user, and the account was not locked |
| `RecoveryTheorems.PasswordLeavesNothingOpen` | services/backend/src/modules/auth/auth.service.ts:111-115 | The same for a password login |
| `RecoveryTheorems.IdentityIsStable` | services/backend/src/modules/auth/auth.service.ts:152-176 | Once a WorkOS identity signed in as a user, every later successful login with it returns that user |
| `RecoveryTheorems.UserForever` | services/backend/src/modules/auth/auth.service.ts:173-192 | A user's e-mail, bound identity and lock are for good over every run |
| `RecoveryTheorems.RecoveredAccountIsShut` | services/backend/src/modules/auth/strategies/jwt.strategy.ts:34-44 | After a recovery commits, no login to the old account, as one step, and no token for it is ever accepted again |
| `MobileSignIn.ReleasedIff` | services/backend/src/modules/auth/auth.controller.ts:94-179 | In every run an exchange releases a token iff a start, the first callback for its state in time, that callback's return and the first exchange of its code in time led here, with a verifier that matches the challenge of that start |
| `MobileSignIn.ReleaseProvesPossession` | services/backend/src/modules/auth/auth.controller.ts:29-35 | In every run a released token was minted in a chain of start, callback and return that led here, to 43 to 128 unreserved characters whose SHA-256 in base64url is the challenge of that start |
| `MobileSignIn.RedeemedIff` | services/backend/src/modules/auth/auth.controller.ts:169-178 | An exchange releases a token iff the code is stored and live with it, and the verifier is well shaped and digests to the challenge stored beside it |
| `MobileSignIn.OneDigestPerChallenge` | services/backend/src/modules/auth/auth.controller.ts:29-35 | Verifiers that redeem under one challenge have one digest |
| `MobileSignIn.ChallengeForIff` | services/backend/src/modules/auth/auth.controller.ts:100-108 | A callback is the app's iff its state is stored and live with a challenge |
| `MobileSignIn.RedeemedAtMostOnce` | services/backend/src/modules/auth/one-time-store.ts:37-46 | No two callbacks are served for one state, no two exchanges release for one code |
| `MobileSignIn.CodeRedeemedOnce` | services/backend/src/modules/auth/auth.controller.ts:169-178 | Any exchange that presents an issued code, right verifier or not, makes the code worthless |
| `MobileSignIn.AppSignsIn` | apps/mobile/src/lib/pkce.ts:6-21 | The app's own verifier and challenge, first and in time, always get the token |
| `MobileSignIn.StateOrigin` | services/backend/src/modules/auth/auth.controller.ts:149-158 | What lies under a state is the challenge of the start that handed the state out, with its deadline |
| `MobileSignIn.CodeOrigin` | services/backend/src/modules/auth/auth.controller.ts:107-116 | What lies under a code is the token of the callback that made it, bound to the challenge of the start before it |
| `MobileSignIn.KeysDiffer` | services/backend/src/modules/auth/auth.controller.ts:107-113 | State keys and code keys never meet, and each determines its state or code |
| `MobileSignIn.OneTimeStore.Put` | services/backend/src/modules/auth/one-time-store.ts:28-35 | Stores the value until its deadline |
| `MobileSignIn.OneTimeStore.Take` | services/backend/src/modules/auth/one-time-store.ts:37-46 | Always removes; returns the value iff it is not past its deadline |
| `MobileSignIn.AuthController.WorkosMobileStart` | services/backend/src/modules/auth/auth.controller.ts:149-159 | Accepts iff the challenge has the shape of a base64url SHA-256 |
| `MobileSignIn.AuthController.WorkosCallback` | services/backend/src/modules/auth/auth.controller.ts:94-141 | A live state leads to the app redirect or a failed login with the state used up; otherwise the browser path and its cookie check |
| `MobileSignIn.AuthController.WorkosMobileExchange` | services/backend/src/modules/auth/auth.controller.ts:169-179 | Uses up the code and releases its token iff the code is live and the verifier is well shaped with the stored challenge as digest |
| `Pkce.VerifierFromRandomBytes` | apps/mobile/src/lib/pkce.ts:13-21 | The characters of the first `length` usable bytes, or an error iff there are fewer |
| `Pkce.VerifierIsAccepted` | apps/mobile/src/lib/pkce.ts:12-21 | Whatever the random bytes, a verifier of 43 to 128 characters passes the server's check |
| `Pkce.EveryCharEquallyLikely` | apps/mobile/src/lib/pkce.ts:12-18 | Every verifier character comes from exactly three of the 198 accepted byte values |
| `Pkce.ChallengeAgrees` | apps/mobile/src/lib/pkce.ts:6-8 | Converting the padded base64 digest gives the server's base64url digest, for any byte string |
| `Pkce.ChallengeShape` | services/backend/src/modules/auth/auth.controller.ts:27-34 | The challenge of a 32-byte digest has the 43-character shape |
| `UserOpFormat.UnpackPacked` | services/backend/src/modules/account-abstraction/userop-format.ts:46-57 | Packing succeeds iff both numbers are uint128, and unpacking returns them |
| `UserOpFormat.PackUnpacked` | services/backend/src/modules/account-abstraction/userop-format.ts:46-57 | Unpacking succeeds iff there are 32 bytes, and packing returns them |
| `UserOpRows.WordLayout` | services/backend/src/modules/account-abstraction/userop-format.ts:46-57 | The high number stands in the first 16 bytes of the word, the low one in the last 16 |
| `UserOpRows.FirstByteLeads` | services/backend/src/modules/account-abstraction/userop-format.ts:50-56 | Numbers are written most significant byte first |
| `UserOpFormat.PaymasterRoundTrip` | services/backend/src/modules/account-abstraction/userop-format.ts:59-71 | Splitting a paymaster field of at least 52 bytes and packing the parts gives the field |
| `UserOpFormat.PaymasterFields` | services/backend/src/modules/account-abstraction/userop-format.ts:59-71 | Packing succeeds iff the address has 20 bytes and both limits fit; each part is found where the layout puts it |
| `UserOpFormat.ToRpcUserOp` | services/backend/src/modules/account-abstraction/userop-format.ts:73-104 | Filling the RPC object step by step gives the specified operation or the first error |
| `UserOpRows.RpcLayout` | services/backend/src/modules/account-abstraction/userop-format.ts:73-104 | Every RPC field of a well-formed operation, by the bytes it is taken from |
| `UserOpRows.WellFormedIff` | services/backend/src/modules/account-abstraction/userop-format.ts:88-97 | Which operations can be converted, by their lengths and signs |
| `UserOpRows.PackedLayout` | services/backend/src/modules/account-abstraction/userop-format.ts:106-125 | Which RPC operations can be packed, and the bytes every field is written to; omitted limits are 0, omitted data empty |
| `UserOpFormat.PackedRoundTrip` | services/backend/src/modules/account-abstraction/userop-format.ts:73-125 | Converting to RPC succeeds iff the operation is well formed, and converting back gives the operation |
| `UserOpFormat.RpcRoundTripIff` | services/backend/src/modules/account-abstraction/userop-format.ts:73-125 | The other way round the operation comes back iff it was canonical |
| `UserOpFormat.DefaultsAreFilled` | services/backend/src/modules/account-abstraction/userop-format.ts:106-125 | An RPC operation with omitted fields comes back with the defaults filled in |
| `Paymaster.MergesIff` | services/backend/src/modules/account-abstraction/paymaster.service.ts:47-65 | A sponsorship merges iff it names an address, the operation has its limits word and every given limit fits |
| `Paymaster.MergedUnpacks` | services/backend/src/modules/account-abstraction/paymaster.service.ts:47-65 | Unpacking the merged operation gives exactly the paymaster's fields, its limits where given, the caller's elsewhere, and every other field unchanged, whatever paymaster field the caller had |
| `Paymaster.MaxGasCostIsTight` | services/backend/src/modules/account-abstraction/paymaster.service.ts:99-108 | The figure is the least upper bound of the cost of any usage within the limits at any price up to the maximum |
| `UserOpRows.MaxGasCostIs` | services/backend/src/modules/account-abstraction/paymaster.service.ts:99-108 | The figure, from the bytes of the operation; a paymaster field without a whole header counts nothing |
| `UserOpHash.SignatureIsNotHashed` | services/backend/src/modules/account-abstraction/userop.service.ts:200-220 | The hash ignores the signature |
| `UserOpHash.HashDetermines` | services/backend/src/modules/account-abstraction/userop.service.ts:200-220 | Equal hashes mean equal entry point, chain and every field but the signature, or one of five named pairs is a keccak collision |
| `UserOpRows.PreimageLayout` | services/backend/src/modules/account-abstraction/userop.service.ts:203-215 | The eight hashed words, each in its place |
| `UserOpRows.EncodableIff` | services/backend/src/modules/account-abstraction/userop.service.ts:203-215 | Which operations the ABI coder can encode, by lengths and ranges |
| `UserOpRows.HashLayout` | services/backend/src/modules/account-abstraction/userop.service.ts:217-219 | The digest of those, the entry point and the chain, in that order, and when there is a hash at all |
| `UserOpHash.PreimageInjective` | services/backend/src/modules/account-abstraction/userop.service.ts:203-215 | The encoding of the eight words determines each fixed-size field and each digest |
| `UserOps.UserOpService.BuildUserOp` | services/backend/src/modules/account-abstraction/userop.service.ts:51-93 | Succeeds iff target, screening, limits, sponsorship and encoding allow; returns the planned operation, unsigned, with the hash of what it returns; given that decoding undoes the encoding of execute, the target and the parties of its inner call are clear |
| `UserOpRows.DummyHasLength` | services/backend/src/modules/account-abstraction/userop-format.ts:36-41 | The placeholder signature has 65 bytes |
| `UserOpRows.UnsponsoredPlan` | services/backend/src/modules/account-abstraction/userop.service.ts:62-88 | Each field of an operation that is not sponsored, and when it can be built |
| `UserOpRows.SponsoredPlan` | services/backend/src/modules/account-abstraction/userop.service.ts:84-87 | When a sponsored operation can be built, and each of its fields: the sponsor's bytes and limits over the caller's own |
| `UserOps.UserOpService.Assemble` | services/backend/src/modules/account-abstraction/userop.service.ts:64-92 | Sponsorship is merged before the hash is taken; a sponsored operation comes out well formed |
| `UserOps.ExecuteIsClearIff` | services/backend/src/modules/account-abstraction/userop.service.ts:59-60 | An execute call is accepted iff its target and the parties of its inner call are clear |
| `UserOps.RowBlocksOneAddress` | services/backend/src/modules/compliance/sanctions.service.ts:78-79 | One row of the list blocks at most one 20-byte address, however it spells it |
| `UserOps.UserOpService.SponsorUserOp` | services/backend/src/modules/account-abstraction/paymaster.service.ts:26-44 | The sponsor is asked only about a well-formed operation, and its answer is merged |
| `UserOps.UserOpService.AssertNotSanctioned` | services/backend/src/modules/account-abstraction/userop.service.ts:164-178 | Accepts iff the call data can be read and every destination is clear; a refusal names a destination that is not |
| `UserOps.AcceptedIff` | services/backend/src/modules/account-abstraction/userop.service.ts:164-178 | After any history of syncs, accepted iff readable and, if it makes any call, the latest sync succeeded, is fresh and names no destination |
| `UserOps.EmptyBatchIsNotScreened` | services/backend/src/modules/account-abstraction/userop.service.ts:171-171 | Concretely: an empty batch passes although no list was ever synced |
| `Destinations.ExtractDestinations` | services/backend/src/modules/account-abstraction/userop-format.ts:143-169 | Exactly the call targets and token parties, each once, first target first; an error iff something cannot be read, a batch with too few data included |
| `UserOpRows.DestinationIff` | services/backend/src/modules/account-abstraction/userop-format.ts:146-167 | An address is a destination iff it is a target, or recipient, spender or source of the token call made there |
| `UserOpRows.ScreenableIff` | services/backend/src/modules/account-abstraction/userop-format.ts:143-155 | Call data can be screened iff they are an execute or a batch with data for every target, all decodable |
| `UserOpRows.TextIsHex` | services/backend/src/modules/account-abstraction/userop.service.ts:171-172 | An address is screened as 0x and two lower-case hex digits a byte |
| `Destinations.AddCall` | services/backend/src/modules/account-abstraction/userop-format.ts:157-167 | One call adds its target and its ERC-20 parties and nothing else |
| `Sanctions.ClearIff` | services/backend/src/modules/compliance/sanctions.service.ts:60-89 | After any history of syncs an address is clear iff the latest attempt succeeded, is within the staleness bound, and its rows do not name the address |
| `UserOpRows.VerdictIs` | services/backend/src/modules/compliance/sanctions.service.ts:60-89 | Each of the four answers, after any history of syncs, iff |
| `UserOpRows.AddressColumns` | services/backend/src/modules/compliance/sanctions.service.ts:138-149 | The columns in which an address is looked for, in order; blank ones are passed over |
| `UserOpRows.EntryForEachRow` | services/backend/src/modules/compliance/sanctions.service.ts:146-160 | One stored entry for each row with an address |
| `Prelude.LowerIgnoresCase` | services/backend/src/modules/compliance/sanctions.service.ts:78-79 | Lower-casing identifies exactly the texts that differ in the case of letters |
| `Sanctions.NeverSyncedIff` | services/backend/src/modules/compliance/sanctions.service.ts:63-68 | Screening answers "never synced" iff there was no attempt or the latest one failed |
| `Sanctions.NeverSyncedIsTrueIff` | services/backend/src/modules/compliance/sanctions.service.ts:63-68 | When it does, no attempt ever succeeded iff the state holds no time of a last success |
| `Sanctions.NeverSyncedMisleads` | services/backend/src/modules/compliance/sanctions.service.ts:63-68 | Concretely: after one success and one failure the answer is "never synced" |
| `Sanctions.FailuresKeepTheList` | services/backend/src/modules/compliance/sanctions.service.ts:198-220 | Failed attempts lose neither the list, nor its count, nor the time of the last success; the state row exists iff there was an attempt, and its status is that of the latest one |
| `Sanctions.EntriesNameTheRows` | services/backend/src/modules/compliance/sanctions.service.ts:147-158 | The stored entries list exactly the addresses the rows name, in any casing |
| `Sanctions.ParseRows` | services/backend/src/modules/compliance/sanctions.service.ts:146-160 | The loop keeps exactly the rows with an address, in order |
| `Sanctions.SanctionsService.ScreenAddress` | services/backend/src/modules/compliance/sanctions.service.ts:60-89 | Never synced, stale, listed or clear |
| `Sanctions.SanctionsService.GetStatus` | services/backend/src/modules/compliance/sanctions.service.ts:91-122 | `isStale` says exactly whether screening refuses every address for want of a fresh list |
| `Sanctions.SanctionsService.SyncFromRows` | services/backend/src/modules/compliance/sanctions.service.ts:169-196 | Replaces the whole list and records the success |
| `Sanctions.SanctionsService.FetchAndSync` | services/backend/src/modules/compliance/sanctions.service.ts:200-220 | A failure changes the status and nothing else; the first one creates the state row |
| `Base64Url.DecodeBase64Url` | apps/mobile/src/lib/token.ts:20-37 | Succeeds iff every character before the first '=' is in either alphabet; returns the whole bytes of the unbounded base-64 number, although the accumulator wraps at 32 bits |
| `Base64Url.AccumulatedProgress` | apps/mobile/src/lib/token.ts:26-35 | After any text the wrapped accumulator is congruent to the unbounded number and the bytes cut off are its leading bytes |
| `Base64Url.TakeByteCongruent` | apps/mobile/src/lib/token.ts:34-34 | The byte cut from the wrapped value is the byte of the unbounded one |
| `Base64Url.DecodesEncoding` | apps/mobile/src/lib/token.ts:20-37 | Decoding the unpadded base64url of any byte string, of any length, gives the byte string |
| `Base64Url.DecodeOfEncoding` | apps/mobile/src/lib/token.ts:20-37 | The decoder itself, run on the encoding of any byte string, returns it |
| `Base64Url.TestVectors` | apps/mobile/src/lib/token.ts:20-37 | The vectors of section 10 of RFC 4648 without padding, and one with the two characters of section 5 |
| `Base64Url.EncodeInjective` | apps/mobile/src/lib/token.ts:20-37 | Different byte strings have different texts |
| `Base64Url.Shape43Iff` | services/backend/src/modules/auth/auth.controller.ts:27-27 | The 43-character shape is any 43 characters of the encoding's alphabet |
| `Base64Url.DecodingIsUnique` | apps/mobile/src/lib/token.ts:20-37 | A text has at most one decoding, so the number and the length determine the bytes |

## Left out

- Real cryptography: AES-GCM, PBKDF2, SHA-256, keccak, ECDSA and Ed25519 are ideal or arbitrary functions.
- The `iv:tag:ciphertext` text format: a stored value is something `encrypt` produced or text that no key opens.
- HSM signing and PKCS#11: an HSM wallet is a row without key material that recovery moves by owner only.
- E-mails, audit rows, logging, HTTP statuses and dependency injection; only whether the mail of a vote that meets the
  threshold could be sent is modelled, because a failure rolls the vote back.
- SQL beyond rows that match a predicate and affected counts; display names, user names and creation order.
- Progress after a worker stops inside `complete()`: nothing picks that status up again, and no theorem says otherwise.
- A removed guardian's outstanding vote stays valid, and a locked account may receive wallets through another recovery that
  was already open; the model allows both and claims neither.
- `currentRequest`: it calls `complete`, which the step system may do at any time for any request.
- `setRecoveryEmail` and the two halves of a WorkOS login are no steps of the step system: `Overlaps.OverlapFreeTracesAreRuns`
  carries the theorems over to traces in which no whole-row save overlaps a change of its row, and `WalletAccess` and
  `Overlaps` say what an overlapping save does.
- `KeyRotation.RotateWallets`: nothing else writes while it runs; rotation beside other writers is in `WalletTheorems`, row by row.
- RecoveryServices.RecoveryService.Sweep: nothing else writes while it runs; interleaved completion is in `Runs`.
- Sign-up, the password check of the identity provider, the WorkOS code exchange and the signature of session tokens.
- The Redis variant of the one-time store, which sets with NX and expires on the server; the in-process map is modelled.
- JSON serialisation of a stored token and challenge: the pair is stored as a pair.
- The cookie attributes of the browser sign-in and `codeFromRedirect`.
- ABI encoding of calls and decoding of call data: decoded calls are inputs, and the coder and decoder of `execute`
  are arbitrary functions, related only where a contract says so.
- Checksum casing of addresses: they are 20-byte strings, written in lower-case hex for screening.
- CSV syntax: parsed rows are inputs; currency, program and entity number columns are not modelled.
- The nonce, gas price and gas estimate of a user operation, and the sponsor's answer, are inputs.
- The UTF-8 step and JSON parsing after base64url decoding.
- Rate limiting, bundler and RPC calls, the DeFi and monitoring modules, and all screens.
