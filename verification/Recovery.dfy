/**
 * Social recovery, operation by operation, as functions from tables to tables. `now` is the instant
 * an operation runs at; freshly drawn ids, tokens and nonces are arguments.
 */
module Recovery {
  import opened Prelude
  import opened Encryption
  import opened Tables

  const MIN_GUARDIANS := 3
  const MAX_GUARDIANS := 5
  const HOUR := 3_600_000
  const INVITE_TTL_MS := 7 * 24 * HOUR
  const APPROVAL_WINDOW_MS := 7 * 24 * HOUR
  const COOLDOWN_MS := 24 * HOUR

  function ThresholdFor(activeGuardians: nat): nat {
    activeGuardians / 2 + 1
  }

  // ------------------------------------------------------------------ guardians

  /** The pending and active guardians of one owner. */
  function Circle(guardians: map<GuardianId, Guardian>, owner: UserId): set<GuardianId> {
    set g | g in guardians && guardians[g].ownerUserId == owner && guardians[g].status != Removed
  }

  function ActiveGuardians(guardians: map<GuardianId, Guardian>, owner: UserId): set<GuardianId> {
    set g | g in guardians && guardians[g].ownerUserId == owner && guardians[g].status == Active
  }

  datatype GuardianReply = OwnerNotFound | OwnGuardian | AlreadyGuardian | TooManyGuardians | Invited

  ghost function AddGuardianReply(db: Db, owner: UserId, rawEmail: string): GuardianReply {
    var email := Lower(Trim(rawEmail));
    if owner !in db.users then OwnerNotFound
    else if email == Lower(db.users[owner].email) then OwnGuardian
    else if exists g :: g in Circle(db.guardians, owner) && db.guardians[g].email == email then AlreadyGuardian
    else if |Circle(db.guardians, owner)| >= MAX_GUARDIANS then TooManyGuardians
    else Invited
  }

  ghost function AddGuardian(db: Db, now: Time, owner: UserId, rawEmail: string, id: GuardianId, token: Token): Db {
    if AddGuardianReply(db, owner, rawEmail) != Invited then db else
    db.(guardians := db.guardians[id := Guardian(owner, Lower(Trim(rawEmail)), PendingInvite,
                                                 Some(Sha256(token)), Some(now + INVITE_TTL_MS), None)])
  }

  ghost predicate IsInvite(guardians: map<GuardianId, Guardian>, token: Token, g: GuardianId) {
    g in guardians && guardians[g].inviteTokenHash == Some(Sha256(token)) && guardians[g].status == PendingInvite
  }

  ghost function FindInvite(db: Db, now: Time, token: Token): Option<GuardianId> {
    if IsBase64Url43(token) && exists g :: IsInvite(db.guardians, token, g) then
      var g :| IsInvite(db.guardians, token, g);
      if db.guardians[g].inviteExpiresAt.None? || db.guardians[g].inviteExpiresAt.value < now then None else Some(g)
    else None
  }

  ghost function ConfirmInvite(db: Db, now: Time, token: Token): Db {
    match FindInvite(db, now, token)
    case None => db
    case Some(g) =>
      db.(guardians := db.guardians[g := db.guardians[g].(status := Active, confirmedAt := Some(now), inviteTokenHash := None)])
  }

  ghost function RemoveGuardian(db: Db, owner: UserId, g: GuardianId): Db {
    if g in Circle(db.guardians, owner)
    then db.(guardians := db.guardians[g := db.guardians[g].(status := Removed, inviteTokenHash := None)])
    else db
  }

  // ------------------------------------------------------------------ starting a request

  /** What the LOWER(email) query may return: some matching user, or none when there is none. */
  ghost predicate IsAccountLookup(users: map<UserId, User>, email: string, found: Option<UserId>) {
    match found
    case Some(u) => u in users && Lower(users[u].email) == email
    case None => forall u :: u in users ==> Lower(users[u].email) != email
  }

  ghost predicate HasOpenRequestFor(db: Db, newUser: UserId) {
    exists r :: r in db.requests && db.requests[r].newUserId == newUser && db.requests[r].status.IsOpen()
  }

  ghost predicate HasOpenRequestAgainst(db: Db, oldUser: UserId) {
    exists r :: r in db.requests && db.requests[r].oldUserId == oldUser && db.requests[r].status.IsOpen()
  }

  /** A request against this account was cancelled or declined less than 24 hours ago. */
  ghost predicate InCooldown(db: Db, now: Time, oldUser: UserId) {
    exists r :: r in db.requests && db.requests[r].oldUserId == oldUser
                && (db.requests[r].status == Cancelled || db.requests[r].status == Declined)
                && db.requests[r].closedAt.Some? && db.requests[r].closedAt.value > now - COOLDOWN_MS
  }

  ghost predicate OwnsWallet(db: Db, user: UserId) {
    exists w :: w in db.wallets && db.wallets[w].userId == user
  }

  datatype StartReply =
    | RequesterNotFound
    | AlreadyRecovering
    | RequesterHasWallets
    | NoEligibleAccount
    | NotEligibleNow
    | RequesterIsGuardian
    | Started(oldUserId: UserId, voters: set<GuardianId>, threshold: nat)

  function Voters(db: Db, oldUser: UserId, newUser: UserId): set<GuardianId>
    requires newUser in db.users
  {
    set g | g in ActiveGuardians(db.guardians, oldUser) && db.guardians[g].email != Lower(db.users[newUser].email)
  }

  ghost function StartRequestReply(db: Db, now: Time, newUser: UserId, found: Option<UserId>): StartReply {
    if newUser !in db.users then RequesterNotFound
    else if HasOpenRequestFor(db, newUser) then AlreadyRecovering
    else if OwnsWallet(db, newUser) then RequesterHasWallets
    else if found.None? || found.value !in db.users || found.value == newUser || db.users[found.value].lockedAt.Some?
    then NoEligibleAccount
    else
      var oldUser := found.value;
      var active := ActiveGuardians(db.guardians, oldUser);
      if |active| < MIN_GUARDIANS || HasOpenRequestAgainst(db, oldUser) || InCooldown(db, now, oldUser)
      then NotEligibleNow
      else
        var voters := Voters(db, oldUser, newUser);
        if |voters| < ThresholdFor(|active|) then RequesterIsGuardian
        else Started(oldUser, voters, ThresholdFor(|active|))
  }

  /** One pending ballot for each voter of request `rid`. */
  ghost function NewBallots(rid: RequestId, voters: set<GuardianId>, tokens: GuardianId -> Token): map<Ballot, Approval> {
    map b | b in (set g | g in voters :: Ballot(rid, g)) :: Approval(Some(Sha256(tokens(b.guardianId))), Pending, None)
  }

  ghost function StartRequest(db: Db, now: Time, newUser: UserId, found: Option<UserId>,
                              rid: RequestId, cancelToken: Token, tokens: GuardianId -> Token): Db
  {
    match StartRequestReply(db, now, newUser, found)
    case Started(oldUser, voters, threshold) =>
      WithRequest(db, rid, Request(oldUser, newUser, AwaitingApprovals, threshold, Sha256(cancelToken),
                                   now + APPROVAL_WINDOW_MS, None, None, None, now),
                  voters, tokens)
    case _ => db
  }

  /** One transaction inserts the request and a ballot for each voter. */
  ghost function WithRequest(db: Db, rid: RequestId, row: Request, voters: set<GuardianId>, tokens: GuardianId -> Token): Db {
    db.(requests := db.requests[rid := row], approvals := db.approvals + NewBallots(rid, voters, tokens))
  }

  // ------------------------------------------------------------------ closing

  function ClearTokens(approvals: map<Ballot, Approval>, closed: set<RequestId>): map<Ballot, Approval> {
    map b | b in approvals ::
      if b.requestId in closed then approvals[b].(tokenHash := None) else approvals[b]
  }

  function ClosedRow(r: Request, status: Status, reason: ClosedReason, now: Time): Request {
    r.(status := status, closedAt := Some(now), closedReason := Some(reason))
  }

  function CloseAll(db: Db, closed: set<RequestId>, status: Status, reason: ClosedReason, now: Time): Db {
    db.(requests := map r | r in db.requests ::
                      if r in closed then ClosedRow(db.requests[r], status, reason, now) else db.requests[r],
        approvals := ClearTokens(db.approvals, closed))
  }

  // ------------------------------------------------------------------ voting

  ghost predicate IsBallot(approvals: map<Ballot, Approval>, token: Token, b: Ballot) {
    b in approvals && approvals[b].tokenHash == Some(Sha256(token)) && approvals[b].decision == Pending
  }

  datatype BallotLookup = NoBallot | Overdue(rid: RequestId) | OpenBallot(ballot: Ballot)

  ghost function FindOpenApproval(db: Db, now: Time, token: Token): BallotLookup {
    if IsBase64Url43(token) && exists b :: IsBallot(db.approvals, token, b) then
      var b :| IsBallot(db.approvals, token, b);
      if b.requestId !in db.requests || db.requests[b.requestId].status != AwaitingApprovals then NoBallot
      else if db.requests[b.requestId].approvalsExpireAt < now then Overdue(b.requestId)
      else OpenBallot(b)
    else NoBallot
  }

  /** Looking at an overdue request outside a transaction closes it for good. */
  ghost function DescribeApproval(db: Db, now: Time, token: Token): Db {
    match FindOpenApproval(db, now, token)
    case Overdue(rid) => CloseAll(db, {rid}, Expired, NoResponseInTime, now)
    case _ => db
  }

  datatype Vote = Approve | Decline | Unrecognised

  function ApprovedBallots(approvals: map<Ballot, Approval>, rid: RequestId): set<Ballot> {
    set b | b in approvals && b.requestId == rid && approvals[b].decision == Approved
  }

  function RefusedBallots(approvals: map<Ballot, Approval>, rid: RequestId): set<Ballot> {
    set b | b in approvals && b.requestId == rid && approvals[b].decision == Refused
  }

  datatype DecideReply = BadDecision | InvalidLink | DeclinedNow | MailFailed | LockedUntil(at: Time) | StillWaiting(approvals: nat)

  function Cast(db: Db, b: Ballot, decision: Decision, now: Time): Db {
    db.(approvals := db.approvals[b := Approval(None, decision, Some(now))])
  }

  /**
   * A guardian's vote, in one transaction: an overdue request is closed and then the transaction is
   * rolled back by the error, and a failing notification rolls the vote back too.
   */
  ghost function Decide(db: Db, now: Time, timeLockMs: nat, token: Token, vote: Vote, mailed: bool): (Db, DecideReply) {
    if vote == Unrecognised then (db, BadDecision) else
    match FindOpenApproval(db, now, token)
    case NoBallot => (db, InvalidLink)
    case Overdue(_) => (db, InvalidLink)
    case OpenBallot(b) =>
      if vote == Decline then
        (CloseAll(Cast(db, b, Refused, now), {b.requestId}, Declined, GuardianDeclined, now), DeclinedNow)
      else
        var voted := Cast(db, b, Approved, now);
        var request := db.requests[b.requestId];
        if |ApprovedBallots(voted.approvals, b.requestId)| >= request.threshold then
          if mailed then
            (voted.(requests := voted.requests[b.requestId := request.(status := TimeLocked, unlocksAt := Some(now + timeLockMs))]),
             LockedUntil(now + timeLockMs))
          else (db, MailFailed)
        else (voted, StillWaiting(|ApprovedBallots(voted.approvals, b.requestId)|))
  }

  // ------------------------------------------------------------------ stopping

  ghost predicate IsCancellable(requests: map<RequestId, Request>, token: Token, r: RequestId) {
    r in requests && requests[r].cancelTokenHash == Sha256(token) && requests[r].status.IsStoppable()
  }

  ghost function FindCancellable(db: Db, token: Token): Option<RequestId> {
    if IsBase64Url43(token) && exists r :: IsCancellable(db.requests, token, r)
    then var r :| IsCancellable(db.requests, token, r); Some(r)
    else None
  }

  ghost function CancelByToken(db: Db, now: Time, token: Token): Db {
    match FindCancellable(db, token)
    case None => db
    case Some(r) => CloseAll(db, {r}, Cancelled, CancelledByOwner, now)
  }

  function StoppableAgainst(db: Db, user: UserId): set<RequestId> {
    set r | r in db.requests && db.requests[r].oldUserId == user && db.requests[r].status.IsStoppable()
  }

  function CancelForSignIn(db: Db, now: Time, user: UserId): Db {
    CloseAll(db, StoppableAgainst(db, user), Cancelled, OwnerSignedIn, now)
  }

  // ------------------------------------------------------------------ completing

  function OverdueRequests(db: Db, now: Time): set<RequestId> {
    set r | r in db.requests && db.requests[r].status == AwaitingApprovals && db.requests[r].approvalsExpireAt <= now
  }

  function DueRequests(db: Db, now: Time): set<RequestId> {
    set r | r in db.requests && IsDue(db.requests[r], now)
  }

  predicate IsDue(r: Request, now: Time) {
    r.status == TimeLocked && r.unlocksAt.Some? && r.unlocksAt.value <= now
  }

  function ExpireOverdue(db: Db, now: Time): Db {
    CloseAll(db, OverdueRequests(db, now), Expired, NoResponseInTime, now)
  }

  /** The atomic claim: affects a row only if it is still time-locked and due. */
  function Claim(db: Db, now: Time, rid: RequestId): Option<Db> {
    if rid in db.requests && IsDue(db.requests[rid], now)
    then Some(db.(requests := db.requests[rid := db.requests[rid].(status := Completing)]))
    else None
  }

  /** The rows the completing transaction loads. */
  function WalletsOf(db: Db, user: UserId): map<WalletId, Wallet> {
    map w | w in db.wallets && db.wallets[w].userId == user :: db.wallets[w]
  }

  predicate NeedsRekey(w: Wallet) { w.signingMode == Software && w.encryptedPrivateKey.Some? }

  /** Whether the transaction can move this wallet: its key opens and really is the key of its address. */
  predicate IsMovable(ring: Keyring, w: Wallet, oldUser: UserId) {
    NeedsRekey(w) ==>
      var found := Open(ring, w.encryptedPrivateKey.value, oldUser);
      found.Ok? && KeyMatchesAddress(w.chain, found.value.plaintext, w.address)
  }

  function MovedWallet(ring: Keyring, w: Wallet, oldUser: UserId, newUser: UserId, iv: Iv): Wallet
    requires IsMovable(ring, w, oldUser)
  {
    if NeedsRekey(w) then
      var plaintext := Open(ring, w.encryptedPrivateKey.value, oldUser).value.plaintext;
      w.(userId := newUser,
         encryptedPrivateKey := Some(Encrypt(ring, plaintext, newUser, iv)),
         encryptionKeyId := Some(ring.CurrentKeyId()))
    else w.(userId := newUser)
  }

  ghost predicate AllMovable(ring: Keyring, loaded: map<WalletId, Wallet>, oldUser: UserId) {
    forall w :: w in loaded ==> IsMovable(ring, loaded[w], oldUser)
  }

  ghost function MovedWallets(ring: Keyring, loaded: map<WalletId, Wallet>, request: Request, ivs: WalletId -> Iv): map<WalletId, Wallet>
    requires AllMovable(ring, loaded, request.oldUserId)
  {
    map w | w in loaded :: MovedWallet(ring, loaded[w], request.oldUserId, request.newUserId, ivs(w))
  }

  function LockUser(users: map<UserId, User>, user: UserId, now: Time): map<UserId, User> {
    if user in users
    then users[user := users[user].(lockedAt := Some(now), sessionsValidAfter := Some(now))]
    else users
  }

  function ClearCircle(guardians: map<GuardianId, Guardian>, owner: UserId): map<GuardianId, Guardian> {
    map g | g in guardians ::
      if guardians[g].ownerUserId == owner && guardians[g].status != Removed
      then guardians[g].(status := Removed, inviteTokenHash := None)
      else guardians[g]
  }

  /** What the transaction commits, computed from the request and wallets it loaded. */
  ghost function CommitMove(db: Db, now: Time, rid: RequestId, request: Request, loaded: map<WalletId, Wallet>,
                            ring: Keyring, ivs: WalletId -> Iv): Db
    requires AllMovable(ring, loaded, request.oldUserId)
  {
    Db(LockUser(db.users, request.oldUserId, now),
       ClearCircle(db.guardians, request.oldUserId),
       db.requests[rid := ClosedRow(request, Completed, Recovered(|loaded|), now)],
       db.approvals,
       db.wallets + MovedWallets(ring, loaded, request, ivs))
  }

  /** The failure path hands the claim back, and only a claim. */
  function Fallback(db: Db, rid: RequestId): Db {
    if rid in db.requests && db.requests[rid].status == Completing
    then db.(requests := db.requests[rid := db.requests[rid].(status := TimeLocked)])
    else db
  }

  /** complete() with nothing running beside it; `fault` is any other failure inside the transaction. */
  ghost function Complete(db: Db, now: Time, rid: RequestId, ring: Keyring, ivs: WalletId -> Iv, fault: bool): (Db, bool) {
    match Claim(db, now, rid)
    case None => (db, false)
    case Some(claimed) =>
      var request := claimed.requests[rid];
      var loaded := WalletsOf(claimed, request.oldUserId);
      if fault || !AllMovable(ring, loaded, request.oldUserId)
      then (Fallback(claimed, rid), false)
      else (CommitMove(claimed, now, rid, request, loaded, ring, ivs), true)
  }
}
