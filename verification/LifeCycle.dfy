/** How each operation may change each row: requests, ballots, accounts, guardians. */
module LifeCycle {
  import opened Prelude
  import opened Encryption
  import opened Tables
  import opened Recovery
  import opened SignIn

  // ------------------------------------------------------------------ the allowed changes

  /** The only ways a request row changes in one step at time `now`. */
  ghost predicate RequestEvolves(timeLockMs: nat, now: Time, r: Request, r': Request) {
    || r' == r
    || (r.status == AwaitingApprovals && r' == r.(status := TimeLocked, unlocksAt := Some(now + timeLockMs)))
    || IsClosing(now, r, r')
    || (IsDue(r, now) && r' == r.(status := Completing))
    || (r.status == Completing && r' == r.(status := TimeLocked))
    || (r.status == Completing && r'.closedReason.Some? && r' == ClosedRow(r, Completed, r'.closedReason.value, now))
  }

  ghost predicate IsClosing(now: Time, r: Request, r': Request) {
    || (r.status == AwaitingApprovals && r' == ClosedRow(r, Declined, GuardianDeclined, now))
    || (r.status == AwaitingApprovals && r' == ClosedRow(r, Expired, NoResponseInTime, now))
    || (r.status.IsStoppable() && r' == ClosedRow(r, Cancelled, CancelledByOwner, now))
    || (r.status.IsStoppable() && r' == ClosedRow(r, Cancelled, OwnerSignedIn, now))
  }

  ghost predicate UserEvolves(u: User, u': User) {
    && u'.email == u.email
    && (u.lockedAt.Some? ==> u'.lockedAt.Some?)
    && (u.workosUserId.Some? ==> u'.workosUserId == u.workosUserId)
  }

  ghost predicate GuardianEvolves(g: Guardian, g': Guardian) {
    && g'.ownerUserId == g.ownerUserId
    && g'.email == g.email
    && (g.status == Removed ==> g'.status == Removed)
    && (g'.inviteTokenHash == g.inviteTokenHash || g'.inviteTokenHash.None?)
  }

  ghost predicate PeopleStep(db: Db, db': Db) {
    && (forall u :: u in db.users ==> u in db'.users && UserEvolves(db.users[u], db'.users[u]))
    && (forall g :: g in db.guardians ==> g in db'.guardians && GuardianEvolves(db.guardians[g], db'.guardians[g]))
  }

  /** No vote is cast, added or lost; links can only be withdrawn. */
  ghost predicate BallotsKept(approvals: map<Ballot, Approval>, approvals': map<Ballot, Approval>) {
    && approvals'.Keys == approvals.Keys
    && forall b :: b in approvals ==>
                     && approvals'[b].decision == approvals[b].decision
                     && (approvals'[b].tokenHash == approvals[b].tokenHash || approvals'[b].tokenHash.None?)
  }

  /** A step that neither creates a request nor casts a vote: no new unlock times, no new declines. */
  ghost predicate QuietRow(timeLockMs: nat, now: Time, r: Request, r': Request) {
    && RequestEvolves(timeLockMs, now, r, r')
    && r'.unlocksAt == r.unlocksAt
    && (r'.status == Declined ==> r.status == Declined)
  }

  ghost predicate QuietStep(timeLockMs: nat, now: Time, db: Db, db': Db) {
    && db'.requests.Keys == db.requests.Keys
    && (forall r :: r in db.requests ==> QuietRow(timeLockMs, now, db.requests[r], db'.requests[r]))
    && BallotsKept(db.approvals, db'.approvals)
    && PeopleStep(db, db')
  }

  /** The step closes some stoppable or overdue requests and changes no other. */
  ghost predicate OnlyCloses(now: Time, db: Db, db': Db) {
    && db'.requests.Keys == db.requests.Keys
    && forall r :: r in db.requests ==> db'.requests[r] == db.requests[r] || IsClosing(now, db.requests[r], db'.requests[r])
  }

  // ------------------------------------------------------------------ operation by operation

  lemma CloseAllIsQuiet(timeLockMs: nat, db: Db, closed: set<RequestId>, status: Status, reason: ClosedReason, now: Time)
    requires forall r :: r in closed && r in db.requests ==>
                           QuietRow(timeLockMs, now, db.requests[r], ClosedRow(db.requests[r], status, reason, now))
    requires forall r :: r in closed && r in db.requests ==>
                           IsClosing(now, db.requests[r], ClosedRow(db.requests[r], status, reason, now))
    ensures QuietStep(timeLockMs, now, db, CloseAll(db, closed, status, reason, now))
    ensures OnlyCloses(now, db, CloseAll(db, closed, status, reason, now))
  {
  }

  lemma DescribeIsQuiet(timeLockMs: nat, db: Db, now: Time, token: Token)
    ensures QuietStep(timeLockMs, now, db, DescribeApproval(db, now, token))
    ensures OnlyCloses(now, db, DescribeApproval(db, now, token))
  {
    match FindOpenApproval(db, now, token)
    case Overdue(rid) => CloseAllIsQuiet(timeLockMs, db, {rid}, Expired, NoResponseInTime, now);
    case _ =>
  }

  lemma CancelIsQuiet(timeLockMs: nat, db: Db, now: Time, token: Token)
    ensures QuietStep(timeLockMs, now, db, CancelByToken(db, now, token))
    ensures OnlyCloses(now, db, CancelByToken(db, now, token))
  {
    match FindCancellable(db, token)
    case Some(r) => CloseAllIsQuiet(timeLockMs, db, {r}, Cancelled, CancelledByOwner, now);
    case None =>
  }

  lemma ExpireIsQuiet(timeLockMs: nat, db: Db, now: Time)
    ensures QuietStep(timeLockMs, now, db, ExpireOverdue(db, now))
    ensures OnlyCloses(now, db, ExpireOverdue(db, now))
  {
    CloseAllIsQuiet(timeLockMs, db, OverdueRequests(db, now), Expired, NoResponseInTime, now);
  }

  lemma CancelForSignInIsQuiet(timeLockMs: nat, db: Db, now: Time, user: UserId)
    ensures QuietStep(timeLockMs, now, db, CancelForSignIn(db, now, user))
    ensures OnlyCloses(now, db, CancelForSignIn(db, now, user))
  {
    CloseAllIsQuiet(timeLockMs, db, StoppableAgainst(db, user), Cancelled, OwnerSignedIn, now);
  }

  lemma PasswordIsQuiet(timeLockMs: nat, db: Db, now: Time, user: UserId)
    ensures QuietStep(timeLockMs, now, db, LoginWithPassword(db, now, user).0)
    ensures OnlyCloses(now, db, LoginWithPassword(db, now, user).0)
  {
    CancelForSignInIsQuiet(timeLockMs, db, now, user);
  }

  lemma WorkOsIsQuiet(timeLockMs: nat, db: Db, now: Time, profile: Profile, newId: Option<UserId>)
    requires newId.Some? ==> newId.value !in db.users
    ensures QuietStep(timeLockMs, now, db, LoginWithWorkOs(db, now, profile, newId).0)
    ensures OnlyCloses(now, db, LoginWithWorkOs(db, now, profile, newId).0)
  {
    match MatchProfile(db.users, profile)
    case Existing(u) =>
      var updated := db.(users := db.users[u := SignedInUser(db.users[u], profile)]);
      assert UserEvolves(db.users[u], updated.users[u]);
      CancelForSignInIsQuiet(timeLockMs, updated, now, u);
    case NewAccount =>
      if newId.Some? {
        CancelForSignInIsQuiet(timeLockMs, db.(users := db.users[newId.value := NewUser(profile)]), now, newId.value);
      }
    case _ =>
  }

  lemma GuardianSetupIsQuiet(timeLockMs: nat, db: Db, now: Time, owner: UserId, rawEmail: string, g: GuardianId, token: Token)
    requires g !in db.guardians
    ensures QuietStep(timeLockMs, now, db, AddGuardian(db, now, owner, rawEmail, g, token))
  {
  }

  lemma ConfirmIsQuiet(timeLockMs: nat, db: Db, now: Time, token: Token)
    ensures QuietStep(timeLockMs, now, db, ConfirmInvite(db, now, token))
  {
  }

  lemma RemoveIsQuiet(timeLockMs: nat, db: Db, now: Time, owner: UserId, g: GuardianId)
    ensures QuietStep(timeLockMs, now, db, RemoveGuardian(db, owner, g))
  {
  }

  lemma ClaimIsQuiet(timeLockMs: nat, db: Db, now: Time, rid: RequestId)
    requires Claim(db, now, rid).Some?
    ensures QuietStep(timeLockMs, now, db, Claim(db, now, rid).value)
  {
  }

  lemma FallbackIsQuiet(timeLockMs: nat, db: Db, now: Time, rid: RequestId)
    ensures QuietStep(timeLockMs, now, db, Fallback(db, rid))
  {
  }

  lemma CommitIsQuiet(timeLockMs: nat, db: Db, now: Time, rid: RequestId, request: Request,
                      loaded: map<WalletId, Wallet>, ring: Keyring, ivs: WalletId -> Iv)
    requires AllMovable(ring, loaded, request.oldUserId)
    requires rid in db.requests && db.requests[rid] == request && request.status == Completing
    ensures QuietStep(timeLockMs, now, db, CommitMove(db, now, rid, request, loaded, ring, ivs))
  {
  }

  /** What one vote changes: nothing, or one ballot and at most its own request. */
  datatype VoteEffect = NoVote | Counted(ballot: Ballot) | Reached(ballot: Ballot) | Refusal(ballot: Ballot)

  ghost predicate VoteStep(timeLockMs: nat, now: Time, db: Db, db': Db, effect: VoteEffect) {
    match effect
    case NoVote => db' == db
    case Counted(b) =>
      && IsVotable(db, now, b)
      && db' == Cast(db, b, Approved, now)
      && |ApprovedBallots(db'.approvals, b.requestId)| < db.requests[b.requestId].threshold
    case Reached(b) =>
      && IsVotable(db, now, b)
      && db' == Cast(db, b, Approved, now).(requests := db.requests[b.requestId :=
                  db.requests[b.requestId].(status := TimeLocked, unlocksAt := Some(now + timeLockMs))])
      && |ApprovedBallots(db'.approvals, b.requestId)| >= db.requests[b.requestId].threshold
    case Refusal(b) =>
      && IsVotable(db, now, b)
      && db' == CloseAll(Cast(db, b, Refused, now), {b.requestId}, Declined, GuardianDeclined, now)
  }

  ghost predicate IsVotable(db: Db, now: Time, b: Ballot) {
    && b in db.approvals && db.approvals[b].decision == Pending && db.approvals[b].tokenHash.Some?
    && b.requestId in db.requests
    && db.requests[b.requestId].status == AwaitingApprovals
    && now <= db.requests[b.requestId].approvalsExpireAt
  }

  lemma VoteHasEffect(db: Db, now: Time, timeLockMs: nat, token: Token, vote: Vote, mailed: bool)
    returns (effect: VoteEffect)
    ensures VoteStep(timeLockMs, now, db, Decide(db, now, timeLockMs, token, vote, mailed).0, effect)
    ensures effect.Refusal? ==> vote == Decline
    ensures effect.Counted? || effect.Reached? ==> vote == Approve
  {
    effect := NoVote;
    if vote != Unrecognised {
      match FindOpenApproval(db, now, token)
      case OpenBallot(b) =>
        if vote == Decline {
          effect := Refusal(b);
        } else {
          var db' := Decide(db, now, timeLockMs, token, vote, mailed).0;
          var voted := Cast(db, b, Approved, now);
          effect := if |ApprovedBallots(voted.approvals, b.requestId)| < db.requests[b.requestId].threshold then Counted(b)
                    else if mailed then Reached(b) else NoVote;
        }
      case _ =>
    }
  }

  lemma VoteEvolves(timeLockMs: nat, now: Time, db: Db, db': Db, effect: VoteEffect)
    requires VoteStep(timeLockMs, now, db, db', effect)
    ensures db'.requests.Keys == db.requests.Keys && db'.approvals.Keys == db.approvals.Keys
    ensures forall r :: r in db.requests ==> RequestEvolves(timeLockMs, now, db.requests[r], db'.requests[r])
    ensures forall r :: r in db.requests && db'.requests[r] != db.requests[r] ==> !effect.NoVote? && effect.ballot.requestId == r
    ensures db'.users == db.users && db'.guardians == db.guardians && db'.wallets == db.wallets
  {
  }
}
