/**
 * Each recovery operation in terms of the fields of the rows it reads and writes, with no other definition in
 * between: who may start a request and with which quorum, what a vote, a link, an expiry or a setup step does to
 * which row, and which keys a completing transaction moves.
 */
module RecoveryRows {
  import opened Prelude
  import opened Encryption
  import opened Tables
  import opened Recovery
  import opened SignIn
  import opened Custody
  import opened LifeCycle
  import opened Invariants
  import opened Steps
  import opened Runs
  import opened RecoveryTheorems
  import opened Deadlines

  // ------------------------------------------------------------------ guardian setup

  /** Pending or active guardians of an owner, by their columns. */
  ghost function Members(guardians: map<GuardianId, Guardian>, owner: UserId): set<GuardianId> {
    set g | g in guardians && guardians[g].ownerUserId == owner && (guardians[g].status == PendingInvite || guardians[g].status == Active)
  }

  /**
   * An invitation is written exactly when the owner exists, the trimmed address is not the owner's in any casing,
   * no pending or active guardian of the owner has it, and there are fewer than five; then one pending row is added
   * at the lower-case address with a link for seven days, and nothing else changes.
   */
  lemma InvitedRows(db: Db, now: Time, owner: UserId, rawEmail: string, id: GuardianId, token: Token)
    requires id !in db.guardians
    ensures var db' := AddGuardian(db, now, owner, rawEmail, id, token); var email := Lower(Trim(rawEmail));
            && (db' == db || db' == db.(guardians := db.guardians[id := Guardian(owner, email, PendingInvite, Some(Sha256(token)), Some(now + 604_800_000), None)]))
            && (db' != db <==> && owner in db.users && email != Lower(db.users[owner].email)
                               && (forall g :: g in Members(db.guardians, owner) ==> db.guardians[g].email != email)
                               && |Members(db.guardians, owner)| < 5)
            && (AddGuardianReply(db, owner, rawEmail) == Invited <==> db' != db)
            && (AddGuardianReply(db, owner, rawEmail) == OwnerNotFound <==> owner !in db.users)
            && (AddGuardianReply(db, owner, rawEmail) == OwnGuardian <==> owner in db.users && email == Lower(db.users[owner].email))
  {
    assert Circle(db.guardians, owner) == Members(db.guardians, owner);
    assert id !in db.guardians;
  }

  /** The row a link confirms: pending, with the link's hash, not past its deadline; nothing for an ill-shaped link. */
  lemma FoundInvite(db: Db, now: Time, token: Token, g: GuardianId)
    requires DistinctTokens(db)
    ensures FindInvite(db, now, token) == Some(g) <==>
              && IsBase64Url43(token) && g in db.guardians && db.guardians[g].status == PendingInvite
              && db.guardians[g].inviteTokenHash == Some(Sha256(token))
              && db.guardians[g].inviteExpiresAt.Some? && now <= db.guardians[g].inviteExpiresAt.value
  {
    if IsInvite(db.guardians, token, g) {
      forall h | IsInvite(db.guardians, token, h) ensures h == g {
      }
    }
  }

  lemma ConfirmedRows(db: Db, now: Time, token: Token)
    requires DistinctTokens(db)
    ensures var db' := ConfirmInvite(db, now, token);
            match FindInvite(db, now, token)
            case None => db' == db
            case Some(g) => g in db.guardians
                            && db' == db.(guardians := db.guardians[g := db.guardians[g].(status := Active, confirmedAt := Some(now), inviteTokenHash := None)])
  {
  }

  lemma RemovedRows(db: Db, owner: UserId, g: GuardianId)
    ensures var db' := RemoveGuardian(db, owner, g);
            if g in Members(db.guardians, owner)
            then db' == db.(guardians := db.guardians[g := db.guardians[g].(status := Removed, inviteTokenHash := None)])
            else db' == db
  {
    assert Circle(db.guardians, owner) == Members(db.guardians, owner);
  }

  // ------------------------------------------------------------------ starting

  /** The guardians of an account whose status is active. */
  ghost function ActiveOf(guardians: map<GuardianId, Guardian>, account: UserId): set<GuardianId> {
    set g | g in guardians && guardians[g].ownerUserId == account && guardians[g].status == Active
  }

  predicate Open(status: Status) { status == AwaitingApprovals || status == TimeLocked || status == Completing }

  /** A cancelled or declined request holds the account back for a day. */
  predicate HoldsBack(row: Request, now: Time) {
    (row.status == Cancelled || row.status == Declined) && row.closedAt.Some? && row.closedAt.value > now - 86_400_000
  }

  /** Everything the code asks before it starts a request, row by row. */
  ghost predicate MayStart(db: Db, now: Time, newUser: UserId, found: Option<UserId>) {
    && newUser in db.users
    && (forall r :: r in db.requests && db.requests[r].newUserId == newUser ==> !Open(db.requests[r].status))
    && (forall w :: w in db.wallets ==> db.wallets[w].userId != newUser)
    && found.Some? && found.value in db.users && found.value != newUser && db.users[found.value].lockedAt.None?
    && |ActiveOf(db.guardians, found.value)| >= 3
    && (forall r :: r in db.requests && db.requests[r].oldUserId == found.value ==>
          !Open(db.requests[r].status) && !HoldsBack(db.requests[r], now))
  }

  lemma StartsIffRows(db: Db, now: Time, newUser: UserId, found: Option<UserId>)
    requires Circles(db.guardians)
    ensures StartRequestReply(db, now, newUser, found).Started? <==> MayStart(db, now, newUser, found)
  {
    if newUser in db.users && found.Some? {
      assert ActiveGuardians(db.guardians, found.value) == ActiveOf(db.guardians, found.value);
      RequesterNeverStarvesVote(db, now, newUser, found);
    }
    if !HasOpenRequestFor(db, newUser) {
      forall r | r in db.requests && db.requests[r].newUserId == newUser ensures !Open(db.requests[r].status) {
      }
    }
    if found.Some? && !HasOpenRequestAgainst(db, found.value) && !InCooldown(db, now, found.value) {
      forall r | r in db.requests && db.requests[r].oldUserId == found.value
        ensures !Open(db.requests[r].status) && !HoldsBack(db.requests[r], now)
      {
      }
    }
  }

  /** The lookup may return any account whose lower-case address is the one asked for, and none only if there is none. */
  lemma LookupIff(users: map<UserId, User>, email: string, found: Option<UserId>)
    ensures IsAccountLookup(users, email, found) <==>
              if found.Some? then found.value in users && Lower(users[found.value].email) == email
              else !exists u :: u in users && Lower(users[u].email) == email
  {
  }

  /** The smallest strict majority of n. */
  predicate IsMajority(threshold: nat, n: nat) { 2 * threshold > n && 2 * (threshold - 1) <= n }

  /** The row and the ballots a start adds. */
  ghost predicate StartAdds(db: Db, db': Db, now: Time, newUser: UserId, account: UserId, rid: RequestId, cancelToken: Token, tokens: GuardianId -> Token)
    requires newUser in db.users
  {
    && rid in db'.requests
    && db'.requests[rid] == Request(account, newUser, AwaitingApprovals, db'.requests[rid].threshold, Sha256(cancelToken),
                                    now + 604_800_000, None, None, None, now)
    && IsMajority(db'.requests[rid].threshold, |ActiveOf(db.guardians, account)|)
    && db' == db.(requests := db.requests[rid := db'.requests[rid]], approvals := db'.approvals)
    && (forall b :: b in db'.approvals <==> b in db.approvals || (b.requestId == rid && MayVote(db, newUser, account, b.guardianId)))
    && (forall b :: b in db'.approvals ==>
          db'.approvals[b] == if b.requestId == rid && MayVote(db, newUser, account, b.guardianId)
                              then Approval(Some(Sha256(tokens(b.guardianId))), Pending, None) else db.approvals[b])
  }

  /** An active guardian of the account whose address is not the requester's. */
  ghost predicate MayVote(db: Db, newUser: UserId, account: UserId, g: GuardianId)
    requires newUser in db.users
  {
    g in db.guardians && db.guardians[g].ownerUserId == account && db.guardians[g].status == Active
    && db.guardians[g].email != Lower(db.users[newUser].email)
  }

  /**
   * A request that starts needs a strict majority of the account's active guardians, and every one of them but
   * the requester gets a ballot of their own; a request that does not start changes nothing.
   */
  lemma StartedRows(db: Db, now: Time, newUser: UserId, found: Option<UserId>, rid: RequestId, cancelToken: Token, tokens: GuardianId -> Token)
    requires Circles(db.guardians) && rid !in db.requests
    ensures var db' := StartRequest(db, now, newUser, found, rid, cancelToken, tokens);
            if MayStart(db, now, newUser, found) then StartAdds(db, db', now, newUser, found.value, rid, cancelToken, tokens) else db' == db
  {
    StartsIffRows(db, now, newUser, found);
    var reply := StartRequestReply(db, now, newUser, found);
    if reply.Started? {
      assert ActiveGuardians(db.guardians, found.value) == ActiveOf(db.guardians, found.value);
      forall g ensures g in reply.voters <==> MayVote(db, newUser, found.value, g) {
      }
      AddedBallots(db.approvals, rid, reply.voters, tokens);
    }
  }

  lemma AddedBallots(approvals: map<Ballot, Approval>, rid: RequestId, voters: set<GuardianId>, tokens: GuardianId -> Token)
    ensures var approvals' := approvals + NewBallots(rid, voters, tokens);
            && (forall b :: b in approvals' <==> b in approvals || (b.requestId == rid && b.guardianId in voters))
            && (forall b :: b in approvals' ==>
                  approvals'[b] == if b.requestId == rid && b.guardianId in voters
                                   then Approval(Some(Sha256(tokens(b.guardianId))), Pending, None) else approvals[b])
  {
    forall b ensures b in NewBallots(rid, voters, tokens) <==> b.requestId == rid && b.guardianId in voters {
      if b.requestId == rid && b.guardianId in voters { assert b == Ballot(rid, b.guardianId); }
    }
  }

  /** In every run each request was started, and needs a strict majority of the guardians active at that moment. */
  lemma {:induction false} QuorumIsMajority(cfg: Config, run: Run, i: nat, r: RequestId) returns (k: nat)
    requires IsRun(cfg, run) && i < |run.states| && r in run.states[i].db.requests
    ensures k < i && run.events[k].Start? && run.events[k].rid == r
    ensures var row := run.states[i].db.requests[r];
            IsMajority(row.threshold, |ActiveOf(run.states[k].db.guardians, row.oldUserId)|) && row.createdAt == run.states[k].now
  {
    assert i > 0;
    if r in run.states[i - 1].db.requests {
      k := QuorumIsMajority(cfg, run, i - 1, r);
      RequestIdentity(cfg, run, i - 1, i, r);
    } else {
      k := i - 1;
      StartedAt(cfg, run, k, r);
    }
  }

  lemma StartedAt(cfg: Config, run: Run, k: nat, r: RequestId)
    requires IsRun(cfg, run) && k < |run.events| && r !in run.states[k].db.requests && r in run.states[k + 1].db.requests
    ensures run.events[k].Start? && run.events[k].rid == r
    ensures var row := run.states[k + 1].db.requests[r];
            IsMajority(row.threshold, |ActiveOf(run.states[k].db.guardians, row.oldUserId)|) && row.createdAt == run.states[k].now
  {
    ClaimsAt(cfg, run, k);
    OnlyStartsAdd(cfg, run.states[k], run.events[k], r);
    var s, e := run.states[k], run.events[k];
    assert Circles(s.db.guardians) by { Reachable(cfg, run, k); }
    assert e.rid !in s.db.requests by { assert IsStep(cfg, run, k); }
    StartedRows(s.db, s.now, e.newUser, e.found, e.rid, e.cancelToken, e.tokens);
  }

  lemma OnlyStartsAdd(cfg: Config, s: State, e: Event, r: RequestId)
    requires Claims(s) && r !in s.db.requests && r in NextDb(cfg, s, e).requests
    ensures e.Start? && e.rid == r
  {
    if e.CommitTx? && CanCommit(s, e.worker, e.ring) {
      CommitRows(cfg, s, e);
    }
    if e.CastVote? {
      VoteRowsKeys(cfg, s, e);
    }
  }

  // ------------------------------------------------------------------ voting

  /** The ballot a link opens, and the request that is too late for it. */
  lemma FoundBallot(db: Db, now: Time, token: Token, b: Ballot)
    requires DistinctTokens(db)
    requires IsBase64Url43(token) && b in db.approvals && db.approvals[b].tokenHash == Some(Sha256(token)) && db.approvals[b].decision == Pending
    ensures FindOpenApproval(db, now, token) ==
              if b.requestId !in db.requests || db.requests[b.requestId].status != AwaitingApprovals then NoBallot
              else if now > db.requests[b.requestId].approvalsExpireAt then Overdue(b.requestId)
              else OpenBallot(b)
  {
    assert IsBallot(db.approvals, token, b);
    forall c | IsBallot(db.approvals, token, c) ensures c == b {
    }
  }

  /** Any other text opens nothing. */
  lemma NoBallotFound(db: Db, now: Time, token: Token)
    requires !IsBase64Url43(token)
             || forall b :: b in db.approvals ==> !(db.approvals[b].tokenHash == Some(Sha256(token)) && db.approvals[b].decision == Pending)
    ensures FindOpenApproval(db, now, token) == NoBallot
  {
  }

  /** The ballots of a request that approve. */
  ghost function Approving(approvals: map<Ballot, Approval>, rid: RequestId): set<Ballot> {
    set b | b in approvals && b.requestId == rid && approvals[b].decision == Approved
  }

  /**
   * A vote through a link that opens ballot b. A decline closes the request and withdraws its links. An approval is
   * counted; if with it the request has its threshold, the request is locked for the time lock from now, provided
   * the owner's mail went out, and otherwise nothing is written at all.
   */
  lemma VotedRows(db: Db, now: Time, timeLockMs: nat, token: Token, vote: Vote, mailed: bool, b: Ballot)
    requires FindOpenApproval(db, now, token) == OpenBallot(b) && b in db.approvals && db.approvals[b].decision == Pending
    requires b.requestId in db.requests
    ensures var (db', reply) := Decide(db, now, timeLockMs, token, vote, mailed); var row := db.requests[b.requestId];
            var enough := |Approving(db.approvals, b.requestId)| + 1 >= row.threshold;
            var counted := db.approvals[b := Approval(None, Approved, Some(now))];
            match vote
            case Unrecognised => db' == db && reply == BadDecision
            case Decline =>
              && reply == DeclinedNow
              && IsClosed(db, db', b.requestId, row.(status := Declined, closedAt := Some(now), closedReason := Some(GuardianDeclined)),
                          db.approvals[b := Approval(None, Refused, Some(now))])
            case Approve =>
              if !enough then db' == db.(approvals := counted) && reply == StillWaiting(|Approving(db.approvals, b.requestId)| + 1)
              else if !mailed then db' == db && reply == MailFailed
              else db' == db.(approvals := counted, requests := db.requests[b.requestId := row.(status := TimeLocked, unlocksAt := Some(now + timeLockMs))])
                   && reply == LockedUntil(now + timeLockMs)
  {
    var counted := db.approvals[b := Approval(None, Approved, Some(now))];
    assert ApprovedBallots(counted, b.requestId) == Approving(db.approvals, b.requestId) + {b};
    assert b !in Approving(db.approvals, b.requestId);
  }

  /** A request that was closed: its own row is `row`, its ballots lose their links, and nothing else changes. */
  ghost predicate IsClosed(db: Db, db': Db, rid: RequestId, row: Request, approvals: map<Ballot, Approval>) {
    && db' == db.(requests := db'.requests, approvals := db'.approvals)
    && db'.requests == db.requests[rid := row]
    && db'.approvals.Keys == approvals.Keys
    && forall b :: b in approvals ==>
         db'.approvals[b] == if b.requestId == rid then approvals[b].(tokenHash := None) else approvals[b]
  }

  // ------------------------------------------------------------------ stopping

  predicate Stoppable(status: Status) { status == AwaitingApprovals || status == TimeLocked }

  /** The cancel link closes the one stoppable request whose cancel hash it has; any other text changes nothing. */
  lemma CancelledRows(db: Db, now: Time, token: Token, r: RequestId)
    requires DistinctTokens(db) && r in db.requests && db.requests[r].cancelTokenHash == Sha256(token)
    ensures var db' := CancelByToken(db, now, token);
            if IsBase64Url43(token) && Stoppable(db.requests[r].status)
            then FindCancellable(db, token) == Some(r)
                 && IsClosed(db, db', r, db.requests[r].(status := Cancelled, closedAt := Some(now), closedReason := Some(CancelledByOwner)), db.approvals)
            else FindCancellable(db, token) == None && db' == db
  {
    forall q | IsCancellable(db.requests, token, q) ensures q == r {
    }
    if IsBase64Url43(token) && Stoppable(db.requests[r].status) { assert IsCancellable(db.requests, token, r); }
  }

  lemma UnknownCancelLink(db: Db, now: Time, token: Token)
    requires forall r :: r in db.requests ==> db.requests[r].cancelTokenHash != Sha256(token)
    ensures CancelByToken(db, now, token) == db && FindCancellable(db, token) == None
  {
  }

  /** A sign-in closes every awaiting or time-locked request against the account, and touches nothing else. */
  lemma SignedInRows(db: Db, now: Time, user: UserId)
    ensures var db' := CancelForSignIn(db, now, user);
            && db' == db.(requests := db'.requests, approvals := db'.approvals)
            && db'.requests.Keys == db.requests.Keys && db'.approvals.Keys == db.approvals.Keys
            && (forall r :: r in db.requests ==>
                  db'.requests[r] == if db.requests[r].oldUserId == user && Stoppable(db.requests[r].status)
                                     then db.requests[r].(status := Cancelled, closedAt := Some(now), closedReason := Some(OwnerSignedIn)) else db.requests[r])
            && (forall b :: b in db.approvals ==>
                  db'.approvals[b] == if b.requestId in db.requests && db.requests[b.requestId].oldUserId == user && Stoppable(db.requests[b.requestId].status)
                                      then db.approvals[b].(tokenHash := None) else db.approvals[b])
  {
  }

  /** What a sweep expires: awaiting requests whose deadline has come, and no other row. */
  lemma ExpiredRows(db: Db, now: Time)
    ensures var db' := ExpireOverdue(db, now);
            && db' == db.(requests := db'.requests, approvals := db'.approvals)
            && db'.requests.Keys == db.requests.Keys && db'.approvals.Keys == db.approvals.Keys
            && (forall r :: r in db.requests ==>
                  db'.requests[r] == if db.requests[r].status == AwaitingApprovals && db.requests[r].approvalsExpireAt <= now
                                     then db.requests[r].(status := Expired, closedAt := Some(now), closedReason := Some(NoResponseInTime)) else db.requests[r])
            && (forall b :: b in db.approvals ==>
                  db'.approvals[b] == if b.requestId in db.requests && db.requests[b.requestId].status == AwaitingApprovals
                                         && db.requests[b.requestId].approvalsExpireAt <= now
                                      then db.approvals[b].(tokenHash := None) else db.approvals[b])
  {
  }

  /** A step that makes a request expired finds its deadline come. */
  lemma ExpiryStep(cfg: Config, s: State, e: Event, r: RequestId)
    requires Claims(s) && r in s.db.requests && r in NextDb(cfg, s, e).requests
    requires s.db.requests[r].status != Expired && NextDb(cfg, s, e).requests[r].status == Expired
    requires e.Start? ==> e.rid !in s.db.requests
    ensures s.db.requests[r].approvalsExpireAt <= s.now
    ensures NextDb(cfg, s, e).requests[r] == s.db.requests[r].(status := Expired, closedAt := Some(s.now), closedReason := Some(NoResponseInTime))
  {
    if e.CommitTx? && CanCommit(s, e.worker, e.ring) {
      CommitExpiresNone(cfg, s, e, r);
    } else if e.CastVote? {
      VoteExpiresNone(cfg, s, e, r);
    } else {
      OtherExpiryStep(cfg, s, e, r);
    }
  }

  lemma CommitExpiresNone(cfg: Config, s: State, e: Event, r: RequestId)
    requires e.CommitTx? && CanCommit(s, e.worker, e.ring) && Claims(s) && r in s.db.requests
    ensures var requests' := Committed(s, e.worker, e.ring, e.ivs).requests;
            r in requests' && (requests'[r].status == Expired ==> requests'[r] == s.db.requests[r])
  {
    CommitRows(cfg, s, e);
  }

  lemma VoteExpiresNone(cfg: Config, s: State, e: Event, r: RequestId)
    requires e.CastVote? && r in s.db.requests
    ensures var requests' := Decide(s.db, s.now, cfg.timeLockMs, e.token, e.vote, e.mailed).0.requests;
            r in requests' && (requests'[r].status == Expired ==> requests'[r] == s.db.requests[r])
  {
    var effect := VoteHasEffect(s.db, s.now, cfg.timeLockMs, e.token, e.vote, e.mailed);
  }

  lemma OtherExpiryStep(cfg: Config, s: State, e: Event, r: RequestId)
    requires !e.CastVote? && !(e.CommitTx? && CanCommit(s, e.worker, e.ring))
    requires r in s.db.requests && r in NextDb(cfg, s, e).requests
    requires s.db.requests[r].status != Expired && NextDb(cfg, s, e).requests[r].status == Expired
    requires e.Start? ==> e.rid !in s.db.requests
    ensures s.db.requests[r].approvalsExpireAt <= s.now
    ensures NextDb(cfg, s, e).requests[r] == s.db.requests[r].(status := Expired, closedAt := Some(s.now), closedReason := Some(NoResponseInTime))
  {
  }

  /** Over every run a request expires at its deadline or later, never before. */
  lemma {:induction false} ExpiredInTime(cfg: Config, run: Run, i: nat, r: RequestId)
    requires IsRun(cfg, run) && i < |run.states| && r in run.states[i].db.requests && run.states[i].db.requests[r].status == Expired
    ensures run.states[i].db.requests[r].closedAt.Some?
    ensures run.states[i].db.requests[r].closedAt.value >= run.states[i].db.requests[r].approvalsExpireAt
  {
    assert i > 0;
    var k := i - 1;
    if r !in run.states[k].db.requests {
      BornAwaiting(cfg, run, k, r);
    } else if run.states[k].db.requests[r].status == Expired {
      ExpiredInTime(cfg, run, k, r);
      ClosedForever(cfg, run, k, i, r);
    } else {
      ClaimsAt(cfg, run, k);
      assert run.events[k].Start? ==> run.events[k].rid !in run.states[k].db.requests by { assert IsStep(cfg, run, k); }
      ExpiryStep(cfg, run.states[k], run.events[k], r);
    }
  }

  lemma BornAwaiting(cfg: Config, run: Run, k: nat, r: RequestId)
    requires IsRun(cfg, run) && k < |run.events| && r !in run.states[k].db.requests && r in run.states[k + 1].db.requests
    ensures run.states[k + 1].db.requests[r].status == AwaitingApprovals
  {
    ClaimsAt(cfg, run, k);
    OnlyStartsAdd(cfg, run.states[k], run.events[k], r);
  }

  // ------------------------------------------------------------------ completing

  /**
   * A wallet stops a recovery exactly when it is a software wallet with key material that no key of the ring sealed
   * for the old account, or that holds a key which is not the key of the wallet's address.
   */
  lemma MovableIff(ring: Keyring, w: Wallet, oldUser: UserId)
    ensures IsMovable(ring, w, oldUser) <==>
              (w.signingMode == Software && w.encryptedPrivateKey.Some? ==>
                 var ct := w.encryptedPrivateKey.value;
                 && ct.Sealed? && ct.key.userId == oldUser && (ct.key.master == ring.current || ct.key.master in ring.previous)
                 && KeyOfAddress(w.chain, ct.plaintext, w.address))
  {
    if w.encryptedPrivateKey.Some? && w.encryptedPrivateKey.value.Sealed? {
      KeyMatchesIff(w.chain, w.encryptedPrivateKey.value.plaintext, w.address);
    }
  }

  /** What is written for a wallet that moves: the same key sealed for the new owner under the current master key, tagged with it. */
  lemma MovedRowIs(ring: Keyring, w: Wallet, oldUser: UserId, newUser: UserId, iv: Iv)
    requires IsMovable(ring, w, oldUser)
    ensures MovedWallet(ring, w, oldUser, newUser, iv) ==
              if w.signingMode == Software && w.encryptedPrivateKey.Some? && w.encryptedPrivateKey.value.Sealed?
              then w.(userId := newUser,
                      encryptedPrivateKey := Some(Sealed(UserKey(ring.current, newUser), iv, w.encryptedPrivateKey.value.plaintext)),
                      encryptionKeyId := Some(KeyIdOf(ring.current)))
              else w.(userId := newUser)
  {
  }

  /** A request can be claimed exactly when it is time-locked and its unlock time has come. */
  lemma DueIff(db: Db, now: Time, rid: RequestId)
    ensures Claim(db, now, rid).Some? <==>
              rid in db.requests && db.requests[rid].status == TimeLocked && db.requests[rid].unlocksAt.Some? && db.requests[rid].unlocksAt.value <= now
    ensures Claim(db, now, rid).Some? ==> Claim(db, now, rid).value == db.(requests := db.requests[rid := db.requests[rid].(status := Completing)])
  {
  }
}
