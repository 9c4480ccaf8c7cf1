/** Safety of social recovery and sign-in over whole runs. */
module RecoveryTheorems {
  import opened Prelude
  import opened Encryption
  import opened Tables
  import opened Recovery
  import opened SignIn
  import opened RotationRow
  import opened Custody
  import opened LifeCycle
  import opened Invariants
  import opened Steps
  import opened WalletSteps
  import opened Runs

  // ------------------------------------------------------------------ stopping a request

  /** Event `e` is an objection to request `r` that arrives while the request can still be stopped. */
  ghost predicate Objects(s: State, e: Event, r: RequestId) {
    && r in s.db.requests
    && s.db.requests[r].status.IsStoppable()
    && match e
       case CancelLink(token) => IsBase64Url43(token) && s.db.requests[r].cancelTokenHash == Sha256(token)
       case WorkOsSignIn(profile, newId) =>
         var reply := LoginWithWorkOs(s.db, s.now, profile, newId).1;
         reply.SignedIn? && reply.user == s.db.requests[r].oldUserId
       case PasswordSignIn(user) => user == s.db.requests[r].oldUserId && LoginWithPassword(s.db, s.now, user).1.SignedIn?
       case CastVote(token, vote, _) => vote == Decline && IsBase64Url43(token) && DeclinesWith(s, token, r)
       case _ => false
  }

  ghost predicate DeclinesWith(s: State, token: Token, r: RequestId) {
    exists b :: IsBallot(s.db.approvals, token, b) && b.requestId == r && IsVotable(s.db, s.now, b)
  }

  lemma CancelLinkCloses(db: Db, now: Time, token: Token, r: RequestId)
    requires DistinctTokens(db) && IsBase64Url43(token) && IsCancellable(db.requests, token, r)
    ensures CancelByToken(db, now, token).requests[r] == ClosedRow(db.requests[r], Cancelled, CancelledByOwner, now)
  {
    var hit := FindCancellable(db, token);
    assert IsCancellable(db.requests, token, hit.value);
  }

  lemma DeclineCloses(db: Db, now: Time, timeLockMs: nat, token: Token, mailed: bool, b: Ballot)
    requires DistinctTokens(db) && IsBase64Url43(token) && IsBallot(db.approvals, token, b) && IsVotable(db, now, b)
    ensures Decide(db, now, timeLockMs, token, Decline, mailed).0.requests[b.requestId]
            == ClosedRow(db.requests[b.requestId], Declined, GuardianDeclined, now)
  {
    assert FindOpenApproval(db, now, token) == OpenBallot(b) by {
      forall c | IsBallot(db.approvals, token, c) ensures c == b {
      }
    }
  }

  /** A WorkOS sign-in that mints a token leaves no request against that account awaiting or time-locked. */
  lemma SignInLeavesNothingOpen(db: Db, now: Time, profile: Profile, newId: Option<UserId>)
    requires newId.Some? ==> newId.value !in db.users
    ensures var (db', reply) := LoginWithWorkOs(db, now, profile, newId);
            reply.SignedIn? ==>
              && StoppableAgainst(db', reply.user) == {}
              && !IsLocked(db.users, reply.user)
              && Accepts(db'.users, reply.token) == (reply.user in db.users && db.users[reply.user].sessionsValidAfter.Some? ==>
                                                       now / 1000 * 1000 >= db.users[reply.user].sessionsValidAfter.value)
              && reply.token.sub == reply.user
              && reply.user in db'.users && db'.users[reply.user].workosUserId == Some(profile.workosUserId)
  {
    match MatchProfile(db.users, profile)
    case Existing(u) => NothingStoppable(db.(users := db.users[u := SignedInUser(db.users[u], profile)]), now, u);
    case NewAccount =>
      if newId.Some? {
        NothingStoppable(db.(users := db.users[newId.value := NewUser(profile)]), now, newId.value);
      }
    case _ =>
  }

  lemma PasswordLeavesNothingOpen(db: Db, now: Time, user: UserId)
    ensures var (db', reply) := LoginWithPassword(db, now, user);
            reply.SignedIn? ==> StoppableAgainst(db', user) == {} && !IsLocked(db.users, user) && reply.token.sub == reply.user == user
  {
    NothingStoppable(db, now, user);
  }

  /** Looking at an approval has no side effect exactly when its request is not overdue; an overdue one is closed for good. */
  lemma DescribePersistsIff(db: Db, now: Time, token: Token)
    ensures DescribeApproval(db, now, token) == db <==> !FindOpenApproval(db, now, token).Overdue?
    ensures match FindOpenApproval(db, now, token)
            case Overdue(rid) => rid in db.requests && DescribeApproval(db, now, token).requests[rid]
                                                       == ClosedRow(db.requests[rid], Expired, NoResponseInTime, now)
            case _ => true
  {
    match FindOpenApproval(db, now, token)
    case Overdue(rid) =>
      assert DescribeApproval(db, now, token).requests[rid].status == Expired;
    case _ =>
  }

  /** The vote on such a request closes nothing: its transaction rolls the expiry back. */
  lemma DecideRollsExpiryBack(db: Db, now: Time, timeLockMs: nat, token: Token, vote: Vote, mailed: bool)
    requires FindOpenApproval(db, now, token).Overdue?
    ensures Decide(db, now, timeLockMs, token, vote, mailed).0 == db
  {
  }

  /**
   * For a requester and an account that may recover at all, a request starts exactly when the account has three
   * active guardians, no open request and no recent refusal; that two guardians meet their majority of two is
   * not enough.
   */
  lemma StartsIff(db: Db, now: Time, newUser: UserId, account: UserId)
    requires Circles(db.guardians)
    requires newUser in db.users && !HasOpenRequestFor(db, newUser) && !OwnsWallet(db, newUser)
    requires account in db.users && account != newUser && db.users[account].lockedAt.None?
    ensures StartRequestReply(db, now, newUser, Some(account)).Started? <==>
              && |ActiveGuardians(db.guardians, account)| >= MIN_GUARDIANS
              && !HasOpenRequestAgainst(db, account) && !InCooldown(db, now, account)
    ensures ThresholdFor(2) == 2 < MIN_GUARDIANS
  {
    RequesterNeverStarvesVote(db, now, newUser, Some(account));
  }

  lemma NothingStoppable(db: Db, now: Time, user: UserId)
    ensures StoppableAgainst(CancelForSignIn(db, now, user), user) == {}
    ensures forall r :: r in StoppableAgainst(db, user) ==>
              CancelForSignIn(db, now, user).requests[r] == ClosedRow(db.requests[r], Cancelled, OwnerSignedIn, now)
  {
  }

  lemma SignInCloses(db: Db, now: Time, profile: Profile, newId: Option<UserId>, r: RequestId)
    requires r in db.requests && db.requests[r].status.IsStoppable()
    requires var reply := LoginWithWorkOs(db, now, profile, newId).1; reply.SignedIn? && reply.user == db.requests[r].oldUserId
    ensures LoginWithWorkOs(db, now, profile, newId).0.requests[r] == ClosedRow(db.requests[r], Cancelled, OwnerSignedIn, now)
  {
  }

  lemma ObjectionCloses(cfg: Config, s: State, e: Event, r: RequestId)
    requires DistinctTokens(s.db) && Objects(s, e, r)
    ensures var requests' := NextDb(cfg, s, e).requests;
            r in requests' && requests'[r].closedAt.Some?
            && (requests'[r].status == Cancelled || requests'[r].status == Declined)
  {
    match e
    case CancelLink(token) => CancelLinkCloses(s.db, s.now, token, r);
    case WorkOsSignIn(profile, newId) => SignInCloses(s.db, s.now, profile, newId, r);
    case PasswordSignIn(user) => NothingStoppable(s.db, s.now, user);
    case CastVote(token, _, mailed) =>
      var b :| IsBallot(s.db.approvals, token, b) && b.requestId == r && IsVotable(s.db, s.now, b);
      DeclineCloses(s.db, s.now, cfg.timeLockMs, token, mailed, b);
  }

  /** A request that met an objection while it could be stopped never commits afterwards. */
  lemma ObjectionIsFinal(cfg: Config, run: Run, j: nat, i: nat, r: RequestId)
    requires IsRun(cfg, run) && j < i < |run.events| && Objects(run.states[j], run.events[j], r)
    ensures !CommitsAt(run, i, r)
  {
    assert run.states[j + 1].db.requests[r].closedAt.Some? && r in run.states[j + 1].db.requests
           && run.states[j + 1].db.requests[r].status != Completing by {
      Reachable(cfg, run, j);
      assert IsStep(cfg, run, j);
      ObjectionCloses(cfg, run.states[j], run.events[j], r);
    }
    ClosedForever(cfg, run, j + 1, i, r);
    if CommitsAt(run, i, r) {
      CommitIsClaimed(cfg, run, i, r);
    }
  }

  // ------------------------------------------------------------------ who moves wallets, and when

  lemma WalletAt(cfg: Config, run: Run, i: nat, w: WalletId)
    requires IsRun(cfg, run) && i < |run.events| && w in run.states[i].db.wallets
    ensures w in run.states[i + 1].db.wallets
    ensures ChangesBy(ChangeOf(run.states[i], run.events[i], w), run.states[i].db.wallets[w], run.states[i + 1].db.wallets[w])
    ensures TagNamesKey(run.states[i].db.wallets[w])
  {
    Reachable(cfg, run, i);
    assert IsStep(cfg, run, i);
    StepChangesWallets(cfg, run.states[i], run.events[i]);
  }

  /** A wallet's owner changes only when a completing request of that owner commits, and to its requester. */
  lemma OwnerChangesOnlyByCommit(cfg: Config, run: Run, i: nat, w: WalletId) returns (r: RequestId)
    requires IsRun(cfg, run) && i < |run.events| && w in run.states[i].db.wallets
    requires w in run.states[i + 1].db.wallets && run.states[i + 1].db.wallets[w].userId != run.states[i].db.wallets[w].userId
    ensures CommitsAt(run, i, r) && r in run.states[i].db.requests
    ensures run.states[i].db.requests[r].oldUserId == run.states[i].db.wallets[w].userId
    ensures run.states[i].db.requests[r].newUserId == run.states[i + 1].db.wallets[w].userId
  {
    WalletAt(cfg, run, i, w);
    var row, row' := run.states[i].db.wallets[w], run.states[i + 1].db.wallets[w];
    ChangeKeepsKey(ChangeOf(run.states[i], run.events[i], w), row, row');
    r := run.states[i].WorkerAt(run.events[i].worker).rid;
    CommitIsClaimed(cfg, run, i, r);
  }

  lemma CommitIsDue(cfg: Config, run: Run, i: nat, r: RequestId)
    requires IsRun(cfg, run) && i < |run.events| && CommitsAt(run, i, r)
    ensures r in run.states[i].db.requests
    ensures run.states[i].db.requests[r].unlocksAt.Some? && run.states[i].db.requests[r].unlocksAt.value <= run.states[i].now
  {
    CommitIsClaimed(cfg, run, i, r);
    Reachable(cfg, run, i);
    assert RowTimeline(run.states[i].now, run.states[i].db.requests[r]);
  }

  /**
   * A wallet changes owner only when a completing request commits, at least one time lock after the
   * approval that met the threshold, and only if no cancel link, sign-in to the old account or decline
   * reached the request before, while it was awaiting approvals or time-locked.
   */
  lemma WalletsMoveOnlyAfterTimeLock(cfg: Config, run: Run, i: nat, w: WalletId) returns (r: RequestId, k: nat)
    requires IsRun(cfg, run) && i < |run.events| && w in run.states[i].db.wallets
    requires w in run.states[i + 1].db.wallets && run.states[i + 1].db.wallets[w].userId != run.states[i].db.wallets[w].userId
    ensures CommitsAt(run, i, r) && r in run.states[i].db.requests
    ensures run.states[i].db.requests[r].oldUserId == run.states[i].db.wallets[w].userId
    ensures run.states[i].db.requests[r].newUserId == run.states[i + 1].db.wallets[w].userId
    ensures k < i && run.events[k].CastVote? && run.events[k].vote == Approve
    ensures r in run.states[k].db.requests && r in run.states[k + 1].db.requests
    ensures |ApprovedBallots(run.states[k].db.approvals, r)| < run.states[k].db.requests[r].threshold
    ensures |ApprovedBallots(run.states[k + 1].db.approvals, r)| == run.states[k + 1].db.requests[r].threshold
    ensures run.states[i].now >= run.states[k].now + cfg.timeLockMs
    ensures forall j :: 0 <= j < i ==> !Objects(run.states[j], run.events[j], r)
  {
    r := OwnerChangesOnlyByCommit(cfg, run, i, w);
    CommitIsDue(cfg, run, i, r);
    k := UnlockWasVoted(cfg, run, i, r);
    forall j | 0 <= j < i ensures !Objects(run.states[j], run.events[j], r) {
      if Objects(run.states[j], run.events[j], r) {
        ObjectionIsFinal(cfg, run, j, i, r);
      }
    }
  }

  // ------------------------------------------------------------------ what completing does

  /** The wallets of an account. */
  ghost function WalletIdsOf(wallets: map<WalletId, Wallet>, user: UserId): set<WalletId> {
    set w | w in wallets && wallets[w].userId == user
  }

  /**
   * The account was recovered: every wallet of the old account belongs to the requester with account and
   * key unchanged and no other wallet changed; the old account is locked with its sessions ended and has no
   * pending or active guardian left; the request is closed with the number of wallets; and no other account,
   * guardian, request or ballot changed.
   */
  ghost predicate Recovers(db: Db, db': Db, now: Time, rid: RequestId)
    requires rid in db.requests
  {
    var request := db.requests[rid];
    && db'.requests == db.requests[rid := request.(status := Completed, closedAt := Some(now),
                                                   closedReason := Some(Recovered(|WalletIdsOf(db.wallets, request.oldUserId)|)))]
    && MovesWallets(db.wallets, db'.wallets, request.oldUserId, request.newUserId)
    && ShutsAccount(db.users, db'.users, request.oldUserId, now)
    && ClearsCircle(db.guardians, db'.guardians, request.oldUserId)
    && db'.approvals == db.approvals
  }

  ghost predicate MovesWallets(wallets: map<WalletId, Wallet>, wallets': map<WalletId, Wallet>, oldUser: UserId, newUser: UserId) {
    && wallets'.Keys == wallets.Keys
    && (forall w :: w in wallets ==> MovedOrKept(wallets[w], wallets'[w], oldUser, newUser))
    && (forall w :: w in wallets' ==> wallets'[w].userId != oldUser)
  }

  ghost predicate ShutsAccount(users: map<UserId, User>, users': map<UserId, User>, user: UserId, now: Time) {
    user in users && users' == users[user := users[user].(lockedAt := Some(now), sessionsValidAfter := Some(now))]
  }

  ghost predicate ClearsCircle(guardians: map<GuardianId, Guardian>, guardians': map<GuardianId, Guardian>, user: UserId) {
    && guardians'.Keys == guardians.Keys
    && forall g :: g in guardians ==>
         guardians'[g] == if guardians[g].ownerUserId == user && (guardians[g].status == PendingInvite || guardians[g].status == Active)
                          then guardians[g].(status := Removed, inviteTokenHash := None) else guardians[g]
  }

  /**
   * complete() with nothing running beside it is all or nothing: it reports success exactly when the
   * request was due, nothing failed and every wallet could be moved, and then the account is recovered;
   * otherwise the database is exactly as before.
   */
  lemma CompleteIsAllOrNothing(db: Db, now: Time, rid: RequestId, ring: Keyring, ivs: WalletId -> Iv, fault: bool)
    requires rid in db.requests && db.requests[rid].oldUserId in db.users
             && db.requests[rid].oldUserId != db.requests[rid].newUserId
    ensures var (db', done) := Complete(db, now, rid, ring, ivs, fault); var old' := db.requests[rid].oldUserId;
            && (done <==>
                  && db.requests[rid].status == TimeLocked && db.requests[rid].unlocksAt.Some? && db.requests[rid].unlocksAt.value <= now
                  && !fault && forall w :: w in db.wallets && db.wallets[w].userId == old' ==> IsMovable(ring, db.wallets[w], old'))
            && (if done then Recovers(db, db', now, rid) else db' == db)
  {
    var request := db.requests[rid].(status := Completing);
    var loaded := WalletsOf(db, request.oldUserId);
    AllMovableRows(db, ring, request.oldUserId);
    if IsDue(db.requests[rid], now) {
      var claimed := db.(requests := db.requests[rid := request]);
      assert Claim(db, now, rid) == Some(claimed) && WalletsOf(claimed, request.oldUserId) == loaded;
      if !fault && AllMovable(ring, loaded, request.oldUserId) {
        CommitRecovers(db, claimed, now, rid, ring, ivs);
      } else {
        assert Fallback(claimed, rid).requests == db.requests;
      }
    }
  }

  lemma AllMovableRows(db: Db, ring: Keyring, user: UserId)
    ensures AllMovable(ring, WalletsOf(db, user), user) <==>
              forall w :: w in db.wallets && db.wallets[w].userId == user ==> IsMovable(ring, db.wallets[w], user)
    ensures WalletsOf(db, user).Keys == WalletIdsOf(db.wallets, user)
    ensures |WalletsOf(db, user)| == |WalletIdsOf(db.wallets, user)|
  {
    var loaded := WalletsOf(db, user);
    if AllMovable(ring, loaded, user) {
      forall w | w in db.wallets && db.wallets[w].userId == user ensures IsMovable(ring, db.wallets[w], user) {
        assert w in loaded;
      }
    }
    assert |loaded| == |loaded.Keys|;
  }

  lemma CommitRecovers(db: Db, claimed: Db, now: Time, rid: RequestId, ring: Keyring, ivs: WalletId -> Iv)
    requires rid in db.requests && claimed == db.(requests := db.requests[rid := db.requests[rid].(status := Completing)])
    requires var r := claimed.requests[rid]; r.oldUserId in db.users && r.oldUserId != r.newUserId
    requires AllMovable(ring, WalletsOf(db, db.requests[rid].oldUserId), db.requests[rid].oldUserId)
    ensures var request := claimed.requests[rid];
            Recovers(db, CommitMove(claimed, now, rid, request, WalletsOf(db, request.oldUserId), ring, ivs), now, rid)
  {
    var request := claimed.requests[rid];
    var loaded := WalletsOf(db, request.oldUserId);
    CommitMovesLoaded(db.wallets, loaded, request, ring, ivs);
    CommitShutsAccount(db.users, db.guardians, request.oldUserId, now);
    AllMovableRows(db, ring, request.oldUserId);
  }

  /** Every loaded row is rewritten for the requester with its key intact. */
  lemma CommitMovesLoaded(wallets: map<WalletId, Wallet>, loaded: map<WalletId, Wallet>, request: Request, ring: Keyring, ivs: WalletId -> Iv)
    requires AllMovable(ring, loaded, request.oldUserId) && request.oldUserId != request.newUserId
    requires forall w :: w in loaded ==> w in wallets && wallets[w] == loaded[w] && wallets[w].userId == request.oldUserId
    requires forall w :: w in wallets && wallets[w].userId == request.oldUserId ==> w in loaded
    ensures MovesWallets(wallets, wallets + MovedWallets(ring, loaded, request, ivs), request.oldUserId, request.newUserId)
  {
    var wallets' := wallets + MovedWallets(ring, loaded, request, ivs);
    forall w | w in wallets
      ensures MovedOrKept(wallets[w], wallets'[w], request.oldUserId, request.newUserId) && wallets'[w].userId != request.oldUserId
    {
      if w in loaded {
        assert IsMovable(ring, loaded[w], request.oldUserId);
      }
    }
  }

  /** Exactly the loaded rows leave the old account. */
  lemma CommitLeavesTheRest(wallets: map<WalletId, Wallet>, loaded: map<WalletId, Wallet>, request: Request, ring: Keyring, ivs: WalletId -> Iv)
    requires AllMovable(ring, loaded, request.oldUserId) && request.oldUserId != request.newUserId
    requires loaded.Keys <= wallets.Keys
    ensures var wallets' := wallets + MovedWallets(ring, loaded, request, ivs);
            forall w :: w in wallets' ==>
              (wallets'[w].userId == request.oldUserId <==> wallets[w].userId == request.oldUserId && w !in loaded)
  {
  }

  lemma CommitShutsAccount(users: map<UserId, User>, guardians: map<GuardianId, Guardian>, user: UserId, now: Time)
    requires user in users
    ensures ShutsAccount(users, LockUser(users, user, now), user, now)
    ensures ClearsCircle(guardians, ClearCircle(guardians, user), user)
  {
  }

  predicate MovedOrKept(row: Wallet, row': Wallet, oldUser: UserId, newUser: UserId) {
    if row.userId == oldUser then
      && row'.userId == newUser
      && row'.address == row.address && row'.chain == row.chain && row'.signingMode == row.signingMode
      && row'.encryptedPrivateKey.None? == row.encryptedPrivateKey.None?
      && (if row.signingMode == Software && row.encryptedPrivateKey.Some? then
            && Secret(row).Some? && Secret(row') == Secret(row) && TagNamesKey(row') && row'.encryptionKeyId.Some?
            && KeyOfAddress(row.chain, Secret(row).value, row.address)
          else row' == row.(userId := newUser))
    else row' == row
  }

  /**
   * With other replicas running, the transaction moves exactly the wallets it loaded: the old account ends
   * up with no wallet if and only if it gained none between the load and the commit.
   */
  lemma CommitMovesAllIff(cfg: Config, run: Run, i: nat, r: RequestId)
    requires IsRun(cfg, run) && i < |run.events| && CommitsAt(run, i, r)
    ensures r in run.states[i].db.requests
    ensures var request := run.states[i].db.requests[r]; var loaded := run.states[i].WorkerAt(run.events[i].worker).wallets;
            var before, after := WalletsOf(run.states[i].db, request.oldUserId), WalletsOf(run.states[i + 1].db, request.oldUserId);
            && loaded.Keys <= before.Keys
            && after.Keys == before.Keys - loaded.Keys
            && (after == map[] <==> before.Keys == loaded.Keys)
  {
    CommitIsClaimed(cfg, run, i, r);
    CommitTables(cfg, run, i, r);
    var s, e := run.states[i], run.events[i];
    var me := s.WorkerAt(e.worker);
    CommitLeavesTheRest(s.db.wallets, me.wallets, me.request, e.ring, e.ivs);
    var before, after := WalletsOf(s.db, me.request.oldUserId), WalletsOf(run.states[i + 1].db, me.request.oldUserId);
    assert forall w :: w in after <==> w in before && w !in me.wallets;
    assert after.Keys == before.Keys - me.wallets.Keys;
    assert after == map[] <==> after.Keys == {};
  }

  lemma CommitTables(cfg: Config, run: Run, i: nat, r: RequestId)
    requires IsRun(cfg, run) && i < |run.events| && CommitsAt(run, i, r)
    ensures var s, e := run.states[i], run.events[i]; var me := s.WorkerAt(e.worker);
            && run.states[i + 1].db.wallets == s.db.wallets + MovedWallets(e.ring, me.wallets, me.request, e.ivs)
            && me.request.oldUserId != me.request.newUserId
            && (forall w :: w in me.wallets ==> w in s.db.wallets && s.db.wallets[w].userId == me.request.oldUserId)
  {
    CommitParties(cfg, run, i, r);
    assert IsStep(cfg, run, i);
  }

  lemma CommitParties(cfg: Config, run: Run, i: nat, r: RequestId)
    requires IsRun(cfg, run) && i < |run.events| && CommitsAt(run, i, r)
    ensures var s := run.states[i]; var me := s.WorkerAt(run.events[i].worker);
            && me.request.oldUserId != me.request.newUserId
            && (forall w :: w in me.wallets ==> w in s.db.wallets && s.db.wallets[w].userId == me.request.oldUserId)
  {
    CommitIsClaimed(cfg, run, i, r);
    Reachable(cfg, run, i);
    var me := run.states[i].workers[run.events[i].worker];
    forall w | w in me.wallets ensures LoadedRow(me, w, run.states[i].db.wallets) {
    }
  }

  /** A step that is not a successful commit moves no wallet, and none but a commit locks an account. */
  lemma NothingElseMoves(cfg: Config, run: Run, i: nat)
    requires IsRun(cfg, run) && i < |run.events|
    requires forall r :: !CommitsAt(run, i, r)
    ensures forall w :: w in run.states[i].db.wallets ==>
              w in run.states[i + 1].db.wallets && run.states[i + 1].db.wallets[w].userId == run.states[i].db.wallets[w].userId
    ensures forall u :: u in run.states[i].db.users ==>
              u in run.states[i + 1].db.users
              && run.states[i + 1].db.users[u].lockedAt == run.states[i].db.users[u].lockedAt
              && run.states[i + 1].db.users[u].sessionsValidAfter == run.states[i].db.users[u].sessionsValidAfter
  {
    forall w | w in run.states[i].db.wallets
      ensures w in run.states[i + 1].db.wallets && run.states[i + 1].db.wallets[w].userId == run.states[i].db.wallets[w].userId
    {
      WalletAt(cfg, run, i, w);
      if run.states[i + 1].db.wallets[w].userId != run.states[i].db.wallets[w].userId {
        var r := OwnerChangesOnlyByCommit(cfg, run, i, w);
      }
    }
    LocksOnlyByCommit(cfg, run, i);
  }

  lemma LocksOnlyByCommit(cfg: Config, run: Run, i: nat)
    requires IsRun(cfg, run) && i < |run.events|
    requires forall r :: !CommitsAt(run, i, r)
    ensures forall u :: u in run.states[i].db.users ==>
              u in run.states[i + 1].db.users
              && run.states[i + 1].db.users[u].lockedAt == run.states[i].db.users[u].lockedAt
              && run.states[i + 1].db.users[u].sessionsValidAfter == run.states[i].db.users[u].sessionsValidAfter
  {
    assert IsStep(cfg, run, i);
    var s, e := run.states[i], run.events[i];
    if e.CommitTx? {
      assert !CommitsAt(run, i, if s.WorkerAt(e.worker).Idle? then 0 else s.WorkerAt(e.worker).rid);
    }
    if e.WorkOsSignIn? {
      WorkOsKeepsLocks(s.db, s.now, e.profile, e.newId);
    } else {
      OthersLeaveUsers(cfg, s, e);
    }
  }

  lemma WorkOsKeepsLocks(db: Db, now: Time, profile: Profile, newId: Option<UserId>)
    requires newId.Some? ==> newId.value !in db.users
    ensures var users' := LoginWithWorkOs(db, now, profile, newId).0.users;
            forall u :: u in db.users ==>
              u in users' && users'[u].lockedAt == db.users[u].lockedAt && users'[u].sessionsValidAfter == db.users[u].sessionsValidAfter
  {
  }

  // ------------------------------------------------------------------ accounts and sessions

  lemma UserAt(cfg: Config, run: Run, i: nat, u: UserId)
    requires IsRun(cfg, run) && i < |run.events| && u in run.states[i].db.users
    ensures u in run.states[i + 1].db.users && UserEvolves(run.states[i].db.users[u], run.states[i + 1].db.users[u])
    ensures DistinctIdentities(run.states[i + 1].db.users)
  {
    Reachable(cfg, run, i);
    Reachable(cfg, run, i + 1);
    assert IsStep(cfg, run, i);
    StepKeepsUsers(cfg, run.states[i], run.events[i]);
  }

  /** E-mail, a bound identity and a lock never go away. */
  lemma {:induction false} UserForever(cfg: Config, run: Run, i: nat, j: nat, u: UserId)
    requires IsRun(cfg, run) && i <= j < |run.states| && u in run.states[i].db.users
    ensures u in run.states[j].db.users && UserEvolves(run.states[i].db.users[u], run.states[j].db.users[u])
  {
    if i < j {
      UserForever(cfg, run, i, j - 1, u);
      UserAt(cfg, run, j - 1, u);
    }
  }

  ghost function SignInReply(s: State, e: Event): LoginReply {
    match e
    case WorkOsSignIn(profile, newId) => LoginWithWorkOs(s.db, s.now, profile, newId).1
    case PasswordSignIn(user) => LoginWithPassword(s.db, s.now, user).1
    case _ => UnknownUser
  }

  /** After a recovery commits, no sign-in to the old account and no token for it is ever accepted again. */
  lemma RecoveredAccountIsShut(cfg: Config, run: Run, i: nat, j: nat, r: RequestId, token: Jwt)
    requires IsRun(cfg, run) && i < j < |run.states| && CommitsAt(run, i, r)
    ensures r in run.states[i].db.requests
    ensures token.sub == run.states[i].db.requests[r].oldUserId ==> !Accepts(run.states[j].db.users, token)
    ensures j < |run.events| ==>
              var reply := SignInReply(run.states[j], run.events[j]);
              reply.SignedIn? ==> reply.user != run.states[i].db.requests[r].oldUserId
  {
    CommitIsClaimed(cfg, run, i, r);
    var u := run.states[i].db.requests[r].oldUserId;
    assert IsLocked(run.states[i + 1].db.users, u) by {
      CommitCompletes(cfg, run, i, r);
      RequestIdentity(cfg, run, i, i + 1, r);
      Reachable(cfg, run, i + 1);
    }
    UserForever(cfg, run, i + 1, j, u);
    if j < |run.events| {
      LockedCannotSignIn(cfg, run, j, u);
    }
  }

  lemma LockedCannotSignIn(cfg: Config, run: Run, j: nat, u: UserId)
    requires IsRun(cfg, run) && j < |run.events| && IsLocked(run.states[j].db.users, u)
    ensures var reply := SignInReply(run.states[j], run.events[j]); reply.SignedIn? ==> reply.user != u
  {
    var s, e := run.states[j], run.events[j];
    if e.WorkOsSignIn? {
      assert IsStep(cfg, run, j);
      SignInLeavesNothingOpen(s.db, s.now, e.profile, e.newId);
    }
  }

  /** Once a sign-in with a WorkOS identity returned a user, every later one with it returns that user. */
  lemma IdentityIsStable(cfg: Config, run: Run, i: nat, j: nat)
    requires IsRun(cfg, run) && i < j < |run.events|
    requires run.events[i].WorkOsSignIn? && run.events[j].WorkOsSignIn?
    requires run.events[i].profile.workosUserId == run.events[j].profile.workosUserId
    requires SignInReply(run.states[i], run.events[i]).SignedIn? && SignInReply(run.states[j], run.events[j]).SignedIn?
    ensures SignInReply(run.states[i], run.events[i]).user == SignInReply(run.states[j], run.events[j]).user
  {
    var u, v := SignInReply(run.states[i], run.events[i]).user, SignInReply(run.states[j], run.events[j]).user;
    SignInBinds(cfg, run, i);
    SignInBinds(cfg, run, j);
    UserForever(cfg, run, i + 1, j + 1, u);
    Reachable(cfg, run, j + 1);
  }

  lemma SignInBinds(cfg: Config, run: Run, i: nat)
    requires IsRun(cfg, run) && i < |run.events| && run.events[i].WorkOsSignIn?
    requires SignInReply(run.states[i], run.events[i]).SignedIn?
    ensures var u := SignInReply(run.states[i], run.events[i]).user; var users' := run.states[i + 1].db.users;
            u in users' && users'[u].workosUserId == Some(run.events[i].profile.workosUserId)
  {
    var s, e := run.states[i], run.events[i];
    assert IsStep(cfg, run, i);
    SignInLeavesNothingOpen(s.db, s.now, e.profile, e.newId);
  }
}
