/** Every step of the system keeps the recovery invariants, the claims and the sign-in identities. */
module Steps {
  import opened Prelude
  import opened Encryption
  import opened Tables
  import opened Recovery
  import opened SignIn
  import opened Custody
  import opened LifeCycle
  import opened Invariants

  // ------------------------------------------------------------------ claims

  function Holding(w: Worker): Option<RequestId> {
    if w.Idle? then None else Some(w.rid)
  }

  ghost predicate WorksOn(w: Worker, r: Request) {
    match w
    case Idle => true
    case Claimed(_) => r.status == Completing
    case Loaded(_, request, _) => r.status == Completing && request == r
    case Failing(_) => r.status == Completing || r.status == Completed
  }

  /**
   * A call of complete() that is past its claim works on a request that is still claimed, and a
   * failing one on a request that is claimed or, if only the acknowledgement was lost, completed;
   * no two calls work on the same request.
   */
  ghost predicate Claims(s: State) {
    && (forall p :: p in s.workers && !s.workers[p].Idle? ==>
          s.workers[p].rid in s.db.requests && WorksOn(s.workers[p], s.db.requests[s.workers[p].rid]))
    && (forall p, q :: p in s.workers && q in s.workers && p != q && !s.workers[p].Idle? ==>
          Holding(s.workers[p]) != Holding(s.workers[q]))
  }

  /** How step `e` may change request `rid`, and which steps make the changes that matter. */
  ghost predicate RowStep(cfg: Config, s: State, e: Event, rid: RequestId, r: Request, r': Request) {
    || r' == r
    || (e.CastVote? && r.status == AwaitingApprovals && r' == r.(status := TimeLocked, unlocksAt := Some(s.now + cfg.timeLockMs)))
    || (e.CastVote? && r' == ClosedRow(r, Declined, GuardianDeclined, s.now) && IsClosing(s.now, r, r'))
    || (r'.status != Declined && IsClosing(s.now, r, r'))
    || (e.TakeClaim? && e.rid == rid && IsDue(r, s.now) && r' == r.(status := Completing))
    || (e.HandBack? && s.WorkerAt(e.worker) == Failing(rid) && r.status == Completing && r' == r.(status := TimeLocked))
    || (e.CommitTx? && CanCommit(s, e.worker, e.ring) && s.WorkerAt(e.worker).rid == rid && r.status == Completing
        && r' == ClosedRow(r, Completed, Recovered(|s.WorkerAt(e.worker).wallets|), s.now))
  }

  ghost predicate RowsStep(cfg: Config, s: State, e: Event, requests': map<RequestId, Request>) {
    && s.db.requests.Keys <= requests'.Keys
    && forall r :: r in s.db.requests ==> RowStep(cfg, s, e, r, s.db.requests[r], requests'[r])
  }

  lemma ClosingRows(cfg: Config, s: State, e: Event, db': Db)
    requires OnlyCloses(s.now, s.db, db') && QuietStep(cfg.timeLockMs, s.now, s.db, db')
    ensures RowsStep(cfg, s, e, db'.requests)
  {
    forall r | r in s.db.requests ensures RowStep(cfg, s, e, r, s.db.requests[r], db'.requests[r]) {
      assert QuietRow(cfg.timeLockMs, s.now, s.db.requests[r], db'.requests[r]);
    }
  }

  lemma VoteRows(cfg: Config, s: State, e: Event)
    requires e.CastVote?
    ensures RowsStep(cfg, s, e, Decide(s.db, s.now, cfg.timeLockMs, e.token, e.vote, e.mailed).0.requests)
  {
    var effect := VoteHasEffect(s.db, s.now, cfg.timeLockMs, e.token, e.vote, e.mailed);
  }

  lemma CommitRows(cfg: Config, s: State, e: Event)
    requires e.CommitTx? && CanCommit(s, e.worker, e.ring) && Claims(s)
    ensures RowsStep(cfg, s, e, Committed(s, e.worker, e.ring, e.ivs).requests)
    ensures Committed(s, e.worker, e.ring, e.ivs).requests.Keys == s.db.requests.Keys
  {
    assert WorksOn(s.workers[e.worker], s.db.requests[s.workers[e.worker].rid]);
  }

  /** Every request survives every step and changes only as RowStep says. */
  lemma RequestsStep(cfg: Config, s: State, e: Event)
    requires Claims(s) && Enabled(cfg, s, e)
    ensures RowsStep(cfg, s, e, NextDb(cfg, s, e).requests)
  {
    match e
    case CastVote(_, _, _) => VoteRows(cfg, s, e);
    case CommitTx(p, ring, ivs, _) =>
      if CanCommit(s, p, ring) {
        CommitRows(cfg, s, e);
      }
    case Describe(token) =>
      DescribeIsQuiet(cfg.timeLockMs, s.db, s.now, token);
      ClosingRows(cfg, s, e, DescribeApproval(s.db, s.now, token));
    case CancelLink(token) =>
      CancelIsQuiet(cfg.timeLockMs, s.db, s.now, token);
      ClosingRows(cfg, s, e, CancelByToken(s.db, s.now, token));
    case SweepExpiry =>
      ExpireIsQuiet(cfg.timeLockMs, s.db, s.now);
      ClosingRows(cfg, s, e, ExpireOverdue(s.db, s.now));
    case WorkOsSignIn(profile, newId) =>
      WorkOsIsQuiet(cfg.timeLockMs, s.db, s.now, profile, newId);
      ClosingRows(cfg, s, e, LoginWithWorkOs(s.db, s.now, profile, newId).0);
    case PasswordSignIn(user) =>
      PasswordIsQuiet(cfg.timeLockMs, s.db, s.now, user);
      ClosingRows(cfg, s, e, LoginWithPassword(s.db, s.now, user).0);
    case _ =>
  }

  /** A worker the step does not concern keeps its claim: no other worker can finish or release it. */
  lemma BystanderKept(cfg: Config, s: State, e: Event, p: WorkerId, r': Request)
    requires Claims(s)
    requires p in s.workers && !s.workers[p].Idle?
    requires RowStep(cfg, s, e, s.workers[p].rid, s.db.requests[s.workers[p].rid], r')
    requires (e.CommitTx? || e.HandBack?) ==> e.worker != p
    ensures r' == s.db.requests[s.workers[p].rid]
  {
    var me := s.workers[p];
    assert WorksOn(me, s.db.requests[me.rid]);
    if (e.CommitTx? || e.HandBack?) && e.worker in s.workers && !s.workers[e.worker].Idle? {
      assert Holding(s.workers[e.worker]) != Holding(me);
    }
  }

  /** A worker that takes a step itself. */
  lemma ActorKept(cfg: Config, s: State, e: Event)
    requires Claims(s) && Enabled(cfg, s, e)
    requires e.TakeClaim? || e.LoadWallets? || e.CommitTx? || e.TxFault?
    requires e.worker in NextWorkers(s, e) && !NextWorkers(s, e)[e.worker].Idle?
    ensures var me' := NextWorkers(s, e)[e.worker]; var requests' := NextDb(cfg, s, e).requests;
            me'.rid in requests' && WorksOn(me', requests'[me'.rid])
  {
    if e.worker in s.workers && !s.workers[e.worker].Idle? {
      assert WorksOn(s.workers[e.worker], s.db.requests[s.workers[e.worker].rid]);
    }
  }

  lemma WorkerKept(cfg: Config, s: State, e: Event, p: WorkerId)
    requires Claims(s) && Enabled(cfg, s, e)
    requires RowsStep(cfg, s, e, NextDb(cfg, s, e).requests)
    requires p in NextWorkers(s, e) && !NextWorkers(s, e)[p].Idle?
    ensures var me' := NextWorkers(s, e)[p]; var requests' := NextDb(cfg, s, e).requests;
            me'.rid in requests' && WorksOn(me', requests'[me'.rid])
  {
    if (e.TakeClaim? || e.LoadWallets? || e.CommitTx? || e.TxFault?) && e.worker == p {
      ActorKept(cfg, s, e);
    } else {
      assert p in s.workers && s.workers[p] == NextWorkers(s, e)[p];
      BystanderKept(cfg, s, e, p, NextDb(cfg, s, e).requests[s.workers[p].rid]);
    }
  }

  /** Only a claim on a time-locked request makes a new holder, and nobody holds a time-locked request. */
  lemma HoldersDistinct(s: State, e: Event)
    requires Claims(s)
    ensures forall p, q :: p in NextWorkers(s, e) && q in NextWorkers(s, e) && p != q && !NextWorkers(s, e)[p].Idle? ==>
                             Holding(NextWorkers(s, e)[p]) != Holding(NextWorkers(s, e)[q])
  {
  }

  lemma ClaimsKept(cfg: Config, s: State, e: Event)
    requires Claims(s) && Enabled(cfg, s, e)
    ensures Claims(Next(cfg, s, e))
  {
    RequestsStep(cfg, s, e);
    HoldersDistinct(s, e);
    forall p | p in NextWorkers(s, e) && !NextWorkers(s, e)[p].Idle?
      ensures var me' := NextWorkers(s, e)[p]; var requests' := NextDb(cfg, s, e).requests;
              me'.rid in requests' && WorksOn(me', requests'[me'.rid])
    {
      WorkerKept(cfg, s, e, p);
    }
  }

  // ------------------------------------------------------------------ the recovery invariants

  lemma ClosingKeepsInv(timeLockMs: nat, now: Time, db: Db, db': Db)
    requires RecoveryInv(now, db)
    requires QuietStep(timeLockMs, now, db, db') && OnlyCloses(now, db, db') && db'.guardians.Keys == db.guardians.Keys
    ensures RecoveryInv(now, db')
  {
    ClosingCompletesNone(now, db, db');
    QuietKeepsInv(timeLockMs, now, db, db');
  }

  lemma ClosingCompletesNone(now: Time, db: Db, db': Db)
    requires OnlyCloses(now, db, db')
    ensures forall r :: r in db'.requests && db'.requests[r].status == Completed ==>
              db.requests[r].status == Completed || IsLocked(db'.users, db'.requests[r].oldUserId)
  {
  }

  lemma RequestStepKeepsInv(cfg: Config, s: State, e: Event)
    requires RecoveryInv(s.now, s.db) && Enabled(cfg, s, e)
    requires e.Start? || e.Describe? || e.CastVote? || e.CancelLink? || e.SweepExpiry?
    ensures RecoveryInv(s.now, NextDb(cfg, s, e))
  {
    match e
    case Start(newUser, _, found, rid, cancelToken, tokens) => StartKeepsInv(s.db, s.now, newUser, found, rid, cancelToken, tokens);
    case CastVote(token, vote, mailed) =>
      var effect := VoteHasEffect(s.db, s.now, cfg.timeLockMs, token, vote, mailed);
      VoteKeepsInv(cfg.timeLockMs, s.now, s.db, Decide(s.db, s.now, cfg.timeLockMs, token, vote, mailed).0, effect);
    case Describe(token) =>
      DescribeIsQuiet(cfg.timeLockMs, s.db, s.now, token);
      ClosingKeepsInv(cfg.timeLockMs, s.now, s.db, DescribeApproval(s.db, s.now, token));
    case CancelLink(token) =>
      CancelIsQuiet(cfg.timeLockMs, s.db, s.now, token);
      ClosingKeepsInv(cfg.timeLockMs, s.now, s.db, CancelByToken(s.db, s.now, token));
    case SweepExpiry =>
      ExpireIsQuiet(cfg.timeLockMs, s.db, s.now);
      ClosingKeepsInv(cfg.timeLockMs, s.now, s.db, ExpireOverdue(s.db, s.now));
  }

  lemma WorkOsKeepsInv(timeLockMs: nat, db: Db, now: Time, profile: Profile, newId: Option<UserId>)
    requires RecoveryInv(now, db) && (newId.Some? ==> newId.value !in db.users)
    ensures RecoveryInv(now, LoginWithWorkOs(db, now, profile, newId).0)
  {
    WorkOsIsQuiet(timeLockMs, db, now, profile, newId);
    WorkOsLeavesGuardians(db, now, profile, newId);
    ClosingKeepsInv(timeLockMs, now, db, LoginWithWorkOs(db, now, profile, newId).0);
  }

  lemma WorkOsLeavesGuardians(db: Db, now: Time, profile: Profile, newId: Option<UserId>)
    ensures LoginWithWorkOs(db, now, profile, newId).0.guardians == db.guardians
  {
  }

  lemma PasswordKeepsInv(timeLockMs: nat, db: Db, now: Time, user: UserId)
    requires RecoveryInv(now, db)
    ensures RecoveryInv(now, LoginWithPassword(db, now, user).0)
  {
    PasswordIsQuiet(timeLockMs, db, now, user);
    ClosingKeepsInv(timeLockMs, now, db, LoginWithPassword(db, now, user).0);
  }

  lemma SignInKeepsInv(cfg: Config, s: State, e: Event)
    requires RecoveryInv(s.now, s.db) && Enabled(cfg, s, e)
    requires e.WorkOsSignIn? || e.PasswordSignIn?
    ensures RecoveryInv(s.now, NextDb(cfg, s, e))
  {
    if e.WorkOsSignIn? {
      WorkOsKeepsInv(cfg.timeLockMs, s.db, s.now, e.profile, e.newId);
    } else {
      PasswordKeepsInv(cfg.timeLockMs, s.db, s.now, e.user);
    }
  }

  lemma GuardianStepKeepsInv(cfg: Config, s: State, e: Event)
    requires RecoveryInv(s.now, s.db) && Enabled(cfg, s, e)
    requires e.Invite? || e.Confirm? || e.Dismiss?
    ensures RecoveryInv(s.now, NextDb(cfg, s, e))
  {
    match e
    case Invite(owner, rawEmail, g, token) => AddGuardianKeepsInv(cfg.timeLockMs, s.db, s.now, owner, rawEmail, g, token);
    case Confirm(token) =>
      ConfirmIsQuiet(cfg.timeLockMs, s.db, s.now, token);
      ClosingKeepsInv(cfg.timeLockMs, s.now, s.db, ConfirmInvite(s.db, s.now, token));
    case Dismiss(owner, g) =>
      RemoveIsQuiet(cfg.timeLockMs, s.db, s.now, owner, g);
      ClosingKeepsInv(cfg.timeLockMs, s.now, s.db, RemoveGuardian(s.db, owner, g));
  }

  lemma CommitKeepsInv(cfg: Config, s: State, p: WorkerId, ring: Keyring, ivs: WalletId -> Iv)
    requires RecoveryInv(s.now, s.db) && Claims(s) && CanCommit(s, p, ring)
    ensures RecoveryInv(s.now, Committed(s, p, ring, ivs))
  {
    var me := s.workers[p];
    assert WorksOn(me, s.db.requests[me.rid]);
    CommitIsQuiet(cfg.timeLockMs, s.db, s.now, me.rid, me.request, me.wallets, ring, ivs);
    CommitCompletesOne(s, p, ring, ivs);
    QuietKeepsInv(cfg.timeLockMs, s.now, s.db, Committed(s, p, ring, ivs));
  }

  /** Only the committing request becomes completed, and its account is locked. */
  lemma CommitCompletesOne(s: State, p: WorkerId, ring: Keyring, ivs: WalletId -> Iv)
    requires CanCommit(s, p, ring) && KnownParties(s.db)
    requires var me := s.WorkerAt(p); me.rid in s.db.requests && s.db.requests[me.rid] == me.request
    ensures var db' := Committed(s, p, ring, ivs);
            && db'.guardians.Keys == s.db.guardians.Keys && db'.requests.Keys == s.db.requests.Keys
            && forall r :: r in db'.requests && db'.requests[r].status == Completed ==>
                 s.db.requests[r].status == Completed || IsLocked(db'.users, db'.requests[r].oldUserId)
  {
  }

  lemma CompletionStepKeepsInv(cfg: Config, s: State, e: Event)
    requires RecoveryInv(s.now, s.db) && Claims(s) && Enabled(cfg, s, e)
    requires e.TakeClaim? || e.CommitTx? || e.HandBack?
    ensures RecoveryInv(s.now, NextDb(cfg, s, e))
  {
    match e
    case TakeClaim(_, rid) =>
      if Claim(s.db, s.now, rid).Some? {
        ClaimKeepsInv(cfg.timeLockMs, s.now, s.db, rid);
      }
    case HandBack(p) => FallbackKeepsInv(cfg.timeLockMs, s.now, s.db, s.WorkerAt(p).rid);
    case CommitTx(p, ring, ivs, _) =>
      if CanCommit(s, p, ring) {
        CommitKeepsInv(cfg, s, p, ring, ivs);
      }
  }

  lemma ClaimKeepsInv(timeLockMs: nat, now: Time, db: Db, rid: RequestId)
    requires RecoveryInv(now, db) && Claim(db, now, rid).Some?
    ensures RecoveryInv(now, Claim(db, now, rid).value)
  {
    ClaimIsQuiet(timeLockMs, db, now, rid);
    QuietKeepsInv(timeLockMs, now, db, Claim(db, now, rid).value);
  }

  lemma FallbackKeepsInv(timeLockMs: nat, now: Time, db: Db, rid: RequestId)
    requires RecoveryInv(now, db)
    ensures RecoveryInv(now, Fallback(db, rid))
  {
    FallbackIsQuiet(timeLockMs, db, now, rid);
    FallbackCompletesNone(db, rid);
    QuietKeepsInv(timeLockMs, now, db, Fallback(db, rid));
  }

  lemma FallbackCompletesNone(db: Db, rid: RequestId)
    ensures Fallback(db, rid).guardians == db.guardians && Fallback(db, rid).requests.Keys == db.requests.Keys
    ensures forall r :: r in db.requests && Fallback(db, rid).requests[r].status == Completed ==> db.requests[r].status == Completed
  {
  }

  lemma WalletTableIsElsewhere(now: Time, db: Db, wallets: map<WalletId, Wallet>)
    requires RecoveryInv(now, db)
    ensures RecoveryInv(now, db.(wallets := wallets))
  {
    assert KnownParties(db.(wallets := wallets));
    assert forall b :: b in db.approvals ==> IsVoter(db, b);
  }

  lemma WalletStepKeepsInv(cfg: Config, s: State, e: Event)
    requires RecoveryInv(s.now, s.db) && (e.NewWallet? || e.RotationWrite?)
    ensures RecoveryInv(s.now, NextDb(cfg, s, e))
  {
    var wallets' := NextDb(cfg, s, e).wallets;
    assert NextDb(cfg, s, e) == s.db.(wallets := wallets') by { WalletStepsOnly(cfg, s, e); }
    WalletTableIsElsewhere(s.now, s.db, wallets');
  }

  lemma WalletStepsOnly(cfg: Config, s: State, e: Event)
    requires e.NewWallet? || e.RotationWrite?
    ensures NextDb(cfg, s, e) == s.db.(wallets := NextDb(cfg, s, e).wallets)
  {
  }

  /** The steps that only move a worker, a job or the clock. */
  lemma OthersLeaveTables(cfg: Config, s: State, e: Event)
    requires e.Tick? || e.LoadWallets? || e.TxFault? || e.Crash? || e.RotationRead?
    ensures NextDb(cfg, s, e) == s.db
  {
  }

  /** The recovery invariants hold after every step of any replica that takes no time. */
  lemma TableStepKeepsInv(cfg: Config, s: State, e: Event)
    requires RecoveryInv(s.now, s.db) && Claims(s) && Enabled(cfg, s, e)
    ensures RecoveryInv(s.now, NextDb(cfg, s, e))
  {
    if e.Invite? || e.Confirm? || e.Dismiss? {
      GuardianStepKeepsInv(cfg, s, e);
    } else if e.WorkOsSignIn? || e.PasswordSignIn? {
      SignInKeepsInv(cfg, s, e);
    } else if e.TakeClaim? || e.CommitTx? || e.HandBack? {
      CompletionStepKeepsInv(cfg, s, e);
    } else if e.NewWallet? || e.RotationWrite? {
      WalletStepKeepsInv(cfg, s, e);
    } else if e.Start? || e.Describe? || e.CastVote? || e.CancelLink? || e.SweepExpiry? {
      RequestStepKeepsInv(cfg, s, e);
    } else {
      OthersLeaveTables(cfg, s, e);
    }
  }

  /** The recovery invariants hold after every step of any replica. */
  lemma StepKeepsRecovery(cfg: Config, s: State, e: Event)
    requires RecoveryInv(s.now, s.db) && Claims(s) && Enabled(cfg, s, e)
    ensures RecoveryInv(Next(cfg, s, e).now, Next(cfg, s, e).db)
  {
    TableStepKeepsInv(cfg, s, e);
    TimePassesKeepsInv(s.now, Next(cfg, s, e).now, NextDb(cfg, s, e));
  }

  // ------------------------------------------------------------------ accounts

  /** Users survive; e-mail, a bound identity and a lock are for good; identities stay unique. */
  ghost predicate UsersStep(users: map<UserId, User>, users': map<UserId, User>) {
    && (forall u :: u in users ==> u in users' && UserEvolves(users[u], users'[u]))
    && (DistinctIdentities(users) ==> DistinctIdentities(users'))
  }

  /** Binding an identity nobody else holds, to a new row or to a row that holds no other one. */
  lemma BindIdentity(users: map<UserId, User>, u: UserId, row: User)
    requires row.workosUserId.Some?
    requires u in users ==> UserEvolves(users[u], row)
    requires forall v :: v in users && v != u ==> users[v].workosUserId != row.workosUserId
    ensures UsersStep(users, users[u := row])
  {
  }

  lemma WorkOsUsers(db: Db, now: Time, profile: Profile, newId: Option<UserId>)
    requires (newId.Some? ==> newId.value !in db.users) && DistinctIdentities(db.users)
    ensures UsersStep(db.users, LoginWithWorkOs(db, now, profile, newId).0.users)
  {
    match MatchProfile(db.users, profile)
    case Existing(u) =>
      assert (exists v :: IsLinked(db.users, profile.workosUserId, v)) ==> IsLinked(db.users, profile.workosUserId, u);
      forall v | v in db.users && v != u ensures db.users[v].workosUserId != Some(profile.workosUserId) {
        assert IsLinked(db.users, profile.workosUserId, v) ==> IsLinked(db.users, profile.workosUserId, u);
      }
      BindIdentity(db.users, u, SignedInUser(db.users[u], profile));
    case NewAccount =>
      forall v | v in db.users ensures db.users[v].workosUserId != Some(profile.workosUserId) {
        assert !IsLinked(db.users, profile.workosUserId, v);
      }
      if newId.Some? {
        BindIdentity(db.users, newId.value, NewUser(profile));
      }
    case _ =>
  }

  lemma VoteLeavesPeople(cfg: Config, s: State, e: Event)
    requires e.CastVote?
    ensures var db' := Decide(s.db, s.now, cfg.timeLockMs, e.token, e.vote, e.mailed).0;
            db'.users == s.db.users && db'.guardians == s.db.guardians && db'.wallets == s.db.wallets
  {
    var effect := VoteHasEffect(s.db, s.now, cfg.timeLockMs, e.token, e.vote, e.mailed);
  }

  /** Only a sign-in and a completed recovery write the users table. */
  lemma OthersLeaveUsers(cfg: Config, s: State, e: Event)
    requires !e.WorkOsSignIn? && !(e.CommitTx? && CanCommit(s, e.worker, e.ring))
    ensures NextDb(cfg, s, e).users == s.db.users
  {
    if e.CastVote? {
      VoteLeavesPeople(cfg, s, e);
    }
  }

  lemma StepKeepsUsers(cfg: Config, s: State, e: Event)
    requires Enabled(cfg, s, e) && DistinctIdentities(s.db.users)
    ensures UsersStep(s.db.users, NextDb(cfg, s, e).users)
  {
    if e.WorkOsSignIn? {
      WorkOsUsers(s.db, s.now, e.profile, e.newId);
    } else if e.CommitTx? && CanCommit(s, e.worker, e.ring) {
      LockKeepsUsers(s.db.users, s.WorkerAt(e.worker).request.oldUserId, s.now);
    } else {
      OthersLeaveUsers(cfg, s, e);
    }
  }

  lemma LockKeepsUsers(users: map<UserId, User>, user: UserId, now: Time)
    ensures UsersStep(users, LockUser(users, user, now))
  {
  }
}
