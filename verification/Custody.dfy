/**
 * The custody backend as one step system. Any number of replicas run recovery, sign-in, wallet
 * creation and key rotation over the same tables. Completing a request is four separate steps
 * (claim, load, commit, hand back) and rotating a row is two (read, conditional write); every
 * other operation is one atomic step. All of them share one clock that never goes back.
 */
module Custody {
  import opened Prelude
  import opened Encryption
  import opened Tables
  import opened Recovery
  import opened SignIn
  import opened WalletCreation
  import opened RotationRow

  type WorkerId = nat
  type JobId = nat

  /** The time lock, and the master keys the fleet is configured with during a rotation. */
  datatype Config = Config(timeLockMs: nat, keys: set<MasterKey>)

  /** Where one call of complete() stands. */
  datatype Worker =
    | Idle
    | Claimed(rid: RequestId)
    | Loaded(rid: RequestId, request: Request, wallets: map<WalletId, Wallet>)
    | Failing(rid: RequestId)

  /** A row a rotation run has read and not yet written. */
  datatype Job = Job(wallet: WalletId, row: Wallet, ring: Keyring)

  datatype State = State(
    now: Time,
    db: Db,
    usedIvs: set<Iv>,
    workers: map<WorkerId, Worker>,
    jobs: map<JobId, Job>)
  {
    function WorkerAt(p: WorkerId): Worker { if p in workers then workers[p] else Idle }
  }

  datatype Event =
    | Tick(to: Time)
    | Invite(owner: UserId, rawEmail: string, guardian: GuardianId, token: Token)
    | Confirm(token: Token)
    | Dismiss(owner: UserId, guardian: GuardianId)
    | Start(newUser: UserId, rawOldEmail: string, found: Option<UserId>, rid: RequestId, cancelToken: Token, tokens: GuardianId -> Token)
    | Describe(token: Token)
    | CastVote(token: Token, vote: Vote, mailed: bool)
    | CancelLink(token: Token)
    | WorkOsSignIn(profile: Profile, newId: Option<UserId>)
    | PasswordSignIn(user: UserId)
    | SweepExpiry
    | TakeClaim(worker: WorkerId, rid: RequestId)
    | LoadWallets(worker: WorkerId)
    | CommitTx(worker: WorkerId, ring: Keyring, ivs: WalletId -> Iv, acknowledged: bool)
    | TxFault(worker: WorkerId)
    | HandBack(worker: WorkerId)
    | Crash(worker: WorkerId)
    | NewWallet(user: UserId, chain: string, mode: SigningMode, hsmConfigured: bool, ring: Keyring,
                secret: string, hsmLabel: string, iv: Iv, id: WalletId)
    | RotationRead(job: JobId, wallet: WalletId, ring: Keyring)
    | RotationWrite(job: JobId, iv: Iv)

  ghost predicate Init(cfg: Config, s: State) {
    && s.db.guardians == map[] && s.db.requests == map[] && s.db.approvals == map[]
    && s.workers == map[] && s.jobs == map[]
    && DistinctIdentities(s.db.users)
    && (forall w :: w in s.db.wallets ==> TagNamesKey(s.db.wallets[w]) && NoncesUsed(s.db.wallets[w], s.usedIvs))
  }

  /** The unique index on workosUserId. */
  ghost predicate DistinctIdentities(users: map<UserId, User>) {
    forall u, v :: u in users && v in users && u != v && users[u].workosUserId.Some? ==>
                     users[u].workosUserId != users[v].workosUserId
  }

  /** The unique index on email. */
  ghost predicate DistinctEmails(users: map<UserId, User>) {
    forall u, v :: u in users && v in users && u != v ==> users[u].email != users[v].email
  }

  predicate NoncesUsed(w: Wallet, usedIvs: set<Iv>) {
    w.encryptedPrivateKey.Some? && w.encryptedPrivateKey.value.Sealed? ==> w.encryptedPrivateKey.value.iv in usedIvs
  }

  /** Fresh draws are fresh, ring keys are fleet keys, and a step that needs a worker or job has it. */
  ghost predicate Enabled(cfg: Config, s: State, e: Event) {
    match e
    case Tick(to) => to >= s.now
    case Invite(_, _, g, token) =>
      g !in s.db.guardians && forall h :: h in s.db.guardians ==> s.db.guardians[h].inviteTokenHash != Some(Sha256(token))
    case Start(newUser, rawOldEmail, found, rid, cancelToken, tokens) =>
      && rid !in s.db.requests
      && IsAccountLookup(s.db.users, Lower(Trim(rawOldEmail)), found)
      && (forall r :: r in s.db.requests ==> s.db.requests[r].cancelTokenHash != Sha256(cancelToken))
      && (forall g, b :: g in s.db.guardians && b in s.db.approvals ==>
                           s.db.approvals[b].tokenHash != Some(Sha256(tokens(g))))
      && (forall g, h :: g in s.db.guardians && h in s.db.guardians && g != h ==> tokens(g) != tokens(h))
    case WorkOsSignIn(_, newId) => newId.Some? ==> newId.value !in s.db.users
    case LoadWallets(p) => s.WorkerAt(p).Claimed?
    case TakeClaim(p, _) => s.WorkerAt(p).Idle?
    case CommitTx(p, ring, ivs, _) =>
      && s.WorkerAt(p).Loaded?
      && ring.current in cfg.keys
      && forall w :: w in s.WorkerAt(p).wallets ==> ivs(w) !in s.usedIvs
    case TxFault(p) => s.WorkerAt(p).Claimed? || s.WorkerAt(p).Loaded?
    case HandBack(p) => s.WorkerAt(p).Failing?
    case NewWallet(_, _, _, _, ring, _, _, iv, id) =>
      id !in s.db.wallets && ring.current in cfg.keys && iv !in s.usedIvs
    case RotationRead(_, w, ring) =>
      w in s.db.wallets && ring.current in cfg.keys && Eligible(s.db.wallets[w], ring.CurrentKeyId())
    case RotationWrite(q, iv) => q in s.jobs && iv !in s.usedIvs
    case _ => true
  }

  ghost function NextDb(cfg: Config, s: State, e: Event): Db {
    match e
    case Invite(owner, rawEmail, g, token) => AddGuardian(s.db, s.now, owner, rawEmail, g, token)
    case Confirm(token) => ConfirmInvite(s.db, s.now, token)
    case Dismiss(owner, g) => RemoveGuardian(s.db, owner, g)
    case Start(newUser, _, found, rid, cancelToken, tokens) => StartRequest(s.db, s.now, newUser, found, rid, cancelToken, tokens)
    case Describe(token) => DescribeApproval(s.db, s.now, token)
    case CastVote(token, vote, mailed) => Decide(s.db, s.now, cfg.timeLockMs, token, vote, mailed).0
    case CancelLink(token) => CancelByToken(s.db, s.now, token)
    case WorkOsSignIn(profile, newId) => LoginWithWorkOs(s.db, s.now, profile, newId).0
    case PasswordSignIn(user) => LoginWithPassword(s.db, s.now, user).0
    case SweepExpiry => ExpireOverdue(s.db, s.now)
    case TakeClaim(_, rid) => (match Claim(s.db, s.now, rid) case Some(db) => db case None => s.db)
    case CommitTx(p, ring, ivs, _) => if CanCommit(s, p, ring) then Committed(s, p, ring, ivs) else s.db
    case HandBack(p) => if s.WorkerAt(p).Failing? then Fallback(s.db, s.WorkerAt(p).rid) else s.db
    case NewWallet(user, chain, mode, hsm, ring, secret, hsmLabel, iv, id) =>
      (match CreateWallet(s.db, user, chain, mode, hsm, ring, secret, hsmLabel, iv)
       case Created(w) => s.db.(wallets := s.db.wallets[id := w])
       case _ => s.db)
    case RotationWrite(q, iv) => (match Landed(s, q, iv) case Some(wallets) => s.db.(wallets := wallets) case None => s.db)
    case _ => s.db
  }

  ghost predicate CanCommit(s: State, p: WorkerId, ring: Keyring) {
    s.WorkerAt(p).Loaded? && AllMovable(ring, s.WorkerAt(p).wallets, s.WorkerAt(p).request.oldUserId)
  }

  ghost function Committed(s: State, p: WorkerId, ring: Keyring, ivs: WalletId -> Iv): Db
    requires CanCommit(s, p, ring)
  {
    var me := s.WorkerAt(p);
    CommitMove(s.db, s.now, me.rid, me.request, me.wallets, ring, ivs)
  }

  /** The wallets table after a rotation write that lands, if it does. */
  ghost function Landed(s: State, q: JobId, iv: Iv): Option<map<WalletId, Wallet>> {
    if q !in s.jobs || s.jobs[q].row.encryptedPrivateKey.None? then None else
    var job := s.jobs[q];
    match Rotated(job.ring, job.row, iv)
    case Err(_) => None
    case Ok(write) => CompareAndSwap(s.db.wallets, job.wallet, job.row, write)
  }

  ghost function NextWorkers(s: State, e: Event): map<WorkerId, Worker> {
    match e
    case TakeClaim(p, rid) => if Claim(s.db, s.now, rid).Some? then s.workers[p := Claimed(rid)] else s.workers
    case LoadWallets(p) =>
      var me := s.WorkerAt(p);
      if !me.Claimed? then s.workers
      else if me.rid !in s.db.requests then s.workers[p := Failing(me.rid)]
      else
        var request := s.db.requests[me.rid];
        s.workers[p := Loaded(me.rid, request, WalletsOf(s.db, request.oldUserId))]
    case CommitTx(p, ring, _, acknowledged) =>
      if CanCommit(s, p, ring) && acknowledged then s.workers[p := Idle]
      else if s.WorkerAt(p).Loaded? then s.workers[p := Failing(s.WorkerAt(p).rid)]
      else s.workers
    case TxFault(p) =>
      if s.WorkerAt(p).Claimed? || s.WorkerAt(p).Loaded? then s.workers[p := Failing(s.WorkerAt(p).rid)] else s.workers
    case HandBack(p) => s.workers[p := Idle]
    case Crash(p) => s.workers[p := Idle]
    case _ => s.workers
  }

  ghost function NextJobs(s: State, e: Event): map<JobId, Job> {
    match e
    case RotationRead(q, w, ring) => if w in s.db.wallets then s.jobs[q := Job(w, s.db.wallets[w], ring)] else s.jobs
    case RotationWrite(q, _) => s.jobs - {q}
    case _ => s.jobs
  }

  ghost function NextIvs(s: State, e: Event): set<Iv> {
    match e
    case CommitTx(p, _, ivs, _) =>
      if s.WorkerAt(p).Loaded? then s.usedIvs + (set w | w in s.WorkerAt(p).wallets :: ivs(w)) else s.usedIvs
    case NewWallet(_, _, _, _, _, _, _, iv, _) => s.usedIvs + {iv}
    case RotationWrite(_, iv) => s.usedIvs + {iv}
    case _ => s.usedIvs
  }

  ghost function Next(cfg: Config, s: State, e: Event): State {
    State(if e.Tick? then e.to else s.now, NextDb(cfg, s, e), NextIvs(s, e), NextWorkers(s, e), NextJobs(s, e))
  }
}
