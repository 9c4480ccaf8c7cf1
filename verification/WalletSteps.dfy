/**
 * Wallet rows under interleaved recovery, rotation and creation: honest tags, nonces never reused,
 * and no step that loses or changes a key.
 */
module WalletSteps {
  import opened Prelude
  import opened Encryption
  import opened Tables
  import opened Recovery
  import opened SignIn
  import opened WalletCreation
  import opened RotationRow
  import opened Custody
  import opened Invariants
  import opened Steps

  /** The row still is what a transaction loaded, up to rotation: same owner, same account, same key. */
  predicate SameKeyAndOwner(loaded: Wallet, row: Wallet) {
    && row.userId == loaded.userId
    && row.address == loaded.address && row.chain == loaded.chain && row.signingMode == loaded.signingMode
    && row.encryptedPrivateKey.None? == loaded.encryptedPrivateKey.None?
    && Secret(row) == Secret(loaded)
    && (loaded.encryptedPrivateKey.None? ==> row == loaded)
  }

  ghost predicate LoadedRows(workers: map<WorkerId, Worker>, wallets: map<WalletId, Wallet>) {
    forall p, w :: p in workers && workers[p].Loaded? && w in workers[p].wallets ==> LoadedRow(workers[p], w, wallets)
  }

  /** What a transaction loaded still describes the row: it belongs to the old account and holds the same key. */
  ghost predicate LoadedRow(me: Worker, w: WalletId, wallets: map<WalletId, Wallet>)
    requires me.Loaded? && w in me.wallets
  {
    && me.wallets[w].userId == me.request.oldUserId
    && TagNamesKey(me.wallets[w])
    && w in wallets
    && SameKeyAndOwner(me.wallets[w], wallets[w])
  }

  /** A row read by rotation: if its ciphertext is still in the table, so is its owner. */
  predicate JobMatches(job: Job, wallets: map<WalletId, Wallet>, usedIvs: set<Iv>) {
    && job.row.signingMode == Software && job.row.encryptedPrivateKey.Some?
    && NoncesUsed(job.row, usedIvs)
    && job.wallet in wallets
    && var row := wallets[job.wallet];
       && row.address == job.row.address && row.chain == job.row.chain && row.signingMode == Software
       && (row.encryptedPrivateKey == job.row.encryptedPrivateKey ==> row.userId == job.row.userId)
  }

  ghost predicate WalletInv(cfg: Config, s: State) {
    && (forall w :: w in s.db.wallets ==> TagNamesKey(s.db.wallets[w]) && NoncesUsed(s.db.wallets[w], s.usedIvs))
    && LoadedRows(s.workers, s.db.wallets)
    && (forall q :: q in s.jobs ==> JobMatches(s.jobs[q], s.db.wallets, s.usedIvs) && s.jobs[q].ring.current in cfg.keys)
  }

  /** How a step may change one wallet row. */
  datatype WalletChange = Untouched | Moved(from: Wallet, ring: Keyring, request: Request, iv: Iv) | Rekeyed(job: Job, iv: Iv)

  ghost predicate ChangesBy(change: WalletChange, row: Wallet, row': Wallet) {
    match change
    case Untouched => row' == row
    case Moved(from, ring, request, iv) =>
      && from.userId == request.oldUserId && TagNamesKey(from) && SameKeyAndOwner(from, row)
      && IsMovable(ring, from, request.oldUserId)
      && row' == MovedWallet(ring, from, request.oldUserId, request.newUserId, iv)
    case Rekeyed(job, iv) =>
      && job.row.encryptedPrivateKey.Some?
      && row.encryptedPrivateKey == job.row.encryptedPrivateKey && row.userId == job.row.userId
      && row.signingMode == Software
      && Rotated(job.ring, job.row, iv).Ok?
      && row' == row.(encryptedPrivateKey := Rotated(job.ring, job.row, iv).value.encryptedPrivateKey,
                      encryptionKeyId := Rotated(job.ring, job.row, iv).value.encryptionKeyId)
  }

  /** No change of a row loses its key: account and plaintext stay, and the tag stays honest. */
  lemma ChangeKeepsKey(change: WalletChange, row: Wallet, row': Wallet)
    requires ChangesBy(change, row, row') && TagNamesKey(row)
    ensures row'.address == row.address && row'.chain == row.chain && row'.signingMode == row.signingMode
    ensures row'.encryptedPrivateKey.None? == row.encryptedPrivateKey.None?
    ensures Secret(row).Some? ==> Secret(row') == Secret(row)
    ensures !change.Moved? ==> Secret(row') == Secret(row) && row'.userId == row.userId
    ensures TagNamesKey(row')
  {
  }

  /** The change event `e` makes to wallet `w`. */
  ghost function ChangeOf(s: State, e: Event, w: WalletId): WalletChange
    requires w in s.db.wallets
  {
    match e
    case CommitTx(p, ring, ivs, _) =>
      var me := s.WorkerAt(p);
      if CanCommit(s, p, ring) && w in me.wallets then Moved(me.wallets[w], ring, me.request, ivs(w)) else Untouched
    case RotationWrite(q, iv) =>
      if Landed(s, q, iv).Some? && s.jobs[q].wallet == w then Rekeyed(s.jobs[q], iv) else Untouched
    case _ => Untouched
  }

  lemma CommitChanges(s: State, p: WorkerId, ring: Keyring, ivs: WalletId -> Iv)
    requires CanCommit(s, p, ring) && LoadedRows(s.workers, s.db.wallets)
    ensures var wallets' := Committed(s, p, ring, ivs).wallets; var me := s.WorkerAt(p);
            && wallets'.Keys == s.db.wallets.Keys
            && forall w :: w in s.db.wallets ==>
                 ChangesBy(if w in me.wallets then Moved(me.wallets[w], ring, me.request, ivs(w)) else Untouched,
                           s.db.wallets[w], wallets'[w])
  {
  }

  lemma RotationChanges(s: State, q: JobId, iv: Iv)
    requires q in s.jobs && JobMatches(s.jobs[q], s.db.wallets, s.usedIvs) && Landed(s, q, iv).Some?
    ensures var wallets' := Landed(s, q, iv).value; var job := s.jobs[q];
            && wallets'.Keys == s.db.wallets.Keys
            && (forall w :: w in s.db.wallets && w != job.wallet ==> wallets'[w] == s.db.wallets[w])
            && ChangesBy(Rekeyed(job, iv), s.db.wallets[job.wallet], wallets'[job.wallet])
  {
  }

  /** Only a commit, a rotation write and wallet creation touch the wallets table. */
  lemma OthersLeaveWallets(cfg: Config, s: State, e: Event)
    requires !e.NewWallet? && !(e.CommitTx? && CanCommit(s, e.worker, e.ring)) && !(e.RotationWrite? && Landed(s, e.job, e.iv).Some?)
    ensures NextDb(cfg, s, e).wallets == s.db.wallets
  {
    if e.CastVote? {
      VoteLeavesPeople(cfg, s, e);
    }
  }

  ghost predicate WalletsStep(s: State, e: Event, wallets': map<WalletId, Wallet>) {
    && s.db.wallets.Keys <= wallets'.Keys
    && (forall w :: w in s.db.wallets ==> ChangesBy(ChangeOf(s, e, w), s.db.wallets[w], wallets'[w]))
    && (forall w :: w in wallets' && w !in s.db.wallets ==> e.NewWallet? && w == e.id && TagNamesKey(wallets'[w])
                                                            && NoncesUsed(wallets'[w], {e.iv}))
  }

  lemma CommitStepChanges(s: State, e: Event)
    requires e.CommitTx? && CanCommit(s, e.worker, e.ring) && LoadedRows(s.workers, s.db.wallets)
    ensures WalletsStep(s, e, Committed(s, e.worker, e.ring, e.ivs).wallets)
  {
    CommitChanges(s, e.worker, e.ring, e.ivs);
    forall w | w in s.db.wallets ensures ChangeOf(s, e, w) == CommitChangeOf(s, e, w) {
    }
  }

  ghost function CommitChangeOf(s: State, e: Event, w: WalletId): WalletChange
    requires e.CommitTx? && CanCommit(s, e.worker, e.ring)
  {
    var me := s.WorkerAt(e.worker);
    if w in me.wallets then Moved(me.wallets[w], e.ring, me.request, e.ivs(w)) else Untouched
  }

  lemma RotationStepChanges(s: State, e: Event)
    requires e.RotationWrite? && e.job in s.jobs && JobMatches(s.jobs[e.job], s.db.wallets, s.usedIvs) && Landed(s, e.job, e.iv).Some?
    ensures WalletsStep(s, e, Landed(s, e.job, e.iv).value)
  {
    RotationChanges(s, e.job, e.iv);
  }

  lemma CreationChanges(cfg: Config, s: State, e: Event)
    requires e.NewWallet? && Enabled(cfg, s, e)
    ensures WalletsStep(s, e, NextDb(cfg, s, e).wallets)
  {
  }

  lemma NoChange(s: State, e: Event)
    requires !e.NewWallet? && !(e.CommitTx? && CanCommit(s, e.worker, e.ring)) && !(e.RotationWrite? && Landed(s, e.job, e.iv).Some?)
    ensures WalletsStep(s, e, s.db.wallets)
  {
  }

  lemma StepChangesWallets(cfg: Config, s: State, e: Event)
    requires WalletInv(cfg, s) && Enabled(cfg, s, e)
    ensures WalletsStep(s, e, NextDb(cfg, s, e).wallets)
  {
    if e.CommitTx? && CanCommit(s, e.worker, e.ring) {
      CommitStepChanges(s, e);
    } else if e.RotationWrite? && Landed(s, e.job, e.iv).Some? {
      RotationStepChanges(s, e);
    } else if e.NewWallet? {
      CreationChanges(cfg, s, e);
    } else {
      OthersLeaveWallets(cfg, s, e);
      NoChange(s, e);
    }
  }

  /** Two completing transactions never load the same wallet. */
  ghost predicate LoadsDisjoint(s: State) {
    forall p, q, w ::
      p in s.workers && q in s.workers && p != q && s.workers[p].Loaded? && s.workers[q].Loaded? && w in s.workers[p].wallets ==>
        w !in s.workers[q].wallets
  }

  /** One account has one open request, so two completing requests concern two accounts. */
  lemma CompletingAccountsDiffer(now: Time, requests: map<RequestId, Request>, r: RequestId, q: RequestId)
    requires Timeline(now, requests) && r in requests && q in requests && r != q
    requires requests[r].status.IsOpen() && requests[q].status.IsOpen()
    ensures requests[r].oldUserId != requests[q].oldUserId
  {
    assert RowTimeline(now, requests[r]) && RowTimeline(now, requests[q]);
    assert requests[r].oldUserId == requests[q].oldUserId ==>
             Precedes(requests[r], requests[q]) || Precedes(requests[q], requests[r]);
  }

  lemma LoadsAreDisjoint(s: State)
    requires Timeline(s.now, s.db.requests) && Claims(s) && LoadedRows(s.workers, s.db.wallets)
    ensures LoadsDisjoint(s)
  {
    forall p, q, w | p in s.workers && q in s.workers && p != q && s.workers[p].Loaded? && s.workers[q].Loaded?
                     && w in s.workers[p].wallets
      ensures w !in s.workers[q].wallets
    {
      var a, b := s.workers[p], s.workers[q];
      assert WorksOn(a, s.db.requests[a.rid]) && WorksOn(b, s.db.requests[b.rid]);
      assert Holding(a) != Holding(b);
      CompletingAccountsDiffer(s.now, s.db.requests, a.rid, b.rid);
      assert LoadedRow(a, w, s.db.wallets) && (w in b.wallets ==> LoadedRow(b, w, s.db.wallets));
    }
  }

  /** What a transaction loaded stays true of the rows until it commits, whatever else runs. */
  lemma LoadedRowKept(s: State, e: Event, p: WorkerId, w: WalletId, row': Wallet)
    requires LoadedRows(s.workers, s.db.wallets) && LoadsDisjoint(s)
    requires p in s.workers && s.workers[p].Loaded? && w in s.workers[p].wallets
    requires e.CommitTx? ==> e.worker != p
    requires w in s.db.wallets && TagNamesKey(s.db.wallets[w]) && ChangesBy(ChangeOf(s, e, w), s.db.wallets[w], row')
    ensures SameKeyAndOwner(s.workers[p].wallets[w], row')
  {
    assert LoadedRow(s.workers[p], w, s.db.wallets) && !ChangeOf(s, e, w).Moved?;
    ChangeKeepsKey(ChangeOf(s, e, w), s.db.wallets[w], row');
  }

  lemma LoadedRowsKept(cfg: Config, s: State, e: Event)
    requires LoadsDisjoint(s) && WalletInv(cfg, s) && Enabled(cfg, s, e)
    requires WalletsStep(s, e, NextDb(cfg, s, e).wallets)
    ensures LoadedRows(NextWorkers(s, e), NextDb(cfg, s, e).wallets)
  {
    var workers', wallets' := NextWorkers(s, e), NextDb(cfg, s, e).wallets;
    forall p, w | p in workers' && workers'[p].Loaded? && w in workers'[p].wallets
      ensures LoadedRow(workers'[p], w, wallets')
    {
      if e.LoadWallets? && e.worker == p {
        OthersLeaveWallets(cfg, s, e);
        FreshLoad(cfg, s, e, w);
      } else {
        LoadedBefore(s, e, p);
        LoadedRowKept(s, e, p, w, wallets'[w]);
      }
    }
  }

  lemma FreshLoad(cfg: Config, s: State, e: Event, w: WalletId)
    requires WalletInv(cfg, s) && e.LoadWallets?
    requires var me' := if e.worker in NextWorkers(s, e) then NextWorkers(s, e)[e.worker] else Idle;
             me'.Loaded? && w in me'.wallets
    requires s.WorkerAt(e.worker).Claimed?
    ensures var me' := NextWorkers(s, e)[e.worker];
            w in s.db.wallets && me'.wallets[w] == s.db.wallets[w] && me'.wallets[w].userId == me'.request.oldUserId
            && TagNamesKey(me'.wallets[w])
  {
  }

  lemma LoadedBefore(s: State, e: Event, p: WorkerId)
    requires p in NextWorkers(s, e) && NextWorkers(s, e)[p].Loaded?
    requires !(e.LoadWallets? && e.worker == p)
    ensures p in s.workers && s.workers[p] == NextWorkers(s, e)[p]
    ensures e.CommitTx? ==> e.worker != p
  {
  }

  /** A new ciphertext carries a nonce never used before, so it equals none that anyone has read. */
  lemma NewNonces(cfg: Config, s: State, e: Event, w: WalletId)
    requires WalletInv(cfg, s) && Enabled(cfg, s, e)
    requires w in s.db.wallets && WalletsStep(s, e, NextDb(cfg, s, e).wallets)
    ensures var row, row' := s.db.wallets[w], NextDb(cfg, s, e).wallets[w];
            && NoncesUsed(row', NextIvs(s, e))
            && (row'.encryptedPrivateKey != row.encryptedPrivateKey ==>
                  && row'.encryptedPrivateKey.Some? && row'.encryptedPrivateKey.value.Sealed?
                  && row'.encryptedPrivateKey.value.iv !in s.usedIvs)
            && (row'.userId != row.userId && row.encryptedPrivateKey.Some? ==>
                  row'.encryptedPrivateKey != row.encryptedPrivateKey)
  {
    var row, row' := s.db.wallets[w], NextDb(cfg, s, e).wallets[w];
    assert ChangesBy(ChangeOf(s, e, w), row, row');
    assert NoncesUsed(row, s.usedIvs) && TagNamesKey(row);
    if ChangeOf(s, e, w).Moved? {
      assert NeedsRekey(s.WorkerAt(e.worker).wallets[w]) <==> row.encryptedPrivateKey.Some?;
      MovedRow(s, e.worker, e.ring, e.ivs, w);
    }
  }

  /** A moved row without key material keeps having none. */
  lemma MovedRow(s: State, p: WorkerId, ring: Keyring, ivs: WalletId -> Iv, w: WalletId)
    requires CanCommit(s, p, ring) && w in s.WorkerAt(p).wallets
    ensures var from := s.WorkerAt(p).wallets[w]; var me := s.WorkerAt(p);
            var row' := MovedWallet(ring, from, me.request.oldUserId, me.request.newUserId, ivs(w));
            && (NeedsRekey(from) ==> row'.encryptedPrivateKey.Some? && row'.encryptedPrivateKey.value.Sealed?
                                     && row'.encryptedPrivateKey.value.iv == ivs(w))
            && (!NeedsRekey(from) ==> row'.encryptedPrivateKey == from.encryptedPrivateKey)
  {
  }

  lemma JobKept(cfg: Config, s: State, e: Event, q: JobId)
    requires WalletInv(cfg, s) && Enabled(cfg, s, e)
    requires WalletsStep(s, e, NextDb(cfg, s, e).wallets)
    requires q in s.jobs
    ensures JobMatches(s.jobs[q], NextDb(cfg, s, e).wallets, NextIvs(s, e))
  {
    var job := s.jobs[q];
    assert JobMatches(job, s.db.wallets, s.usedIvs);
    var w := job.wallet;
    ChangeKeepsKey(ChangeOf(s, e, w), s.db.wallets[w], NextDb(cfg, s, e).wallets[w]);
    NewNonces(cfg, s, e, w);
  }

  lemma JobsKept(cfg: Config, s: State, e: Event)
    requires WalletInv(cfg, s) && Enabled(cfg, s, e)
    requires WalletsStep(s, e, NextDb(cfg, s, e).wallets)
    ensures forall q :: q in NextJobs(s, e) ==>
              JobMatches(NextJobs(s, e)[q], NextDb(cfg, s, e).wallets, NextIvs(s, e)) && NextJobs(s, e)[q].ring.current in cfg.keys
  {
    forall q | q in NextJobs(s, e)
      ensures JobMatches(NextJobs(s, e)[q], NextDb(cfg, s, e).wallets, NextIvs(s, e)) && NextJobs(s, e)[q].ring.current in cfg.keys
    {
      if e.RotationRead? && e.job == q {
        OthersLeaveWallets(cfg, s, e);
      } else {
        JobKept(cfg, s, e, q);
      }
    }
  }

  /** The wallet invariants hold after every step. */
  lemma StepKeepsWallets(cfg: Config, s: State, e: Event)
    requires Timeline(s.now, s.db.requests) && Claims(s) && WalletInv(cfg, s) && Enabled(cfg, s, e)
    ensures WalletInv(cfg, Next(cfg, s, e))
  {
    StepChangesWallets(cfg, s, e);
    LoadsAreDisjoint(s);
    LoadedRowsKept(cfg, s, e);
    JobsKept(cfg, s, e);
    RowsKept(cfg, s, e);
  }

  lemma RowsKept(cfg: Config, s: State, e: Event)
    requires WalletInv(cfg, s) && Enabled(cfg, s, e) && WalletsStep(s, e, NextDb(cfg, s, e).wallets)
    ensures forall w :: w in NextDb(cfg, s, e).wallets ==>
              TagNamesKey(NextDb(cfg, s, e).wallets[w]) && NoncesUsed(NextDb(cfg, s, e).wallets[w], NextIvs(s, e))
  {
    forall w | w in NextDb(cfg, s, e).wallets
      ensures TagNamesKey(NextDb(cfg, s, e).wallets[w]) && NoncesUsed(NextDb(cfg, s, e).wallets[w], NextIvs(s, e))
    {
      if w in s.db.wallets {
        ChangeKeepsKey(ChangeOf(s, e, w), s.db.wallets[w], NextDb(cfg, s, e).wallets[w]);
        NewNonces(cfg, s, e, w);
      }
    }
  }
}
