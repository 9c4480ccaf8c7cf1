/** What may happen to the old account's wallets between a completing transaction's load and its commit. */
module LoadToCommit {
  import opened Prelude
  import opened Encryption
  import opened Tables
  import opened Recovery
  import opened SignIn
  import opened WalletCreation
  import opened Custody
  import opened Invariants
  import opened Steps
  import opened WalletSteps
  import opened Runs
  import opened RecoveryTheorems

  ghost function Owned(s: State, u: UserId): set<WalletId> { WalletsOf(s.db, u).Keys }

  /** Step m creates a wallet for account u. */
  ghost predicate CreatesFor(s: State, e: Event, u: UserId) {
    e.NewWallet? && e.user == u
    && CreateWallet(s.db, e.user, e.chain, e.mode, e.hsmConfigured, e.ring, e.secret, e.hsmLabel, e.iv).Created?
  }

  /** Step m commits another recovery, into account u, that moves at least one wallet. */
  ghost predicate MovesInto(s: State, e: Event, u: UserId) {
    e.CommitTx? && CanCommit(s, e.worker, e.ring) && s.WorkerAt(e.worker).request.newUserId == u && s.WorkerAt(e.worker).wallets != map[]
  }

  ghost predicate Adds(s: State, e: Event, u: UserId) { CreatesFor(s, e, u) || MovesInto(s, e, u) }

  /** The transaction that commits at i loaded its wallets at l and has only waited since. */
  ghost predicate LoadsFor(run: Run, l: nat, i: nat)
    requires i < |run.events| < |run.states| && run.events[i].CommitTx?
  {
    var p := run.events[i].worker;
    && l < i && run.events[l] == LoadWallets(p)
    && forall m :: l < m <= i ==> run.states[m].WorkerAt(p) == run.states[i].WorkerAt(p)
  }

  /** Every commit has its load. */
  lemma CommitWasLoaded(cfg: Config, run: Run, i: nat, r: RequestId) returns (l: nat)
    requires IsRun(cfg, run) && i < |run.events| && CommitsAt(run, i, r)
    ensures LoadsFor(run, l, i)
  {
    l := LoadedSince(cfg, run, i, run.events[i].worker);
  }

  lemma {:induction false} LoadedSince(cfg: Config, run: Run, i: nat, p: WorkerId) returns (l: nat)
    requires IsRun(cfg, run) && i < |run.states| && run.states[i].WorkerAt(p).Loaded?
    ensures l < i && run.events[l] == LoadWallets(p)
    ensures forall m :: l < m <= i ==> run.states[m].WorkerAt(p) == run.states[i].WorkerAt(p)
  {
    assert i > 0;
    assert IsStep(cfg, run, i - 1);
    if run.states[i - 1].WorkerAt(p) == run.states[i].WorkerAt(p) {
      l := LoadedSince(cfg, run, i - 1, p);
    } else {
      LoadBegins(run.states[i - 1], run.events[i - 1], p);
      l := i - 1;
    }
  }

  lemma LoadBegins(s: State, e: Event, p: WorkerId)
    requires p in NextWorkers(s, e) && NextWorkers(s, e)[p].Loaded? && NextWorkers(s, e)[p] != s.WorkerAt(p)
    ensures e == LoadWallets(p)
  {
  }

  /** A load takes all the wallets the old account owns at that moment. */
  lemma LoadTakesAll(cfg: Config, run: Run, l: nat, i: nat, r: RequestId)
    requires IsRun(cfg, run) && i < |run.events| && CommitsAt(run, i, r) && LoadsFor(run, l, i)
    ensures var me := run.states[i].WorkerAt(run.events[i].worker);
            Owned(run.states[l + 1], me.request.oldUserId) == me.wallets.Keys
  {
    assert IsStep(cfg, run, l);
    OthersLeaveWallets(cfg, run.states[l], run.events[l]);
  }

  // ------------------------------------------------------------------ one step in between

  /** While a transaction waits to commit, no wallet leaves its old account. */
  lemma NoneLeaves(cfg: Config, run: Run, m: nat, p: WorkerId, w: WalletId)
    requires IsRun(cfg, run) && m < |run.events|
    requires var me := run.states[m].WorkerAt(p); me.Loaded? && run.states[m + 1].WorkerAt(p) == me && w in Owned(run.states[m], me.request.oldUserId)
    ensures w in Owned(run.states[m + 1], run.states[m].WorkerAt(p).request.oldUserId)
  {
    var me := run.states[m].WorkerAt(p);
    WalletAt(cfg, run, m, w);
    if run.states[m + 1].db.wallets[w].userId != run.states[m].db.wallets[w].userId {
      var q := OwnerChangesOnlyByCommit(cfg, run, m, w);
      CommitIsClaimed(cfg, run, m, q);
      SameOpenRequest(cfg, run, m, p, q);
      OneHolder(cfg, run, m, p, run.events[m].worker, q);
      CommitEndsWork(cfg, run, m, q);
    }
  }

  lemma SameOpenRequest(cfg: Config, run: Run, m: nat, p: WorkerId, q: RequestId)
    requires IsRun(cfg, run) && m < |run.states| && run.states[m].WorkerAt(p).Loaded?
    requires q in run.states[m].db.requests && run.states[m].db.requests[q].status == Completing
    requires run.states[m].db.requests[q].oldUserId == run.states[m].WorkerAt(p).request.oldUserId
    ensures run.states[m].WorkerAt(p).rid == q
  {
    Reachable(cfg, run, m);
    var me := run.states[m].workers[p];
    assert WorksOn(me, run.states[m].db.requests[me.rid]);
    if me.rid != q {
      RequestsAreOrdered(cfg, run, m, me.rid, q);
    }
  }

  lemma CommitEndsWork(cfg: Config, run: Run, m: nat, q: RequestId)
    requires IsRun(cfg, run) && m < |run.events| && CommitsAt(run, m, q)
    ensures !run.states[m + 1].WorkerAt(run.events[m].worker).Loaded?
  {
    assert IsStep(cfg, run, m);
  }

  /** A wallet that appears in an account was created for it or moved into it. */
  lemma ArrivalIsAdded(cfg: Config, run: Run, m: nat, u: UserId, w: WalletId)
    requires IsRun(cfg, run) && m < |run.events| && w in Owned(run.states[m + 1], u) && w !in Owned(run.states[m], u)
    ensures Adds(run.states[m], run.events[m], u)
  {
    if w in run.states[m].db.wallets {
      var r := OwnerChangesOnlyByCommit(cfg, run, m, w);
      CommitIsClaimed(cfg, run, m, r);
      WalletAt(cfg, run, m, w);
      assert ChangeOf(run.states[m], run.events[m], w).Moved?;
    } else {
      Reachable(cfg, run, m);
      assert IsStep(cfg, run, m);
      StepChangesWallets(cfg, run.states[m], run.events[m]);
      CreatedForUser(cfg, run.states[m], run.events[m], w);
    }
  }

  lemma CreatedForUser(cfg: Config, s: State, e: Event, w: WalletId)
    requires e.NewWallet? && w == e.id && w !in s.db.wallets && w in NextDb(cfg, s, e).wallets
    ensures CreatesFor(s, e, NextDb(cfg, s, e).wallets[w].userId)
  {
  }

  /** Whatever is created for an account, or moved into it, is new there. */
  lemma AddedIsNew(cfg: Config, run: Run, m: nat, u: UserId) returns (w: WalletId)
    requires IsRun(cfg, run) && m < |run.events| && Adds(run.states[m], run.events[m], u)
    ensures w in Owned(run.states[m + 1], u) && w !in Owned(run.states[m], u)
  {
    assert IsStep(cfg, run, m);
    var s, e := run.states[m], run.events[m];
    if CreatesFor(s, e, u) {
      w := e.id;
    } else {
      w :| w in s.WorkerAt(e.worker).wallets;
      var r := s.WorkerAt(e.worker).rid;
      assert CommitsAt(run, m, r);
      CommitTables(cfg, run, m, r);
    }
  }

  lemma GrowsIffAdded(cfg: Config, run: Run, m: nat, p: WorkerId)
    requires IsRun(cfg, run) && m < |run.events|
    requires run.states[m].WorkerAt(p).Loaded? && run.states[m + 1].WorkerAt(p) == run.states[m].WorkerAt(p)
    ensures var u := run.states[m].WorkerAt(p).request.oldUserId;
            && Owned(run.states[m], u) <= Owned(run.states[m + 1], u)
            && (Owned(run.states[m + 1], u) == Owned(run.states[m], u) <==> !Adds(run.states[m], run.events[m], u))
  {
    var u := run.states[m].WorkerAt(p).request.oldUserId;
    forall w | w in Owned(run.states[m], u) ensures w in Owned(run.states[m + 1], u) {
      NoneLeaves(cfg, run, m, p, w);
    }
    if Adds(run.states[m], run.events[m], u) {
      var w := AddedIsNew(cfg, run, m, u);
    } else {
      forall w | w in Owned(run.states[m + 1], u) ensures w in Owned(run.states[m], u) {
        if w !in Owned(run.states[m], u) { ArrivalIsAdded(cfg, run, m, u, w); }
      }
    }
  }

  // ------------------------------------------------------------------ from load to commit

  ghost predicate NoneAdded(run: Run, l: nat, i: nat, u: UserId)
    requires i <= |run.events| < |run.states|
  {
    forall m :: l < m < i ==> !Adds(run.states[m], run.events[m], u)
  }

  /** Between l and i the account's wallets only grew, and did so exactly if something was added. */
  ghost predicate Grown(run: Run, l: nat, i: nat, u: UserId)
    requires l + 1 <= i <= |run.events| < |run.states|
  {
    && Owned(run.states[l + 1], u) <= Owned(run.states[i], u)
    && (Owned(run.states[i], u) == Owned(run.states[l + 1], u) <==> NoneAdded(run, l, i, u))
  }

  lemma GrownByOne(run: Run, l: nat, i: nat, u: UserId)
    requires l + 1 < i <= |run.events| < |run.states| && Grown(run, l, i - 1, u)
    requires Owned(run.states[i - 1], u) <= Owned(run.states[i], u)
    requires Owned(run.states[i], u) == Owned(run.states[i - 1], u) <==> !Adds(run.states[i - 1], run.events[i - 1], u)
    ensures Grown(run, l, i, u)
  {
    assert NoneAdded(run, l, i, u) <==> NoneAdded(run, l, i - 1, u) && !Adds(run.states[i - 1], run.events[i - 1], u);
  }

  /** The worker holds the same loaded transaction from l + 1 to i. */
  ghost predicate Waits(run: Run, l: nat, i: nat, p: WorkerId)
    requires l < i < |run.states|
  {
    run.states[i].WorkerAt(p).Loaded? && forall m :: l < m <= i ==> run.states[m].WorkerAt(p) == run.states[i].WorkerAt(p)
  }

  lemma {:induction false} GrowsIffSomeAdded(cfg: Config, run: Run, l: nat, i: nat, p: WorkerId)
    requires IsRun(cfg, run) && l < i <= |run.events| && Waits(run, l, i, p)
    ensures Grown(run, l, i, run.states[i].WorkerAt(p).request.oldUserId)
  {
    if l + 1 < i {
      WaitedBefore(run, l, i, p);
      GrowsIffSomeAdded(cfg, run, l, i - 1, p);
      GrowsIffAdded(cfg, run, i - 1, p);
      GrownByOne(run, l, i, run.states[i].WorkerAt(p).request.oldUserId);
    }
  }

  lemma WaitedBefore(run: Run, l: nat, i: nat, p: WorkerId)
    requires l + 1 < i < |run.states| && Waits(run, l, i, p)
    ensures Waits(run, l, i - 1, p) && run.states[i - 1].WorkerAt(p) == run.states[i].WorkerAt(p)
  {
  }

  /**
   * Completing empties the old account if and only if, between the transaction's load and its commit, no wallet was
   * created for the account and no other recovery moved a wallet into it.
   */
  lemma CommitMovesAllIffNoneAdded(cfg: Config, run: Run, l: nat, i: nat, r: RequestId)
    requires IsRun(cfg, run) && i < |run.events| && CommitsAt(run, i, r) && LoadsFor(run, l, i)
    ensures r in run.states[i].db.requests
    ensures var u := run.states[i].db.requests[r].oldUserId;
            WalletsOf(run.states[i + 1].db, u) == map[] <==> NoneAdded(run, l, i, u)
  {
    CommitMovesAllIff(cfg, run, i, r);
    CommitIsClaimed(cfg, run, i, r);
    LoadTakesAll(cfg, run, l, i, r);
    GrowsIffSomeAdded(cfg, run, l, i, run.events[i].worker);
  }
}
