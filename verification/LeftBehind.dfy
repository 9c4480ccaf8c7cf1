/** What the recovery tables promise a caller in every run, and the one promise of completion that a race breaks. */
module LeftBehind {
  import opened Prelude
  import opened Encryption
  import opened Tables
  import opened Recovery
  import opened SignIn
  import opened WalletCreation
  import opened Custody
  import opened Invariants
  import opened Steps
  import opened WalletSteps
  import opened Runs

  /**
   * In every reachable state each owner has at most five pending or active guardians, at distinct addresses,
   * and a request that starts has at least as many voters as approvals it needs: the branch that refuses a
   * requester for being a guardian is never taken.
   */
  lemma VoteIsWinnable(cfg: Config, run: Run, i: nat, newUser: UserId, found: Option<UserId>)
    requires IsRun(cfg, run) && i < |run.states|
    ensures forall owner :: |Circle(run.states[i].db.guardians, owner)| <= MAX_GUARDIANS
    ensures Circles(run.states[i].db.guardians)
    ensures var reply := StartRequestReply(run.states[i].db, run.states[i].now, newUser, found);
            reply != RequesterIsGuardian && (reply.Started? ==> 2 <= reply.threshold <= |reply.voters| <= MAX_GUARDIANS)
  {
    Reachable(cfg, run, i);
    RequesterNeverStarvesVote(run.states[i].db, run.states[i].now, newUser, found);
  }

  /** A wallet the old account creates while the transaction is between its load and its commit. */
  function LateWallet(oldUser: UserId, ring: Keyring, iv: Iv, id: WalletId): Event {
    NewWallet(oldUser, "polygon", Software, false, ring, "late secret", "", iv, id)
  }

  lemma LateWalletIsCreated(s: State, oldUser: UserId, ring: Keyring, iv: Iv)
    requires forall w :: w in s.db.wallets && s.db.wallets[w].userId == oldUser ==> s.db.wallets[w].chain != "polygon"
    ensures CreateWallet(s.db, oldUser, "polygon", Software, false, ring, "late secret", "", iv)
         == Created(Wallet(oldUser, Derived(Evm, "late secret"), "polygon", Software,
                           Some(Encrypt(ring, "late secret", oldUser, iv)), Some(ring.CurrentKeyId())))
  {
    assert Lower("polygon") == "polygon";
  }

  /**
   * Whenever a completing transaction has loaded an account without a polygon wallet, the run can go on so that
   * the account gains one before the commit: the recovery completes, the account is locked, and that wallet
   * stays with the locked account.
   */
  lemma WalletLeftBehind(cfg: Config, run: Run, p: WorkerId, ring: Keyring, ivs: WalletId -> Iv, iv: Iv, id: WalletId)
    requires IsRun(cfg, run)
    requires CanCommit(run.states[|run.events|], p, ring) && ring.current in cfg.keys
    requires var s := run.states[|run.events|]; var me := s.WorkerAt(p);
             && id !in s.db.wallets && iv !in s.usedIvs
             && (forall w :: w in me.wallets ==> ivs(w) !in s.usedIvs && ivs(w) != iv)
             && (forall w :: w in s.db.wallets && s.db.wallets[w].userId == me.request.oldUserId ==> s.db.wallets[w].chain != "polygon")
    ensures var s := run.states[|run.events|]; var oldUser := s.WorkerAt(p).request.oldUserId;
            var s1 := Next(cfg, s, LateWallet(oldUser, ring, iv, id));
            var s2 := Next(cfg, s1, CommitTx(p, ring, ivs, true));
            && IsRun(cfg, Run(run.states + [s1, s2], run.events + [LateWallet(oldUser, ring, iv, id), CommitTx(p, ring, ivs, true)]))
            && id in s2.db.wallets && s2.db.wallets[id].userId == oldUser
            && IsLocked(s2.db.users, oldUser)
  {
    var s := run.states[|run.events|];
    var oldUser := s.WorkerAt(p).request.oldUserId;
    var late, commit := LateWallet(oldUser, ring, iv, id), CommitTx(p, ring, ivs, true);
    var s1 := Next(cfg, s, late);
    Reachable(cfg, run, |run.events|);
    LoadedKeys(cfg, s, p, id);
    LateStep(cfg, s, p, ring, ivs, iv, id);
    CommitStep(cfg, s1, p, ring, ivs, id);
    CommitLocks(cfg, run, p, s1, ring, ivs);
    ExtendsTwice(cfg, run, late, commit);
  }

  lemma LateStep(cfg: Config, s: State, p: WorkerId, ring: Keyring, ivs: WalletId -> Iv, iv: Iv, id: WalletId)
    requires CanCommit(s, p, ring) && ring.current in cfg.keys && id !in s.db.wallets && iv !in s.usedIvs
    requires var me := s.WorkerAt(p);
             && (forall w :: w in me.wallets ==> ivs(w) !in s.usedIvs && ivs(w) != iv)
             && (forall w :: w in s.db.wallets && s.db.wallets[w].userId == me.request.oldUserId ==> s.db.wallets[w].chain != "polygon")
    ensures var oldUser := s.WorkerAt(p).request.oldUserId; var late := LateWallet(oldUser, ring, iv, id); var s1 := Next(cfg, s, late);
            && Enabled(cfg, s, late)
            && Enabled(cfg, s1, CommitTx(p, ring, ivs, true))
            && s1.WorkerAt(p) == s.WorkerAt(p) && CanCommit(s1, p, ring) && s1.db.users == s.db.users
            && id in s1.db.wallets && s1.db.wallets[id].userId == oldUser
  {
    LateWalletIsCreated(s, s.WorkerAt(p).request.oldUserId, ring, iv);
  }

  lemma CommitStep(cfg: Config, s: State, p: WorkerId, ring: Keyring, ivs: WalletId -> Iv, id: WalletId)
    requires CanCommit(s, p, ring) && id in s.db.wallets && id !in s.WorkerAt(p).wallets
    ensures Next(cfg, s, CommitTx(p, ring, ivs, true)).db == Committed(s, p, ring, ivs)
    ensures id in Committed(s, p, ring, ivs).wallets && Committed(s, p, ring, ivs).wallets[id] == s.db.wallets[id]
  {
  }

  lemma ExtendsTwice(cfg: Config, run: Run, e1: Event, e2: Event)
    requires IsRun(cfg, run)
    requires var s := run.states[|run.events|]; Enabled(cfg, s, e1) && Enabled(cfg, Next(cfg, s, e1), e2)
    ensures var s1 := Next(cfg, run.states[|run.events|], e1);
            IsRun(cfg, Run(run.states + [s1, Next(cfg, s1, e2)], run.events + [e1, e2]))
  {
    var s1 := Next(cfg, run.states[|run.events|], e1);
    var s2 := Next(cfg, s1, e2);
    Extends(cfg, run, e1);
    Extends(cfg, Run(run.states + [s1], run.events + [e1]), e2);
    assert run.states + [s1] + [s2] == run.states + [s1, s2] && run.events + [e1] + [e2] == run.events + [e1, e2];
  }

  lemma Extends(cfg: Config, run: Run, e: Event)
    requires IsRun(cfg, run) && Enabled(cfg, run.states[|run.events|], e)
    ensures IsRun(cfg, Run(run.states + [Next(cfg, run.states[|run.events|], e)], run.events + [e]))
  {
    var n := |run.events|;
    var longer := Run(run.states + [Next(cfg, run.states[n], e)], run.events + [e]);
    forall i | 0 <= i < |longer.events|
      ensures IsStep(cfg, longer, i)
    {
      if i < n { assert IsStep(cfg, run, i); }
    }
  }

  lemma LoadedKeys(cfg: Config, s: State, p: WorkerId, id: WalletId)
    requires WalletInv(cfg, s) && s.WorkerAt(p).Loaded? && id !in s.db.wallets
    ensures id !in s.WorkerAt(p).wallets
  {
    assert id in s.workers[p].wallets ==> LoadedRow(s.workers[p], id, s.db.wallets);
  }

  lemma CommitLocks(cfg: Config, run: Run, p: WorkerId, s1: State, ring: Keyring, ivs: WalletId -> Iv)
    requires IsRun(cfg, run)
    requires var s := run.states[|run.events|]; s.WorkerAt(p).Loaded? && s1.WorkerAt(p) == s.WorkerAt(p) && s1.db.users == s.db.users
    requires CanCommit(s1, p, ring)
    ensures IsLocked(Committed(s1, p, ring, ivs).users, s1.WorkerAt(p).request.oldUserId)
  {
    var s := run.states[|run.events|];
    Reachable(cfg, run, |run.events|);
    assert WorksOn(s.workers[p], s.db.requests[s.workers[p].rid]);
  }
}
