/** Safety of wallet keys over whole runs: recovery, rotation and creation interleaved in any order. */
module WalletTheorems {
  import opened Prelude
  import opened Encryption
  import opened Tables
  import opened Recovery
  import opened RotationRow
  import opened Custody
  import opened Invariants
  import opened Steps
  import opened WalletSteps
  import opened Runs
  import opened RecoveryTheorems

  /** The wallet's key opens for its owner under one of the fleet's master keys. */
  predicate Readable(keys: set<MasterKey>, w: Wallet) {
    Secret(w).Some? && w.encryptedPrivateKey.value.key.master in keys
  }

  lemma StepKeepsReadable(cfg: Config, run: Run, i: nat, w: WalletId)
    requires IsRun(cfg, run) && i < |run.events| && w in run.states[i].db.wallets
    ensures w in run.states[i + 1].db.wallets
    ensures Readable(cfg.keys, run.states[i].db.wallets[w]) ==> Readable(cfg.keys, run.states[i + 1].db.wallets[w])
  {
    WalletAt(cfg, run, i, w);
    var s, e := run.states[i], run.events[i];
    if ChangeOf(s, e, w).Rekeyed? {
      assert s.jobs[e.job].ring.current in cfg.keys by { Reachable(cfg, run, i); }
    } else if ChangeOf(s, e, w).Moved? {
      assert e.ring.current in cfg.keys by { assert IsStep(cfg, run, i); }
      WriterIsFleetKey(s, e, w, cfg.keys, run.states[i + 1].db.wallets[w]);
    }
  }

  /** What a commit writes is sealed by the committing server's current key, or is not sealed at all. */
  lemma WriterIsFleetKey(s: State, e: Event, w: WalletId, keys: set<MasterKey>, row': Wallet)
    requires w in s.db.wallets && TagNamesKey(s.db.wallets[w]) && ChangeOf(s, e, w).Moved? && e.ring.current in keys
    requires ChangesBy(ChangeOf(s, e, w), s.db.wallets[w], row')
    ensures Secret(s.db.wallets[w]).Some? ==> Readable(keys, row')
  {
  }

  /**
   * In every interleaving of rotation's reads and conditional writes, recovery's loads and commits and
   * wallet creation, a wallet whose ciphertext holds a key for its owner holds the same key for its owner of
   * the moment ever after, for the same account; if the fleet could open it, the fleet still can.
   */
  lemma {:induction false} KeySurvives(cfg: Config, run: Run, i: nat, j: nat, w: WalletId)
    requires IsRun(cfg, run) && i <= j < |run.states| && w in run.states[i].db.wallets
    ensures w in run.states[j].db.wallets
    ensures var row, row' := run.states[i].db.wallets[w], run.states[j].db.wallets[w];
            && row'.address == row.address && row'.chain == row.chain && row'.signingMode == row.signingMode
            && (Secret(row).Some? ==> Secret(row') == Secret(row))
            && (Readable(cfg.keys, row) ==> Readable(cfg.keys, row'))
            && (Secret(row).Some? && KeyMatchesAddress(row.chain, Secret(row).value, row.address) ==>
                  Secret(row').Some? && KeyMatchesAddress(row'.chain, Secret(row').value, row'.address))
  {
    if i < j {
      KeySurvives(cfg, run, i, j - 1, w);
      StepKeepsReadable(cfg, run, j - 1, w);
      WalletAt(cfg, run, j - 1, w);
      ChangeKeepsKey(ChangeOf(run.states[j - 1], run.events[j - 1], w), run.states[j - 1].db.wallets[w], run.states[j].db.wallets[w]);
    }
  }

  // ------------------------------------------------------------------ stale rotation writes

  lemma {:induction false} NoncesAccumulate(cfg: Config, run: Run, i: nat, j: nat)
    requires IsRun(cfg, run) && i <= j < |run.states|
    ensures run.states[i].usedIvs <= run.states[j].usedIvs
  {
    if i < j {
      NoncesAccumulate(cfg, run, i, j - 1);
      assert IsStep(cfg, run, j - 1);
    }
  }

  /** The ciphertext of wallet `w` at `j` is newer than every ciphertext that existed at `i`. */
  ghost predicate NewerThan(run: Run, i: nat, j: nat, w: WalletId)
    requires i < |run.states| && j < |run.states| && w in run.states[j].db.wallets
  {
    var ct := run.states[j].db.wallets[w].encryptedPrivateKey;
    ct.Some? && ct.value.Sealed? && ct.value.iv !in run.states[i].usedIvs
  }

  lemma RewriteIsNewer(cfg: Config, run: Run, i: nat, k: nat, w: WalletId)
    requires IsRun(cfg, run) && i <= k < |run.events| && w in run.states[k].db.wallets
    ensures w in run.states[k + 1].db.wallets
    ensures run.states[k + 1].db.wallets[w].encryptedPrivateKey != run.states[k].db.wallets[w].encryptedPrivateKey ==>
              NewerThan(run, i, k + 1, w)
    ensures run.states[k + 1].db.wallets[w].userId != run.states[k].db.wallets[w].userId
            && run.states[k].db.wallets[w].encryptedPrivateKey.Some? ==>
              run.states[k + 1].db.wallets[w].encryptedPrivateKey != run.states[k].db.wallets[w].encryptedPrivateKey
  {
    NoncesAccumulate(cfg, run, i, k);
    Reachable(cfg, run, k);
    assert IsStep(cfg, run, k);
    StepChangesWallets(cfg, run.states[k], run.events[k]);
    NewNonces(cfg, run.states[k], run.events[k], w);
  }

  lemma {:induction false} StaysNewer(cfg: Config, run: Run, i: nat, k: nat, j: nat, w: WalletId)
    requires IsRun(cfg, run) && i <= k <= j < |run.states| && w in run.states[k].db.wallets && NewerThan(run, i, k, w)
    ensures w in run.states[j].db.wallets && NewerThan(run, i, j, w)
  {
    if k < j {
      StaysNewer(cfg, run, i, k, j - 1, w);
      RewriteIsNewer(cfg, run, i, j - 1, w);
    }
  }

  /**
   * A rotation write based on a row read at or before `i` never lands once the row's ciphertext was
   * rewritten in between, by recovery or by another rotation, even if the wallet has come back to its owner.
   */
  lemma StaleRotationNeverLands(cfg: Config, run: Run, i: nat, k: nat, j: nat, q: JobId)
    requires IsRun(cfg, run) && i <= k < j < |run.events|
    requires q in run.states[i].jobs && q in run.states[j].jobs && run.states[j].jobs[q] == run.states[i].jobs[q]
    requires run.events[j].RotationWrite? && run.events[j].job == q
    requires var w := run.states[i].jobs[q].wallet;
             w in run.states[k].db.wallets && w in run.states[k + 1].db.wallets
             && (run.states[k + 1].db.wallets[w].encryptedPrivateKey != run.states[k].db.wallets[w].encryptedPrivateKey
                 || (run.states[k + 1].db.wallets[w].userId != run.states[k].db.wallets[w].userId
                     && run.states[k].db.wallets[w].encryptedPrivateKey.Some?))
    ensures run.states[j + 1].db.wallets == run.states[j].db.wallets
  {
    var job := run.states[i].jobs[q];
    RewriteIsNewer(cfg, run, i, k, job.wallet);
    StaysNewer(cfg, run, i, k + 1, j, job.wallet);
    assert NoncesUsed(job.row, run.states[i].usedIvs) by { Reachable(cfg, run, i); }
    assert IsStep(cfg, run, j);
    assert Landed(run.states[j], q, run.events[j].iv).None?;
  }

  // ------------------------------------------------------------------ retiring a master key

  /** No software wallet with key material is tagged with another key than `current`: the rotation report's zero. */
  ghost predicate NothingRemains(wallets: map<WalletId, Wallet>, current: KeyId) {
    forall w :: w in wallets ==> !Eligible(wallets[w], current)
  }

  /**
   * If at some moment no software wallet is left on another key, a service holding only the current key
   * opens every software wallet for its owner, to the very key it held at any earlier moment.
   */
  lemma RetirementIsSafe(cfg: Config, run: Run, i: nat, j: nat, ring: Keyring, w: WalletId)
    requires IsRun(cfg, run) && i <= j < |run.states|
    requires NothingRemains(run.states[j].db.wallets, ring.CurrentKeyId())
    requires w in run.states[i].db.wallets && run.states[i].db.wallets[w].signingMode == Software
             && run.states[i].db.wallets[w].encryptedPrivateKey.Some?
    ensures w in run.states[j].db.wallets && run.states[j].db.wallets[w].encryptedPrivateKey.Some?
    ensures var row, row' := run.states[i].db.wallets[w], run.states[j].db.wallets[w];
            var opened' := Open(ring.CurrentOnly(), row'.encryptedPrivateKey.value, row'.userId);
            && opened'.Ok?
            && (Secret(row).Some? ==> opened'.value.plaintext == Secret(row).value)
  {
    KeySurvives(cfg, run, i, j, w);
    HasCiphertext(cfg, run, i, j, w);
    Reachable(cfg, run, j);
    assert TagNamesKey(run.states[j].db.wallets[w]);
    assert !Eligible(run.states[j].db.wallets[w], ring.CurrentKeyId());
  }

  /** Whoever seals a key in this step seals it under the key named `current`. */
  ghost predicate SealsUnder(s: State, e: Event, current: KeyId) {
    match e
    case CommitTx(_, ring, _, _) => ring.CurrentKeyId() == current
    case NewWallet(_, _, _, _, ring, _, _, _, _) => ring.CurrentKeyId() == current
    case RotationWrite(q, _) => q in s.jobs ==> s.jobs[q].ring.CurrentKeyId() == current
    case _ => true
  }

  lemma NothingRemainsStep(cfg: Config, s: State, e: Event, current: KeyId)
    requires WalletInv(cfg, s) && Enabled(cfg, s, e) && SealsUnder(s, e, current) && NothingRemains(s.db.wallets, current)
    ensures NothingRemains(NextDb(cfg, s, e).wallets, current)
  {
    StepChangesWallets(cfg, s, e);
    var wallets' := NextDb(cfg, s, e).wallets;
    forall w | w in wallets' ensures !Eligible(wallets'[w], current) {
      if w in s.db.wallets {
        RewrittenUnder(cfg, s, e, w, current, wallets'[w]);
      } else {
        CreatedUnder(cfg, s, e, w, current);
      }
    }
  }

  lemma RewrittenUnder(cfg: Config, s: State, e: Event, w: WalletId, current: KeyId, row': Wallet)
    requires SealsUnder(s, e, current) && w in s.db.wallets && !Eligible(s.db.wallets[w], current)
    requires LoadedRows(s.workers, s.db.wallets) && TagNamesKey(s.db.wallets[w])
    requires ChangesBy(ChangeOf(s, e, w), s.db.wallets[w], row')
    ensures !Eligible(row', current)
  {
  }

  lemma CreatedUnder(cfg: Config, s: State, e: Event, w: WalletId, current: KeyId)
    requires SealsUnder(s, e, current) && e.NewWallet? && w == e.id && w in NextDb(cfg, s, e).wallets && w !in s.db.wallets
    ensures !Eligible(NextDb(cfg, s, e).wallets[w], current)
  {
  }

  /** Once no row is left on another key, none ever is again, as long as every writer seals under the new key. */
  lemma {:induction false} NothingEverRemains(cfg: Config, run: Run, j: nat, k: nat, current: KeyId)
    requires IsRun(cfg, run) && j <= k < |run.states| && NothingRemains(run.states[j].db.wallets, current)
    requires forall m :: j <= m < k ==> SealsUnder(run.states[m], run.events[m], current)
    ensures NothingRemains(run.states[k].db.wallets, current)
  {
    if j < k {
      NothingEverRemains(cfg, run, j, k - 1, current);
      assert SealsUnder(run.states[k - 1], run.events[k - 1], current);
      NothingRemainsAt(cfg, run, k - 1, current);
    }
  }

  lemma NothingRemainsAt(cfg: Config, run: Run, m: nat, current: KeyId)
    requires IsRun(cfg, run) && m < |run.events|
    requires SealsUnder(run.states[m], run.events[m], current) && NothingRemains(run.states[m].db.wallets, current)
    ensures NothingRemains(run.states[m + 1].db.wallets, current)
  {
    Reachable(cfg, run, m);
    assert IsStep(cfg, run, m);
    NothingRemainsStep(cfg, run.states[m], run.events[m], current);
  }

  /**
   * So the old keys can be retired at any later moment: at every state k from then on, the current key alone
   * opens every software wallet of that state, those created since included, to the key it held at any moment
   * before.
   */
  lemma RetirementStaysSafe(cfg: Config, run: Run, i: nat, j: nat, k: nat, ring: Keyring, w: WalletId)
    requires IsRun(cfg, run) && i <= k && j <= k < |run.states|
    requires NothingRemains(run.states[j].db.wallets, ring.CurrentKeyId())
    requires forall m :: j <= m < k ==> SealsUnder(run.states[m], run.events[m], ring.CurrentKeyId())
    requires w in run.states[i].db.wallets && run.states[i].db.wallets[w].signingMode == Software
             && run.states[i].db.wallets[w].encryptedPrivateKey.Some?
    ensures w in run.states[k].db.wallets && run.states[k].db.wallets[w].encryptedPrivateKey.Some?
    ensures var row, row' := run.states[i].db.wallets[w], run.states[k].db.wallets[w];
            var opened' := Open(ring.CurrentOnly(), row'.encryptedPrivateKey.value, row'.userId);
            && opened'.Ok?
            && (Secret(row).Some? ==> opened'.value.plaintext == Secret(row).value)
  {
    NothingEverRemains(cfg, run, j, k, ring.CurrentKeyId());
    RetirementIsSafe(cfg, run, i, k, ring, w);
  }

  lemma {:induction false} HasCiphertext(cfg: Config, run: Run, i: nat, j: nat, w: WalletId)
    requires IsRun(cfg, run) && i <= j < |run.states| && w in run.states[i].db.wallets
    ensures w in run.states[j].db.wallets
    ensures run.states[j].db.wallets[w].encryptedPrivateKey.None? == run.states[i].db.wallets[w].encryptedPrivateKey.None?
  {
    if i < j {
      HasCiphertext(cfg, run, i, j - 1, w);
      WalletAt(cfg, run, j - 1, w);
      ChangeKeepsKey(ChangeOf(run.states[j - 1], run.events[j - 1], w), run.states[j - 1].db.wallets[w], run.states[j].db.wallets[w]);
    }
  }
}
