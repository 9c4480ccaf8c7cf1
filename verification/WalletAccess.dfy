/** Releasing a key for signing, and saving a whole wallet row that was loaded earlier. */
module WalletAccess {
  import opened Prelude
  import opened Encryption
  import opened Tables
  import opened Recovery
  import opened Custody
  import opened Invariants
  import opened WalletSteps
  import opened Runs
  import opened RecoveryTheorems
  import opened WalletTheorems

  datatype AccessError = NotFound | Forbidden | HsmSigned | NoKeyMaterial | Undecryptable

  /** getDecryptedPrivateKey: the only place where a stored key becomes plaintext. */
  function PrivateKeyFor(wallets: map<WalletId, Wallet>, ring: Keyring, id: WalletId, user: UserId): Result<string, AccessError> {
    if id !in wallets then Err(NotFound)
    else if wallets[id].userId != user then Err(Forbidden)
    else if wallets[id].signingMode == Hsm then Err(HsmSigned)
    else if wallets[id].encryptedPrivateKey.None? then Err(NoKeyMaterial)
    else
      match Open(ring, wallets[id].encryptedPrivateKey.value, user)
      case Ok(found) => Ok(found.plaintext)
      case Err(_) => Err(Undecryptable)
  }

  /**
   * However recovery, rotation and wallet creation interleave, a software wallet the fleet could open gives its
   * key, always the same one, to whoever owns it at the moment, and to nobody else.
   */
  lemma KeyFollowsOwner(cfg: Config, run: Run, i: nat, j: nat, w: WalletId, ring: Keyring, user: UserId)
    requires IsRun(cfg, run) && i <= j < |run.states| && w in run.states[i].db.wallets
    requires run.states[i].db.wallets[w].signingMode == Software && Readable(cfg.keys, run.states[i].db.wallets[w])
    requires forall k :: k in cfg.keys ==> ring.Accepts(k)
    ensures w in run.states[j].db.wallets
    ensures PrivateKeyFor(run.states[j].db.wallets, ring, w, user)
         == if user == run.states[j].db.wallets[w].userId then Ok(Secret(run.states[i].db.wallets[w]).value) else Err(Forbidden)
  {
    KeySurvives(cfg, run, i, j, w);
  }

  // ------------------------------------------------------------------ whole-row saves

  /** Saving a loaded entity writes back every modelled column, whatever the row holds by now. */
  function Saved(wallets: map<WalletId, Wallet>, id: WalletId, loaded: Wallet): map<WalletId, Wallet> {
    wallets[id := loaded]
  }

  /** A step that changes a row with key material gives it a ciphertext under a nonce never used before. */
  lemma ChangeDrawsNonce(cfg: Config, s: State, e: Event, w: WalletId, row': Wallet)
    requires Enabled(cfg, s, e) && w in s.db.wallets && TagNamesKey(s.db.wallets[w])
    requires s.db.wallets[w].encryptedPrivateKey.Some?
    requires ChangesBy(ChangeOf(s, e, w), s.db.wallets[w], row')
    ensures row'.encryptedPrivateKey.Some?
    ensures row' != s.db.wallets[w] ==>
              row'.encryptedPrivateKey.value.Sealed? && row'.encryptedPrivateKey.value.iv !in s.usedIvs
  {
  }

  lemma ChangeIsNewer(cfg: Config, run: Run, i: nat, k: nat, w: WalletId)
    requires IsRun(cfg, run) && i <= k < |run.events| && w in run.states[k].db.wallets
    requires run.states[k].db.wallets[w].encryptedPrivateKey.Some?
    ensures w in run.states[k + 1].db.wallets && run.states[k + 1].db.wallets[w].encryptedPrivateKey.Some?
    ensures run.states[k + 1].db.wallets[w] != run.states[k].db.wallets[w] ==> NewerThan(run, i, k + 1, w)
  {
    WalletAt(cfg, run, k, w);
    NoncesAccumulate(cfg, run, i, k);
    assert IsStep(cfg, run, k);
    ChangeDrawsNonce(cfg, run.states[k], run.events[k], w, run.states[k + 1].db.wallets[w]);
  }

  /** The row was not rewritten between two states. */
  ghost predicate Untroubled(run: Run, i: nat, j: nat, w: WalletId)
    requires i <= j < |run.states| && w in run.states[i].db.wallets
  {
    forall k :: i <= k <= j ==> w in run.states[k].db.wallets && run.states[k].db.wallets[w] == run.states[i].db.wallets[w]
  }

  /**
   * When a whole-row save at j of a row loaded at i leaves the table alone. A row with key material: exactly when
   * nothing rewrote it in between, since every rewrite draws a new nonce. A row without (an HSM wallet): exactly
   * when its owner is the owner it was loaded with, even if it was moved away and back. Either way a row that
   * nothing rewrote is saved without harm.
   */
  lemma SaveIsHarmlessIff(cfg: Config, run: Run, i: nat, j: nat, w: WalletId)
    requires IsRun(cfg, run) && i <= j < |run.states| && w in run.states[i].db.wallets
    ensures w in run.states[j].db.wallets
    ensures Saved(run.states[j].db.wallets, w, run.states[i].db.wallets[w]) == run.states[j].db.wallets <==>
              if run.states[i].db.wallets[w].encryptedPrivateKey.Some? then Untroubled(run, i, j, w)
              else run.states[j].db.wallets[w].userId == run.states[i].db.wallets[w].userId
    ensures Untroubled(run, i, j, w) ==> Saved(run.states[j].db.wallets, w, run.states[i].db.wallets[w]) == run.states[j].db.wallets
  {
    if run.states[i].db.wallets[w].encryptedPrivateKey.Some? {
      NewerOrUntroubled(cfg, run, i, j, w);
      assert NoncesUsed(run.states[i].db.wallets[w], run.states[i].usedIvs) by { Reachable(cfg, run, i); }
    } else {
      KeylessRowChangesOwnerOnly(cfg, run, i, j, w);
    }
    assert Saved(run.states[j].db.wallets, w, run.states[i].db.wallets[w])[w] == run.states[i].db.wallets[w];
  }

  /** Recovery changes the owner of a row without key material and nothing else; rotation does not touch it. */
  lemma {:induction false} KeylessRowChangesOwnerOnly(cfg: Config, run: Run, i: nat, j: nat, w: WalletId)
    requires IsRun(cfg, run) && i <= j < |run.states| && w in run.states[i].db.wallets
    requires run.states[i].db.wallets[w].encryptedPrivateKey.None?
    ensures w in run.states[j].db.wallets
    ensures run.states[j].db.wallets[w] == run.states[i].db.wallets[w].(userId := run.states[j].db.wallets[w].userId)
  {
    if i < j {
      KeylessRowChangesOwnerOnly(cfg, run, i, j - 1, w);
      WalletAt(cfg, run, j - 1, w);
      KeylessChange(ChangeOf(run.states[j - 1], run.events[j - 1], w), run.states[j - 1].db.wallets[w], run.states[j].db.wallets[w]);
    }
  }

  lemma KeylessChange(change: WalletChange, row: Wallet, row': Wallet)
    requires ChangesBy(change, row, row') && row.encryptedPrivateKey.None?
    ensures row' == row.(userId := row'.userId)
  {
  }

  lemma {:induction false} NewerOrUntroubled(cfg: Config, run: Run, i: nat, j: nat, w: WalletId)
    requires IsRun(cfg, run) && i <= j < |run.states| && w in run.states[i].db.wallets
    requires run.states[i].db.wallets[w].encryptedPrivateKey.Some?
    ensures w in run.states[j].db.wallets && run.states[j].db.wallets[w].encryptedPrivateKey.Some?
    ensures NewerThan(run, i, j, w) || Untroubled(run, i, j, w)
  {
    if i < j {
      NewerOrUntroubled(cfg, run, i, j - 1, w);
      ChangeIsNewer(cfg, run, i, j - 1, w);
      if NewerThan(run, i, j - 1, w) {
        StaysNewer(cfg, run, i, j - 1, j, w);
      }
    }
  }

  /** A save that straddles a recovery hands the moved wallet back to the account the recovery locked. */
  lemma SaveUndoesRecovery(cfg: Config, run: Run, i: nat, k: nat, j: nat, w: WalletId, r: RequestId)
    requires IsRun(cfg, run) && i <= k < j < |run.states| && CommitsAt(run, k, r)
    requires w in run.states[i].db.wallets && w in run.states[k].db.wallets && w in run.states[k + 1].db.wallets
    requires run.states[i].db.wallets[w].userId == run.states[k].db.wallets[w].userId != run.states[k + 1].db.wallets[w].userId
    ensures var row := Saved(run.states[j].db.wallets, w, run.states[i].db.wallets[w])[w];
            && IsLocked(run.states[j].db.users, row.userId)
            && r in run.states[k].db.requests && row.userId == run.states[k].db.requests[r].oldUserId
  {
    var q := OwnerChangesOnlyByCommit(cfg, run, k, w);
    CommitCompletes(cfg, run, k, r);
    RequestIdentity(cfg, run, k, k + 1, r);
    var u := run.states[k].db.requests[r].oldUserId;
    assert IsLocked(run.states[k + 1].db.users, u) by { Reachable(cfg, run, k + 1); }
    UserForever(cfg, run, k + 1, j, u);
  }
}
