/** A rotation run in terms of the columns of the wallets table, with no other definition in between. */
module RotationRows {
  import opened Prelude
  import opened Encryption
  import opened Tables
  import opened RotationRow
  import opened SortedIds
  import opened KeyRotation
  import opened RotationPromises

  /** A software row with key material that is not tagged with the current key: what counts as remaining. */
  predicate Remains(row: Wallet, current: MasterKey) {
    row.signingMode == Software && row.encryptedPrivateKey.Some? && row.encryptionKeyId != Some(KeyIdOf(current))
  }

  /** Some key of the ring sealed the row's key material for the row's owner. */
  predicate Opens(ring: Keyring, row: Wallet) {
    && row.encryptedPrivateKey.Some? && row.encryptedPrivateKey.value.Sealed?
    && row.encryptedPrivateKey.value.key.userId == row.userId
    && (row.encryptedPrivateKey.value.key.master == ring.current || row.encryptedPrivateKey.value.key.master in ring.previous)
  }

  /** ... and what it holds is the key of the row's address. */
  predicate Sound(ring: Keyring, row: Wallet) {
    Opens(ring, row) && KeyOfAddress(row.chain, row.encryptedPrivateKey.value.plaintext, row.address)
  }

  function Resealed(ring: Keyring, row: Wallet, iv: Iv): Wallet
    requires Opens(ring, row)
  {
    row.(encryptedPrivateKey := Some(Sealed(UserKey(ring.current, row.userId), iv, row.encryptedPrivateKey.value.plaintext)),
         encryptionKeyId := Some(KeyIdOf(ring.current)))
  }

  /** One row: sound rows are resealed, the others fail with the reason that applies. */
  lemma RotatedIs(ring: Keyring, row: Wallet, iv: Iv)
    requires row.encryptedPrivateKey.Some?
    ensures Rotated(ring, row, iv) ==
              if Sound(ring, row) then Ok(Resealed(ring, row, iv))
              else if Opens(ring, row) then Err(WrongKeyForAddress) else Err(Undecryptable)
  {
    if Opens(ring, row) {
      KeyMatchesIff(row.chain, row.encryptedPrivateKey.value.plaintext, row.address);
    }
  }

  /** The table after a run: of the rows that remain, the sound ones are resealed if the run applies; the nil row never is. */
  ghost predicate IsTableAfter(ring: Keyring, wallets: map<WalletId, Wallet>, apply: bool, ivs: WalletId -> Iv, after: map<WalletId, Wallet>) {
    && after.Keys == wallets.Keys
    && forall w :: w in wallets ==>
         after[w] == if apply && w > 0 && Remains(wallets[w], ring.current) && Sound(ring, wallets[w])
                     then Resealed(ring, wallets[w], ivs(w)) else wallets[w]
  }

  /** The report, counted on the table before the run and the table after it. */
  ghost predicate IsReport(ring: Keyring, wallets: map<WalletId, Wallet>, apply: bool, after: map<WalletId, Wallet>, report: RotationReport) {
    && report.apply == apply && report.currentKeyId == KeyIdOf(ring.current)
    && report.scanned == |set w | w in wallets && w > 0 && Remains(wallets[w], ring.current)|
    && report.rotated == |set w | w in wallets && w > 0 && Remains(wallets[w], ring.current) && Sound(ring, wallets[w])|
    && (forall f :: f in report.failed <==>
          && f.walletId in wallets && f.walletId > 0 && Remains(wallets[f.walletId], ring.current) && !Sound(ring, wallets[f.walletId])
          && f.reason == if Opens(ring, wallets[f.walletId]) then WrongKeyForAddress else Undecryptable)
    && (forall i, j :: 0 <= i < j < |report.failed| ==> report.failed[i].walletId < report.failed[j].walletId)
    && report.remainingNotOnCurrentKey == |set w | w in after && Remains(after[w], ring.current)|
    && (report.safeToRetirePreviousKeys <==>
          apply && report.failed == [] && forall w :: w in after ==> !Remains(after[w], ring.current))
  }

  lemma TableAfter(ring: Keyring, wallets: map<WalletId, Wallet>, apply: bool, ivs: WalletId -> Iv)
    ensures IsTableAfter(ring, wallets, apply, ivs, FinalTable(ring, wallets, apply, ivs))
  {
    forall w | w in wallets && wallets[w].encryptedPrivateKey.Some?
      ensures Rotates(ring, wallets[w]) <==> Sound(ring, wallets[w])
      ensures Sound(ring, wallets[w]) ==> Rotated(ring, wallets[w], ivs(w)) == Ok(Resealed(ring, wallets[w], ivs(w)))
    {
      RotatedIs(ring, wallets[w], 0);
      RotatedIs(ring, wallets[w], ivs(w));
    }
  }

  lemma {:induction false} FailuresAscend(ring: Keyring, wallets: map<WalletId, Wallet>, ids: seq<WalletId>)
    requires Ascending(ids)
    ensures forall i, j :: 0 <= i < j < |Failures(ring, wallets, ids)| ==>
              Failures(ring, wallets, ids)[i].walletId < Failures(ring, wallets, ids)[j].walletId
    ensures forall f :: f in Failures(ring, wallets, ids) ==> f.walletId in Elements(ids)
  {
    if ids != [] {
      var init, last := ids[..|ids| - 1], ids[|ids| - 1];
      LastOf(ids);
      FailuresAscend(ring, wallets, init);
      var earlier := Failures(ring, wallets, init);
      forall i | 0 <= i < |earlier| ensures earlier[i].walletId < last { assert earlier[i] in earlier; }
    }
  }

  /** The report of a run says what its columns say: the whole of it, the number of rows still remaining included. */
  lemma ReportIs(ring: Keyring, wallets: map<WalletId, Wallet>, apply: bool, ivs: WalletId -> Iv)
    ensures IsReport(ring, wallets, apply, FinalTable(ring, wallets, apply, ivs), ReportOf(ring, wallets, apply, ivs))
  {
    var report, after := ReportOf(ring, wallets, apply, ivs), FinalTable(ring, wallets, apply, ivs);
    var eligible := EligibleIds(wallets, ring.CurrentKeyId());
    ScannedAre(ring, wallets);
    RotatedAre(ring, wallets);
    FailedRows(ring, wallets, report.failed);
    FailuresAscend(ring, wallets, Sorted(eligible));
    RemainingRows(ring, after);
  }

  lemma ScannedAre(ring: Keyring, wallets: map<WalletId, Wallet>)
    ensures EligibleIds(wallets, ring.CurrentKeyId()) == set w | w in wallets && w > 0 && Remains(wallets[w], ring.current)
  {
  }

  lemma RotatedAre(ring: Keyring, wallets: map<WalletId, Wallet>)
    ensures RotatedIds(ring, wallets, EligibleIds(wallets, ring.CurrentKeyId()))
         == set w | w in wallets && w > 0 && Remains(wallets[w], ring.current) && Sound(ring, wallets[w])
  {
    forall w | w in wallets && wallets[w].encryptedPrivateKey.Some? ensures Rotates(ring, wallets[w]) <==> Sound(ring, wallets[w]) {
      RotatedIs(ring, wallets[w], 0);
    }
  }

  lemma FailedRows(ring: Keyring, wallets: map<WalletId, Wallet>, failed: seq<Failure>)
    requires failed == Failures(ring, wallets, Sorted(EligibleIds(wallets, ring.CurrentKeyId())))
    ensures forall f :: f in failed <==>
              && f.walletId in wallets && f.walletId > 0 && Remains(wallets[f.walletId], ring.current) && !Sound(ring, wallets[f.walletId])
              && f.reason == if Opens(ring, wallets[f.walletId]) then WrongKeyForAddress else Undecryptable
  {
    FailuresAreExact(ring, wallets, Sorted(EligibleIds(wallets, ring.CurrentKeyId())));
    forall f: Failure
      ensures f in failed <==>
                && f.walletId in wallets && f.walletId > 0 && Remains(wallets[f.walletId], ring.current) && !Sound(ring, wallets[f.walletId])
                && f.reason == if Opens(ring, wallets[f.walletId]) then WrongKeyForAddress else Undecryptable
    {
      EligibleIs(ring, wallets, f.walletId);
      if f.walletId in wallets && wallets[f.walletId].encryptedPrivateKey.Some? {
        FailsIs(ring, wallets, f);
      }
    }
  }

  lemma EligibleIs(ring: Keyring, wallets: map<WalletId, Wallet>, w: WalletId)
    ensures w in EligibleIds(wallets, ring.CurrentKeyId()) <==> w in wallets && w > 0 && Remains(wallets[w], ring.current)
  {
  }

  lemma FailsIs(ring: Keyring, wallets: map<WalletId, Wallet>, f: Failure)
    requires f.walletId in wallets && wallets[f.walletId].encryptedPrivateKey.Some?
    ensures Fails(ring, wallets, f) <==>
              !Sound(ring, wallets[f.walletId]) && f.reason == if Opens(ring, wallets[f.walletId]) then WrongKeyForAddress else Undecryptable
  {
    RotatedIs(ring, wallets[f.walletId], 0);
  }

  lemma RemainingRows(ring: Keyring, after: map<WalletId, Wallet>)
    ensures RemainingIds(after, ring.CurrentKeyId()) == set w | w in after && Remains(after[w], ring.current)
    ensures |RemainingIds(after, ring.CurrentKeyId())| == 0 <==> forall w :: w in after ==> !Remains(after[w], ring.current)
  {
    var remaining := RemainingIds(after, ring.CurrentKeyId());
    if |remaining| == 0 {
      forall w | w in after ensures !Remains(after[w], ring.current) {
        assert w !in remaining;
      }
    } else {
      assert remaining != {};
      var w :| w in remaining;
      assert Remains(after[w], ring.current);
    }
  }

  /** One more if the nil row, which a run never visits, remains. */
  function NilCount(wallets: map<WalletId, Wallet>, current: MasterKey): nat {
    if 0 in wallets && Remains(wallets[0], current) then 1 else 0
  }

  /** The rows that remain in a table are those a run visits and, if it remains, the nil row. */
  lemma RemainingSplit(wallets: map<WalletId, Wallet>, ring: Keyring)
    ensures |RemainingIds(wallets, ring.CurrentKeyId())| == |EligibleIds(wallets, ring.CurrentKeyId())| + NilCount(wallets, ring.current)
  {
    var all, visited := RemainingIds(wallets, ring.CurrentKeyId()), EligibleIds(wallets, ring.CurrentKeyId());
    if NilCount(wallets, ring.current) == 1 {
      assert all == visited + {NIL_ID};
    } else {
      assert all == visited;
    }
  }

  /**
   * How many rows remain: after a dry run all that were scanned, after an apply run all that failed, and in both
   * cases the nil row besides, if it is one of them.
   */
  lemma RemainingCount(ring: Keyring, wallets: map<WalletId, Wallet>, apply: bool, ivs: WalletId -> Iv)
    ensures var report := ReportOf(ring, wallets, apply, ivs);
            report.remainingNotOnCurrentKey == (if apply then |report.failed| else report.scanned) + NilCount(wallets, ring.current)
  {
    if apply {
      FailedRemain(ring, wallets, ivs);
    } else {
      RemainingSplit(wallets, ring);
    }
  }

  lemma FailedRemain(ring: Keyring, wallets: map<WalletId, Wallet>, ivs: WalletId -> Iv)
    ensures var report := ReportOf(ring, wallets, true, ivs);
            report.remainingNotOnCurrentKey == |report.failed| + NilCount(wallets, ring.current)
  {
    var after, eligible := FinalTable(ring, wallets, true, ivs), EligibleIds(wallets, ring.CurrentKeyId());
    StillEligible(ring, wallets, eligible, ivs);
    RemainingSplit(after, ring);
    FailuresAreExact(ring, wallets, Sorted(eligible));
    LessRotated(eligible, RotatedIds(ring, wallets, eligible));
    assert NIL_ID in wallets ==> after[NIL_ID] == wallets[NIL_ID];
  }

  lemma LessRotated(all: set<WalletId>, some: set<WalletId>)
    requires some <= all
    ensures |all - some| == |all| - |some|
  {
  }
}
