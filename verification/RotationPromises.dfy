/** What operators rely on about rotation runs with no concurrent writer. */
module RotationPromises {
  import opened Prelude
  import opened Encryption
  import opened Tables
  import opened RotationRow
  import opened SortedIds
  import opened KeyRotation

  // ------------------------------------------------------------------ the report

  predicate Fails(ring: Keyring, wallets: map<WalletId, Wallet>, f: Failure) {
    && f.walletId in wallets && wallets[f.walletId].encryptedPrivateKey.Some?
    && Rotated(ring, wallets[f.walletId], 0) == Err(f.reason)
  }

  /** Taking the last id off an ascending list. */
  lemma LastOf(ids: seq<WalletId>)
    requires Ascending(ids) && ids != []
    ensures var init, last := ids[..|ids| - 1], ids[|ids| - 1];
            && Ascending(init) && ids == init + [last]
            && Elements(ids) == Elements(init) + {last}
            && (forall w :: w in Elements(init) ==> w < last)
  {
    var init, last := ids[..|ids| - 1], ids[|ids| - 1];
    assert ids == init + [last];
    forall w | w in Elements(init) ensures w < last {
      var i :| 0 <= i < |init| && init[i] == w;
      assert ids[i] == w;
    }
    Append(init, last);
  }

  /** The failures listed for some rows are exactly the rows that fail, each with its reason, and nothing is lost. */
  lemma {:induction false} FailuresAreExact(ring: Keyring, wallets: map<WalletId, Wallet>, ids: seq<WalletId>)
    requires Ascending(ids)
    requires forall w :: w in Elements(ids) ==> w in wallets && wallets[w].encryptedPrivateKey.Some?
    ensures |ids| == |RotatedIds(ring, wallets, Elements(ids))| + |Failures(ring, wallets, ids)|
    ensures forall f :: f in Failures(ring, wallets, ids) <==> f.walletId in Elements(ids) && Fails(ring, wallets, f)
  {
    if ids == [] {
      assert RotatedIds(ring, wallets, Elements(ids)) == {};
    } else {
      var init, last := ids[..|ids| - 1], ids[|ids| - 1];
      LastOf(ids);
      FailuresAreExact(ring, wallets, init);
      OneMoreCounted(ring, wallets, Elements(init), last);
      OneMoreListed(ring, wallets, ids, init, last);
    }
  }

  lemma OneMoreListed(ring: Keyring, wallets: map<WalletId, Wallet>, ids: seq<WalletId>, init: seq<WalletId>, last: WalletId)
    requires ids != [] && init == ids[..|ids| - 1] && last == ids[|ids| - 1]
    requires last in wallets && wallets[last].encryptedPrivateKey.Some?
    ensures Failures(ring, wallets, ids) == Failures(ring, wallets, init)
            + if Rotates(ring, wallets[last]) then [] else [Failure(last, Rotated(ring, wallets[last], 0).error)]
  {
  }

  /**
   * Every row scanned is either rotated or reported as failed with its reason, never both; failed rows are
   * byte for byte unchanged; rows that were not eligible are not touched at all.
   */
  lemma ReportBalances(ring: Keyring, wallets: map<WalletId, Wallet>, apply: bool, ivs: WalletId -> Iv)
    ensures var report := ReportOf(ring, wallets, apply, ivs); var after := FinalTable(ring, wallets, apply, ivs);
            && report.scanned == report.rotated + |report.failed|
            && (forall f :: f in report.failed ==>
                  f.walletId in EligibleIds(wallets, ring.CurrentKeyId()) && Fails(ring, wallets, f)
                  && f.walletId in after && after[f.walletId] == wallets[f.walletId])
            && (forall w :: w in EligibleIds(wallets, ring.CurrentKeyId()) && !Rotates(ring, wallets[w]) ==>
                  exists reason :: Failure(w, reason) in report.failed)
            && (forall w :: w in wallets && w !in EligibleIds(wallets, ring.CurrentKeyId()) ==> after[w] == wallets[w])
  {
    var eligible := EligibleIds(wallets, ring.CurrentKeyId());
    FailuresAreExact(ring, wallets, Sorted(eligible));
    forall w | w in eligible && !Rotates(ring, wallets[w])
      ensures exists reason :: Failure(w, reason) in ReportOf(ring, wallets, apply, ivs).failed
    {
      assert Fails(ring, wallets, Failure(w, Rotated(ring, wallets[w], 0).error));
    }
  }

  // ------------------------------------------------------------------ dry runs, interruptions and repeats

  /** The same row up to the nonces drawn: same owner, account, tag and sealed key. */
  predicate SameButForNonce(a: Wallet, b: Wallet) {
    || a == b
    || (&& a.(encryptedPrivateKey := None) == b.(encryptedPrivateKey := None)
        && a.encryptedPrivateKey.Some? && a.encryptedPrivateKey.value.Sealed?
        && b.encryptedPrivateKey.Some? && b.encryptedPrivateKey.value.Sealed?
        && a.encryptedPrivateKey.value.key == b.encryptedPrivateKey.value.key
        && a.encryptedPrivateKey.value.plaintext == b.encryptedPrivateKey.value.plaintext)
  }

  /** What is still eligible after some rows were tried: the rest, and those that failed. */
  lemma StillEligible(ring: Keyring, wallets: map<WalletId, Wallet>, tried: set<WalletId>, ivs: WalletId -> Iv)
    requires tried <= EligibleIds(wallets, ring.CurrentKeyId())
    ensures EligibleIds(AfterRotation(ring, wallets, tried, ivs), ring.CurrentKeyId())
         == EligibleIds(wallets, ring.CurrentKeyId()) - RotatedIds(ring, wallets, tried)
    ensures RemainingIds(AfterRotation(ring, wallets, tried, ivs), ring.CurrentKeyId())
         == RemainingIds(wallets, ring.CurrentKeyId()) - RotatedIds(ring, wallets, tried)
  {
    forall w | w in wallets && w in tried && Rotates(ring, wallets[w])
      ensures !Eligible(AfterRotation(ring, wallets, tried, ivs)[w], ring.CurrentKeyId())
    {
      SameVerdict(ring, wallets[w], ivs(w));
    }
  }

  /**
   * An apply run stopped after any rows and run again ends, up to nonces, with the table one uninterrupted
   * run would have left.
   */
  lemma ResumingIsHarmless(ring: Keyring, wallets: map<WalletId, Wallet>, tried: set<WalletId>, ivs: WalletId -> Iv, ivs2: WalletId -> Iv)
    requires tried <= EligibleIds(wallets, ring.CurrentKeyId())
    ensures var whole := FinalTable(ring, wallets, true, ivs);
            var resumed := FinalTable(ring, AfterRotation(ring, wallets, tried, ivs), true, ivs2);
            resumed.Keys == whole.Keys == wallets.Keys && forall w :: w in wallets ==> SameButForNonce(resumed[w], whole[w])
  {
    StillEligible(ring, wallets, tried, ivs);
    var middle := AfterRotation(ring, wallets, tried, ivs);
    var whole, resumed := FinalTable(ring, wallets, true, ivs), FinalTable(ring, middle, true, ivs2);
    forall w | w in wallets ensures SameButForNonce(resumed[w], whole[w]) {
      SameVerdict(ring, wallets[w].(encryptedPrivateKey := Some(Unreadable(""))), 0);
      if w in EligibleIds(wallets, ring.CurrentKeyId()) {
        SameVerdict(ring, wallets[w], ivs(w));
        SameVerdict(ring, wallets[w], ivs2(w));
      }
    }
  }

  /** A second full apply rotates nothing and scans again only the rows that failed, with the same reasons. */
  lemma SecondApplyIsIdle(ring: Keyring, wallets: map<WalletId, Wallet>, ivs: WalletId -> Iv, ivs2: WalletId -> Iv)
    ensures var first := ReportOf(ring, wallets, true, ivs);
            var after := FinalTable(ring, wallets, true, ivs);
            var second := ReportOf(ring, after, true, ivs2);
            && second.rotated == 0
            && second.scanned == |first.failed|
            && second.failed == first.failed
            && FinalTable(ring, after, true, ivs2) == after
  {
    var eligible := EligibleIds(wallets, ring.CurrentKeyId());
    var after := FinalTable(ring, wallets, true, ivs);
    var failing := EligibleIds(after, ring.CurrentKeyId());
    OnlyFailuresRemain(ring, wallets, ivs);
    FailuresAreExact(ring, after, Sorted(failing));
    SameFailures(ring, wallets, after, Sorted(eligible), Sorted(failing));
    NothingToWrite(ring, after, failing, ivs2);
  }

  lemma OnlyFailuresRemain(ring: Keyring, wallets: map<WalletId, Wallet>, ivs: WalletId -> Iv)
    ensures var eligible := EligibleIds(wallets, ring.CurrentKeyId()); var after := FinalTable(ring, wallets, true, ivs);
            var failing := EligibleIds(after, ring.CurrentKeyId());
            && failing == eligible - RotatedIds(ring, wallets, eligible)
            && (forall w :: w in failing ==> w in wallets && w in after && after[w] == wallets[w] && !Rotates(ring, wallets[w]))
  {
    StillEligible(ring, wallets, EligibleIds(wallets, ring.CurrentKeyId()), ivs);
  }

  lemma NothingToWrite(ring: Keyring, wallets: map<WalletId, Wallet>, visited: set<WalletId>, ivs: WalletId -> Iv)
    requires forall w :: w in visited && w in wallets ==> !Rotates(ring, wallets[w])
    ensures AfterRotation(ring, wallets, visited, ivs) == wallets && RotatedIds(ring, wallets, visited) == {}
  {
  }

  /** Trying only the failing rows of `ids`, unchanged, fails in the same way in the same order. */
  lemma {:induction false} SameFailures(ring: Keyring, wallets: map<WalletId, Wallet>, after: map<WalletId, Wallet>,
                                        ids: seq<WalletId>, failing: seq<WalletId>)
    requires Ascending(ids) && Ascending(failing)
    requires forall w :: w in Elements(ids) ==> w in wallets && wallets[w].encryptedPrivateKey.Some?
    requires Elements(failing) == Elements(ids) - RotatedIds(ring, wallets, Elements(ids))
    requires forall w :: w in Elements(failing) ==> w in after && after[w] == wallets[w]
    ensures Failures(ring, after, failing) == Failures(ring, wallets, ids)
    decreases |ids|
  {
    if ids == [] {
      NoElements(failing);
    } else {
      var init, last := ids[..|ids| - 1], ids[|ids| - 1];
      LastOf(ids);
      if Rotates(ring, wallets[last]) {
        SkipRotated(ring, wallets, Elements(init), last);
        SameFailures(ring, wallets, after, init, failing);
      } else {
        LastFailing(ring, wallets, init, last, failing);
        SameFailures(ring, wallets, after, init, failing[..|failing| - 1]);
      }
    }
  }

  lemma SkipRotated(ring: Keyring, wallets: map<WalletId, Wallet>, init: set<WalletId>, last: WalletId)
    requires last in wallets && Rotates(ring, wallets[last])
    ensures init + {last} - RotatedIds(ring, wallets, init + {last}) == init - RotatedIds(ring, wallets, init)
  {
  }

  lemma LastFailing(ring: Keyring, wallets: map<WalletId, Wallet>, init: seq<WalletId>, last: WalletId, failing: seq<WalletId>)
    requires Ascending(failing) && forall w :: w in Elements(init) ==> w < last
    requires last in wallets && !Rotates(ring, wallets[last])
    requires Elements(failing) == Elements(init) + {last} - RotatedIds(ring, wallets, Elements(init) + {last})
    ensures failing != [] && failing[|failing| - 1] == last
    ensures Ascending(failing[..|failing| - 1])
    ensures Elements(failing[..|failing| - 1]) == Elements(init) - RotatedIds(ring, wallets, Elements(init))
  {
    assert last in Elements(failing);
    LastOf(failing);
    var top := failing[|failing| - 1];
    assert top in Elements(failing);
    assert top == last;
  }

  // ------------------------------------------------------------------ retiring the old keys

  lemma NoFailuresMeans(ring: Keyring, wallets: map<WalletId, Wallet>, ids: seq<WalletId>)
    requires Ascending(ids)
    requires forall w :: w in Elements(ids) ==> w in wallets && wallets[w].encryptedPrivateKey.Some?
    ensures Failures(ring, wallets, ids) == [] <==> forall w :: w in Elements(ids) ==> Rotates(ring, wallets[w])
  {
    FailuresAreExact(ring, wallets, ids);
    var failed := Failures(ring, wallets, ids);
    if failed == [] {
      forall w | w in Elements(ids) ensures Rotates(ring, wallets[w]) {
        assert !Rotates(ring, wallets[w]) ==> Fails(ring, wallets, Failure(w, Rotated(ring, wallets[w], 0).error));
      }
    } else {
      assert failed[0] in failed && Fails(ring, wallets, failed[0]);
    }
  }

  /** The verdict says exactly: an apply run, every software row (nil id included) ends on the current key. */
  lemma VerdictMeans(ring: Keyring, wallets: map<WalletId, Wallet>, apply: bool, ivs: WalletId -> Iv)
    ensures ReportOf(ring, wallets, apply, ivs).safeToRetirePreviousKeys <==>
            apply && RemainingIds(FinalTable(ring, wallets, apply, ivs), ring.CurrentKeyId()) == {}
    ensures ReportOf(ring, wallets, apply, ivs).safeToRetirePreviousKeys <==>
            apply && forall w :: w in RemainingIds(wallets, ring.CurrentKeyId()) ==> w > NIL_ID && Rotates(ring, wallets[w])
  {
    var current := ring.CurrentKeyId();
    var eligible := EligibleIds(wallets, current);
    if apply {
      StillEligible(ring, wallets, eligible, ivs);
      NoFailuresMeans(ring, wallets, Sorted(eligible));
      var remaining := RemainingIds(FinalTable(ring, wallets, apply, ivs), current);
      assert remaining == RemainingIds(wallets, current) - RotatedIds(ring, wallets, eligible);
      assert remaining == {} <==> forall w :: w in RemainingIds(wallets, current) ==> w in RotatedIds(ring, wallets, eligible);
      assert forall w :: w in RemainingIds(wallets, current) ==> (w in eligible <==> w > NIL_ID);
      assert forall w :: w in eligible ==> w in RemainingIds(wallets, current);
    }
  }

  predicate IsSoftware(w: Wallet) { w.signingMode == Software && w.encryptedPrivateKey.Some? }

  /** Every software row the run skips, because it already carries the current key's tag, is sealed by the current key for its owner. */
  predicate SkippedRowsAreCurrent(ring: Keyring, wallets: map<WalletId, Wallet>) {
    forall w :: w in wallets && IsSoftware(wallets[w]) && wallets[w].encryptionKeyId == Some(ring.CurrentKeyId()) ==>
      wallets[w].encryptedPrivateKey.value.Sealed? && wallets[w].encryptedPrivateKey.value.key == UserKey(ring.current, wallets[w].userId)
  }

  /** Every software row opens for its owner under the current key alone. */
  predicate AllOpenUnderCurrent(ring: Keyring, wallets: map<WalletId, Wallet>) {
    forall w :: w in wallets && IsSoftware(wallets[w]) ==>
      Open(ring.CurrentOnly(), wallets[w].encryptedPrivateKey.value, wallets[w].userId).Ok?
  }

  /** After a run that gave the verdict, one software row opens under the current key alone iff it was rotated or truly current. */
  lemma RowAfterVerdict(ring: Keyring, wallets: map<WalletId, Wallet>, ivs: WalletId -> Iv, w: WalletId)
    requires ReportOf(ring, wallets, true, ivs).safeToRetirePreviousKeys
    requires w in wallets && IsSoftware(wallets[w])
    ensures var row := FinalTable(ring, wallets, true, ivs)[w]; var old' := wallets[w];
            && IsSoftware(row) && row.userId == old'.userId
            && (old'.encryptionKeyId == Some(ring.CurrentKeyId()) ==> row == old')
            && (old'.encryptionKeyId != Some(ring.CurrentKeyId()) ==>
                  && Open(ring, old'.encryptedPrivateKey.value, old'.userId).Ok?
                  && TagNamesKey(row)
                  && Open(ring.CurrentOnly(), row.encryptedPrivateKey.value, row.userId).Ok?
                  && Open(ring.CurrentOnly(), row.encryptedPrivateKey.value, row.userId).value.plaintext
                     == Open(ring, old'.encryptedPrivateKey.value, old'.userId).value.plaintext)
  {
    VerdictMeans(ring, wallets, true, ivs);
    assert w in RemainingIds(wallets, ring.CurrentKeyId()) <==> wallets[w].encryptionKeyId != Some(ring.CurrentKeyId());
    if wallets[w].encryptionKeyId != Some(ring.CurrentKeyId()) {
      SameVerdict(ring, wallets[w], ivs(w));
      RotatedRow(ring, wallets[w], ivs(w));
    }
  }

  /** What a rotated row opens to, under the current key alone. */
  lemma RotatedRow(ring: Keyring, w: Wallet, iv: Iv)
    requires IsSoftware(w) && Rotated(ring, w, iv).Ok?
    ensures var row := Rotated(ring, w, iv).value;
            && IsSoftware(row) && row.userId == w.userId && TagNamesKey(row)
            && Open(ring, w.encryptedPrivateKey.value, w.userId).Ok?
            && Open(ring.CurrentOnly(), row.encryptedPrivateKey.value, row.userId).Ok?
            && Open(ring.CurrentOnly(), row.encryptedPrivateKey.value, row.userId).value.plaintext
               == Open(ring, w.encryptedPrivateKey.value, w.userId).value.plaintext
  {
  }

  /**
   * When the verdict is given it is true, that is, a service holding only the current key opens every software
   * wallet, if and only if every row that already carried the current key's tag was really sealed by that key.
   */
  lemma VerdictIsTrueIff(ring: Keyring, wallets: map<WalletId, Wallet>, ivs: WalletId -> Iv)
    requires ReportOf(ring, wallets, true, ivs).safeToRetirePreviousKeys
    ensures AllOpenUnderCurrent(ring, FinalTable(ring, wallets, true, ivs)) <==> SkippedRowsAreCurrent(ring, wallets)
  {
    var after := FinalTable(ring, wallets, true, ivs);
    forall w | w in wallets && IsSoftware(wallets[w])
      ensures IsSoftware(after[w])
      ensures Open(ring.CurrentOnly(), after[w].encryptedPrivateKey.value, after[w].userId).Ok? <==>
                (wallets[w].encryptionKeyId == Some(ring.CurrentKeyId()) ==>
                   wallets[w].encryptedPrivateKey.value.Sealed? && wallets[w].encryptedPrivateKey.value.key == UserKey(ring.current, wallets[w].userId))
    {
      RowAfterVerdict(ring, wallets, ivs, w);
    }
    assert forall w :: w in after && IsSoftware(after[w]) ==> IsSoftware(wallets[w]);
  }

  /**
   * In that case the current key alone opens every software wallet to the very plaintext that the full ring
   * opened it to before the run, and every tag is honest.
   */
  lemma SafeToRetire(ring: Keyring, wallets: map<WalletId, Wallet>, ivs: WalletId -> Iv)
    requires ReportOf(ring, wallets, true, ivs).safeToRetirePreviousKeys
    ensures SkippedRowsAreCurrent(ring, wallets) ==>
              forall w :: w in wallets && IsSoftware(wallets[w]) ==> OpensAsBefore(ring, wallets[w], FinalTable(ring, wallets, true, ivs)[w])
  {
    if SkippedRowsAreCurrent(ring, wallets) {
      forall w | w in wallets && IsSoftware(wallets[w])
        ensures OpensAsBefore(ring, wallets[w], FinalTable(ring, wallets, true, ivs)[w])
      {
        RowAfterVerdict(ring, wallets, ivs, w);
      }
    }
  }

  /** The current key alone opens the row to what the full ring opened it to before, and its tag is honest. */
  predicate OpensAsBefore(ring: Keyring, before: Wallet, after: Wallet) {
    && before.encryptedPrivateKey.Some? && after.encryptedPrivateKey.Some? && TagNamesKey(after)
    && var was, now := Open(ring, before.encryptedPrivateKey.value, before.userId),
                       Open(ring.CurrentOnly(), after.encryptedPrivateKey.value, after.userId);
       was.Ok? && now.Ok? && now.value.plaintext == was.value.plaintext
  }

  /** Honest tags, which the other services keep, meet that condition; a dishonest tag on another key does no harm. */
  lemma HonestTagsSuffice(ring: Keyring, wallets: map<WalletId, Wallet>)
    requires forall w :: w in wallets ==> TagNamesKey(wallets[w])
    ensures SkippedRowsAreCurrent(ring, wallets)
  {
  }

  /** Without honest tags the verdict misleads: a row tagged with the current key but sealed by the old one. */
  lemma DishonestTagMisleads(oldKey: MasterKey, newKey: MasterKey, ivs: WalletId -> Iv)
    requires oldKey != newKey
    ensures var ring := Keyring(newKey, [oldKey]);
            var row := Wallet("u", Derived(Evm, "k"), "ethereum", Software, Some(Sealed(UserKey(oldKey, "u"), 7, "k")), Some(KeyIdOf(newKey)));
            var wallets := map[1 := row];
            && !TagNamesKey(row) && !SkippedRowsAreCurrent(ring, wallets)
            && ReportOf(ring, wallets, true, ivs).safeToRetirePreviousKeys
            && Open(ring.CurrentOnly(), FinalTable(ring, wallets, true, ivs)[1].encryptedPrivateKey.value, "u").Err?
  {
    var ring := Keyring(newKey, [oldKey]);
    var row := Wallet("u", Derived(Evm, "k"), "ethereum", Software, Some(Sealed(UserKey(oldKey, "u"), 7, "k")), Some(KeyIdOf(newKey)));
    VerdictMeans(ring, map[1 := row], true, ivs);
    assert map[1 := row][1] == row;
    assert RemainingIds(map[1 := row], ring.CurrentKeyId()) == {};
  }

  /** A row with the all-zero id is never visited; it then keeps the verdict from being given. */
  lemma NilRowBlocksVerdict(ring: Keyring, wallets: map<WalletId, Wallet>, apply: bool, ivs: WalletId -> Iv)
    requires NIL_ID in wallets && Eligible(wallets[NIL_ID], ring.CurrentKeyId())
    ensures NIL_ID !in EligibleIds(wallets, ring.CurrentKeyId())
    ensures FinalTable(ring, wallets, apply, ivs)[NIL_ID] == wallets[NIL_ID]
    ensures !ReportOf(ring, wallets, apply, ivs).safeToRetirePreviousKeys
  {
    VerdictMeans(ring, wallets, apply, ivs);
    assert NIL_ID in RemainingIds(wallets, ring.CurrentKeyId());
  }

  // ------------------------------------------------------------------ dry run first, as the runbook asks

  /**
   * With no writer in between, a dry run changes nothing and announces exactly what the apply run then does,
   * whatever the two batch sizes.
   */
  method DryRunThenApply(ds: DataSource, service: EncryptionService, dryBatch: nat, applyBatch: nat, ivs: WalletId -> Iv)
    returns (announced: RotationReport, done: RotationReport)
    requires dryBatch >= 1 && applyBatch >= 1
    modifies ds`wallets
    ensures announced.scanned == done.scanned && announced.rotated == done.rotated && announced.failed == done.failed
    ensures !announced.safeToRetirePreviousKeys
    ensures ds.wallets == FinalTable(service.Ring(), old(ds.wallets), true, ivs)
  {
    ghost var visited;
    announced, visited := RotateWallets(ds, service, false, dryBatch, ivs);
    assert ds.wallets == old(ds.wallets);
    done, visited := RotateWallets(ds, service, true, applyBatch, ivs);
  }
}
