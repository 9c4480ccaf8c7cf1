/**
 * rotateWallets(): the keyset-paginated loop that re-encrypts every software wallet under the current
 * master key, run with no concurrent writer. The loop is proved equal to a one-shot description of its
 * effect, and the promises about dry runs, resuming, repeating and retiring keys are proved of that.
 */
module KeyRotation {
  import opened Prelude
  import opened Encryption
  import opened Tables
  import opened RotationRow
  import opened SortedIds

  /** The all-zero uuid the keyset pagination starts after. */
  const NIL_ID: WalletId := 0

  datatype Failure = Failure(walletId: WalletId, reason: RotationError)

  datatype RotationReport = RotationReport(
    apply: bool,
    currentKeyId: KeyId,
    scanned: nat,
    rotated: nat,
    failed: seq<Failure>,
    remainingNotOnCurrentKey: nat,
    safeToRetirePreviousKeys: bool)

  // ------------------------------------------------------------------ the effect, described at once

  predicate Rotates(ring: Keyring, w: Wallet) {
    && w.encryptedPrivateKey.Some?
    && Rotated(ring, w, 0).Ok?
  }

  /** The rows a run visits. */
  function EligibleIds(wallets: map<WalletId, Wallet>, current: KeyId): set<WalletId> {
    set w | w in wallets && w > NIL_ID && Eligible(wallets[w], current)
  }

  /** The rows counted as remaining: here the nil id counts too. */
  function RemainingIds(wallets: map<WalletId, Wallet>, current: KeyId): set<WalletId> {
    set w | w in wallets && Eligible(wallets[w], current)
  }

  /** The table after the rows `visited` were tried. */
  function AfterRotation(ring: Keyring, wallets: map<WalletId, Wallet>, visited: set<WalletId>, ivs: WalletId -> Iv): map<WalletId, Wallet> {
    map w | w in wallets ::
      if w in visited && Rotates(ring, wallets[w]) then Rotated(ring, wallets[w], ivs(w)).value else wallets[w]
  }

  function Failures(ring: Keyring, wallets: map<WalletId, Wallet>, ids: seq<WalletId>): seq<Failure> {
    if ids == [] then []
    else
      var init, last := ids[..|ids| - 1], ids[|ids| - 1];
      Failures(ring, wallets, init) +
      if last in wallets && wallets[last].encryptedPrivateKey.Some? && Rotated(ring, wallets[last], 0).Err?
      then [Failure(last, Rotated(ring, wallets[last], 0).error)]
      else []
  }

  /** The visited rows that are (or, in a dry run, would be) rewritten. */
  function RotatedIds(ring: Keyring, wallets: map<WalletId, Wallet>, visited: set<WalletId>): set<WalletId> {
    set w | w in visited && w in wallets && Rotates(ring, wallets[w])
  }

  function FinalTable(ring: Keyring, wallets: map<WalletId, Wallet>, apply: bool, ivs: WalletId -> Iv): map<WalletId, Wallet> {
    if apply then AfterRotation(ring, wallets, EligibleIds(wallets, ring.CurrentKeyId()), ivs) else wallets
  }

  function ReportOf(ring: Keyring, wallets: map<WalletId, Wallet>, apply: bool, ivs: WalletId -> Iv): RotationReport {
    var current := ring.CurrentKeyId();
    var eligible := EligibleIds(wallets, current);
    var failed := Failures(ring, wallets, Sorted(eligible));
    var remaining := |RemainingIds(FinalTable(ring, wallets, apply, ivs), current)|;
    RotationReport(apply, current, |eligible|, |RotatedIds(ring, wallets, eligible)|, failed, remaining,
                   apply && failed == [] && remaining == 0)
  }

  // ------------------------------------------------------------------ the loop

  /** The rows the page query matches. */
  ghost function Matching(wallets: map<WalletId, Wallet>, current: KeyId, lastId: WalletId): set<WalletId> {
    set w | w in wallets && w > lastId && Eligible(wallets[w], current)
  }

  ghost function BatchIds(batch: seq<(WalletId, Wallet)>): set<WalletId> {
    set i | 0 <= i < |batch| :: batch[i].0
  }

  ghost predicate AscendingRows(batch: seq<(WalletId, Wallet)>) {
    forall i, j :: 0 <= i < j < |batch| ==> batch[i].0 < batch[j].0
  }

  /** Every id of the batch comes before m. */
  ghost predicate AllBefore(batch: seq<(WalletId, Wallet)>, m: WalletId) {
    forall i :: 0 <= i < |batch| ==> batch[i].0 < m
  }

  /** SELECT ... WHERE id > lastId AND eligible ORDER BY id LIMIT limit: the first `limit` matching rows, in order. */
  method NextBatch(ds: DataSource, current: KeyId, lastId: WalletId, limit: nat) returns (batch: seq<(WalletId, Wallet)>)
    requires limit >= 1
    ensures |batch| <= limit && AscendingRows(batch)
    ensures BatchIds(batch) <= Matching(ds.wallets, current, lastId)
    ensures forall i :: 0 <= i < |batch| ==> batch[i].0 in ds.wallets && batch[i].1 == ds.wallets[batch[i].0]
    ensures forall w :: w in Matching(ds.wallets, current, lastId) - BatchIds(batch) ==> |batch| == limit && AllBefore(batch, w)
  {
    var pool := set w | w in ds.wallets && w > lastId && Eligible(ds.wallets[w], current);
    ghost var all := Matching(ds.wallets, current, lastId);
    assert pool == all;
    batch := [];
    while |batch| < limit && pool != {}
      invariant |batch| <= limit && AscendingRows(batch)
      invariant pool !! BatchIds(batch) && pool + BatchIds(batch) == all
      invariant forall i :: 0 <= i < |batch| ==> batch[i].0 in ds.wallets && batch[i].1 == ds.wallets[batch[i].0]
      invariant forall x :: x in pool ==> AllBefore(batch, x)
      decreases limit - |batch|
    {
      var m := Least(pool);
      BatchAppend(batch, m, ds.wallets[m]);
      BeforeTheRest(batch, pool, m, ds.wallets[m]);
      batch := batch + [(m, ds.wallets[m])];
      pool := pool - {m};
    }
  }

  lemma BatchAppend(batch: seq<(WalletId, Wallet)>, m: WalletId, row: Wallet)
    ensures BatchIds(batch + [(m, row)]) == BatchIds(batch) + {m}
    ensures AscendingRows(batch) && AllBefore(batch, m) ==> AscendingRows(batch + [(m, row)])
  {
    var longer := batch + [(m, row)];
    assert forall i :: 0 <= i < |batch| ==> longer[i] == batch[i];
    assert longer[|batch|].0 == m;
    forall v | v in BatchIds(batch) + {m} ensures v in BatchIds(longer) {
      if v != m {
        var i :| 0 <= i < |batch| && batch[i].0 == v;
        assert longer[i].0 == v;
      }
    }
  }

  lemma BeforeTheRest(batch: seq<(WalletId, Wallet)>, pool: set<WalletId>, m: WalletId, row: Wallet)
    requires IsLeast(m, pool) && forall x :: x in pool ==> AllBefore(batch, x)
    ensures forall x :: x in pool - {m} ==> AllBefore(batch + [(m, row)], x)
  {
  }

  /** What has happened once exactly the rows `visited` were tried. */
  ghost predicate Progress(ring: Keyring, start: map<WalletId, Wallet>, now: map<WalletId, Wallet>, apply: bool, ivs: WalletId -> Iv,
                           visited: seq<WalletId>, rotated: nat, failed: seq<Failure>)
  {
    && Elements(visited) <= EligibleIds(start, ring.CurrentKeyId())
    && Ascending(visited)
    && now == (if apply then AfterRotation(ring, start, Elements(visited), ivs) else start)
    && failed == Failures(ring, start, visited)
    && rotated == |RotatedIds(ring, start, Elements(visited))|
  }

  /** Trying one more row: it fails and changes nothing, or it is rewritten (only if applying) and counted. */
  lemma OneMore(ring: Keyring, start: map<WalletId, Wallet>, now: map<WalletId, Wallet>, apply: bool, ivs: WalletId -> Iv,
                visited: seq<WalletId>, rotated: nat, failed: seq<Failure>, w: WalletId)
    requires Progress(ring, start, now, apply, ivs, visited, rotated, failed)
    requires w in EligibleIds(start, ring.CurrentKeyId())
    requires forall v :: v in Elements(visited) ==> v < w
    ensures w in now && now[w] == start[w]
    ensures match Rotated(ring, start[w], ivs(w))
            case Err(reason) => Progress(ring, start, now, apply, ivs, visited + [w], rotated, failed + [Failure(w, reason)])
            case Ok(row) => Progress(ring, start, if apply then now[w := row] else now, apply, ivs, visited + [w], rotated + 1, failed)
  {
    Append(visited, w);
    OneMoreCounted(ring, start, Elements(visited), w);
    OneMoreWritten(ring, start, Elements(visited), ivs, w);
    assert (visited + [w])[..|visited|] == visited;
    SameVerdict(ring, start[w], ivs(w));
  }

  /** Whether and why a row fails does not depend on the nonce drawn for it. */
  lemma SameVerdict(ring: Keyring, w: Wallet, iv: Iv)
    requires w.encryptedPrivateKey.Some?
    ensures Rotated(ring, w, iv).Ok? == Rotates(ring, w)
    ensures Rotated(ring, w, iv).Err? ==> Rotated(ring, w, iv) == Rotated(ring, w, 0)
  {
  }

  lemma OneMoreWritten(ring: Keyring, start: map<WalletId, Wallet>, visited: set<WalletId>, ivs: WalletId -> Iv, w: WalletId)
    requires w in start && start[w].encryptedPrivateKey.Some? && w !in visited
    ensures AfterRotation(ring, start, visited, ivs)[w] == start[w]
    ensures AfterRotation(ring, start, visited + {w}, ivs)
         == if Rotates(ring, start[w]) then AfterRotation(ring, start, visited, ivs)[w := Rotated(ring, start[w], ivs(w)).value]
            else AfterRotation(ring, start, visited, ivs)
  {
    SameVerdict(ring, start[w], ivs(w));
  }

  lemma OneMoreCounted(ring: Keyring, start: map<WalletId, Wallet>, visited: set<WalletId>, w: WalletId)
    requires w in start && w !in visited
    ensures |RotatedIds(ring, start, visited + {w})|
         == |RotatedIds(ring, start, visited)| + if Rotates(ring, start[w]) then 1 else 0
  {
    var before, after := RotatedIds(ring, start, visited), RotatedIds(ring, start, visited + {w});
    if Rotates(ring, start[w]) {
      assert after == before + {w};
    } else {
      assert after == before;
    }
  }

  /** One row: decrypt, check against the address, re-encrypt, check the round trip, and (if applying) write it. */
  method RotateOne(ds: DataSource, service: EncryptionService, apply: bool, id: WalletId, w: Wallet, iv: Iv)
    returns (outcome: Result<(), RotationError>)
    requires w.encryptedPrivateKey.Some?
    modifies ds`wallets
    ensures match Rotated(service.Ring(), w, iv)
            case Err(reason) => outcome == Err(reason) && ds.wallets == old(ds.wallets)
            case Ok(row) =>
              if apply then
                match CompareAndSwap(old(ds.wallets), id, w, row)
                case Some(wallets) => outcome == Ok(()) && ds.wallets == wallets
                case None => outcome == Err(RowChangedConcurrently) && ds.wallets == old(ds.wallets)
              else outcome == Ok(()) && ds.wallets == old(ds.wallets)
  {
    var reencrypted := service.ReencryptToCurrentKey(w.encryptedPrivateKey.value, w.userId, iv);
    if reencrypted.Err? {
      return Err(Undecryptable);
    }
    var (ciphertext, found) := reencrypted.value;
    if !KeyMatchesAddress(w.chain, found.plaintext, w.address) {
      return Err(WrongKeyForAddress);
    }
    var roundTrip := service.DecryptWithCurrentKeyOnly(ciphertext, w.userId);
    assert roundTrip == Some(found.plaintext);
    if apply {
      if id in ds.wallets && ds.wallets[id].encryptedPrivateKey == w.encryptedPrivateKey {
        ds.wallets := ds.wallets[id := ds.wallets[id].(encryptedPrivateKey := Some(ciphertext),
                                                       encryptionKeyId := Some(KeyIdOf(service.masterKey)))];
      } else {
        return Err(RowChangedConcurrently);
      }
    }
    return Ok(());
  }

  /** What RotateBatch has done after the first k rows of its batch. */
  ghost predicate BatchProgress(ring: Keyring, start: map<WalletId, Wallet>, now: map<WalletId, Wallet>, apply: bool, ivs: WalletId -> Iv,
                                visited: seq<WalletId>, batch: seq<(WalletId, Wallet)>, visited': seq<WalletId>, rotated: nat, failed: seq<Failure>)
  {
    && Progress(ring, start, now, apply, ivs, visited', rotated, failed)
    && |visited'| == |visited| + |batch|
    && Elements(visited') == Elements(visited) + BatchIds(batch)
  }

  /** The rows of a page: eligible, as they were at the start, ascending, and after everything visited. */
  ghost predicate IsPage(start: map<WalletId, Wallet>, current: KeyId, visited: seq<WalletId>, batch: seq<(WalletId, Wallet)>) {
    && AscendingRows(batch)
    && (forall i :: 0 <= i < |batch| ==> batch[i].0 in EligibleIds(start, current) && batch[i].1 == start[batch[i].0])
    && (forall v :: v in Elements(visited) ==> forall i :: 0 <= i < |batch| ==> v < batch[i].0)
  }

  /** The rows of one batch, in order. */
  method RotateBatch(ds: DataSource, service: EncryptionService, apply: bool, batch: seq<(WalletId, Wallet)>, ivs: WalletId -> Iv,
                     ghost start: map<WalletId, Wallet>, ghost visited: seq<WalletId>, rotated: nat, failed: seq<Failure>)
    returns (rotated': nat, failed': seq<Failure>, ghost visited': seq<WalletId>)
    requires Progress(service.Ring(), start, ds.wallets, apply, ivs, visited, rotated, failed)
    requires IsPage(start, service.Ring().CurrentKeyId(), visited, batch)
    modifies ds`wallets
    ensures BatchProgress(service.Ring(), start, ds.wallets, apply, ivs, visited, batch, visited', rotated', failed')
  {
    rotated', failed', visited' := rotated, failed, visited;
    for k := 0 to |batch|
      invariant BatchProgress(service.Ring(), start, ds.wallets, apply, ivs, visited, batch[..k], visited', rotated', failed')
    {
      rotated', failed', visited' :=
        RotateNext(ds, service, apply, batch, k, ivs, start, visited, visited', rotated', failed');
    }
    assert batch[..|batch|] == batch;
  }

  /** One pass of the loop over the batch. */
  method RotateNext(ds: DataSource, service: EncryptionService, apply: bool, batch: seq<(WalletId, Wallet)>, k: nat, ivs: WalletId -> Iv,
                    ghost start: map<WalletId, Wallet>, ghost visited: seq<WalletId>, ghost soFar: seq<WalletId>, rotated: nat, failed: seq<Failure>)
    returns (rotated': nat, failed': seq<Failure>, ghost soFar': seq<WalletId>)
    requires k < |batch| && IsPage(start, service.Ring().CurrentKeyId(), visited, batch)
    requires BatchProgress(service.Ring(), start, ds.wallets, apply, ivs, visited, batch[..k], soFar, rotated, failed)
    modifies ds`wallets
    ensures BatchProgress(service.Ring(), start, ds.wallets, apply, ivs, visited, batch[..k + 1], soFar', rotated', failed')
  {
    var (id, w) := batch[k];
    BatchGrows(batch, k);
    NextIsLater(start, service.Ring().CurrentKeyId(), visited, batch, k, soFar);
    OneMore(service.Ring(), start, ds.wallets, apply, ivs, soFar, rotated, failed, id);
    Append(soFar, id);
    var outcome := RotateOne(ds, service, apply, id, w, ivs(id));
    rotated', failed', soFar' := rotated, failed, soFar + [id];
    match outcome {
      case Ok(_) => rotated' := rotated + 1;
      case Err(reason) => failed' := failed + [Failure(id, reason)];
    }
  }

  lemma BatchGrows(batch: seq<(WalletId, Wallet)>, k: nat)
    requires k < |batch|
    ensures BatchIds(batch[..k + 1]) == BatchIds(batch[..k]) + {batch[k].0}
  {
    assert batch[..k + 1] == batch[..k] + [(batch[k].0, batch[k].1)];
    BatchAppend(batch[..k], batch[k].0, batch[k].1);
  }

  lemma NextIsLater(start: map<WalletId, Wallet>, current: KeyId, visited: seq<WalletId>, batch: seq<(WalletId, Wallet)>, k: nat, soFar: seq<WalletId>)
    requires k < |batch| && IsPage(start, current, visited, batch)
    requires Elements(soFar) == Elements(visited) + BatchIds(batch[..k])
    ensures forall v :: v in Elements(soFar) ==> v < batch[k].0
  {
    forall v | v in Elements(soFar) ensures v < batch[k].0 {
      if v !in Elements(visited) {
        var i :| 0 <= i < k && batch[..k][i].0 == v;
        assert batch[i].0 == v;
      }
    }
  }

  /**
   * The rotation run. For any batch size of at least one it ends, visits every row that was eligible at the
   * start exactly once in id order, and leaves exactly the table and the report described above.
   */
  method RotateWallets(ds: DataSource, service: EncryptionService, apply: bool, batchSize: nat, ivs: WalletId -> Iv)
    returns (report: RotationReport, ghost visited: seq<WalletId>)
    requires batchSize >= 1
    modifies ds`wallets
    ensures visited == Sorted(EligibleIds(old(ds.wallets), service.Ring().CurrentKeyId()))
    ensures ds.wallets == FinalTable(service.Ring(), old(ds.wallets), apply, ivs)
    ensures report == ReportOf(service.Ring(), old(ds.wallets), apply, ivs)
    ensures report.remainingNotOnCurrentKey ==
            |set w | w in ds.wallets && ds.wallets[w].signingMode == Software && ds.wallets[w].encryptedPrivateKey.Some?
                     && ds.wallets[w].encryptionKeyId != Some(KeyIdOf(service.masterKey))|
  {
    ghost var start := ds.wallets;
    var current := KeyIdOf(service.masterKey);
    var scanned, rotated, failed := 0, 0, [];
    visited := [];
    var lastId := NIL_ID;
    NothingVisited(service.Ring(), start, apply, ivs);
    while true
      invariant Progress(service.Ring(), start, ds.wallets, apply, ivs, visited, rotated, failed)
      invariant scanned == |visited|
      invariant Elements(visited) == UpTo(start, current, lastId)
      decreases EligibleIds(start, current) - Elements(visited)
    {
      var batch := NextBatch(ds, current, lastId, batchSize);
      UnvisitedUnchanged(service.Ring(), start, ds.wallets, apply, ivs, visited, rotated, failed, lastId);
      SameMatches(start, ds.wallets, current, lastId);
      if batch == [] {
        LastPage(start, ds.wallets, current, lastId, batch, batchSize);
        break;
      }
      PageIsNext(start, ds.wallets, current, lastId, visited, batch);
      rotated, failed, visited := RotateBatch(ds, service, apply, batch, ivs, start, visited, rotated, failed);
      scanned := scanned + |batch|;
      BatchAdvances(start, current, lastId, batch);
      lastId := batch[|batch| - 1].0;
    }
    assert Elements(visited) == EligibleIds(start, current);
    AscendingIsUnique(visited, Sorted(EligibleIds(start, current)));
    var remaining := |RemainingIds(ds.wallets, current)|;
    RemainingAre(ds.wallets, current);
    report := RotationReport(apply, current, scanned, rotated, failed, remaining, apply && failed == [] && remaining == 0);
  }

  lemma RemainingAre(wallets: map<WalletId, Wallet>, current: KeyId)
    ensures RemainingIds(wallets, current) ==
            set w | w in wallets && wallets[w].signingMode == Software && wallets[w].encryptedPrivateKey.Some?
                    && wallets[w].encryptionKeyId != Some(current)
  {
  }

  ghost function UpTo(start: map<WalletId, Wallet>, current: KeyId, lastId: WalletId): set<WalletId> {
    set w | w in EligibleIds(start, current) && w <= lastId
  }

  /** Rows the run has not reached are as they were, so the shrinking query still finds them. */
  lemma UnvisitedUnchanged(ring: Keyring, start: map<WalletId, Wallet>, now: map<WalletId, Wallet>, apply: bool, ivs: WalletId -> Iv,
                           visited: seq<WalletId>, rotated: nat, failed: seq<Failure>, lastId: WalletId)
    requires Progress(ring, start, now, apply, ivs, visited, rotated, failed)
    requires Elements(visited) == UpTo(start, ring.CurrentKeyId(), lastId)
    ensures now.Keys == start.Keys
    ensures forall w :: w in start && w > lastId ==> now[w] == start[w]
  {
  }

  lemma SameMatches(start: map<WalletId, Wallet>, now: map<WalletId, Wallet>, current: KeyId, lastId: WalletId)
    requires now.Keys == start.Keys && forall w :: w in start && w > lastId ==> now[w] == start[w]
    ensures Matching(now, current, lastId) == Matching(start, current, lastId)
  {
  }

  lemma LastPage(start: map<WalletId, Wallet>, now: map<WalletId, Wallet>, current: KeyId, lastId: WalletId,
                 batch: seq<(WalletId, Wallet)>, limit: nat)
    requires Matching(now, current, lastId) == Matching(start, current, lastId) && batch == [] && limit >= 1
    requires forall w :: w in Matching(now, current, lastId) - BatchIds(batch) ==> |batch| == limit && AllBefore(batch, w)
    ensures UpTo(start, current, lastId) == EligibleIds(start, current)
  {
    forall w | w in EligibleIds(start, current) ensures w <= lastId {
      assert BatchIds(batch) == {};
      assert w > lastId ==> w in Matching(now, current, lastId) - BatchIds(batch);
    }
  }

  lemma PageIsNext(start: map<WalletId, Wallet>, now: map<WalletId, Wallet>, current: KeyId, lastId: WalletId,
                   visited: seq<WalletId>, batch: seq<(WalletId, Wallet)>)
    requires now.Keys == start.Keys && forall w :: w in start && w > lastId ==> now[w] == start[w]
    requires AscendingRows(batch) && BatchIds(batch) <= Matching(start, current, lastId)
    requires forall i :: 0 <= i < |batch| ==> batch[i].0 in now && batch[i].1 == now[batch[i].0]
    requires Elements(visited) == UpTo(start, current, lastId)
    ensures IsPage(start, current, visited, batch)
  {
    forall i | 0 <= i < |batch|
      ensures batch[i].0 in EligibleIds(start, current) && batch[i].1 == start[batch[i].0] && batch[i].0 > lastId
    {
      assert batch[i].0 in BatchIds(batch);
    }
  }

  /** The next page is exactly the eligible rows between the old and the new position. */
  lemma BatchAdvances(start: map<WalletId, Wallet>, current: KeyId, lastId: WalletId, batch: seq<(WalletId, Wallet)>)
    requires batch != [] && AscendingRows(batch) && BatchIds(batch) <= Matching(start, current, lastId)
    requires forall w :: w in Matching(start, current, lastId) - BatchIds(batch) ==> AllBefore(batch, w)
    ensures UpTo(start, current, lastId) + BatchIds(batch) == UpTo(start, current, batch[|batch| - 1].0)
    ensures batch[0].0 in BatchIds(batch) && batch[0].0 !in UpTo(start, current, lastId)
  {
    var last := batch[|batch| - 1].0;
    assert last in BatchIds(batch) && batch[0].0 in BatchIds(batch);
    forall w | w in BatchIds(batch) ensures w in UpTo(start, current, last) {
      var i :| 0 <= i < |batch| && batch[i].0 == w;
      assert i < |batch| - 1 ==> batch[i].0 < batch[|batch| - 1].0;
    }
    forall w | w in UpTo(start, current, last) ensures w in UpTo(start, current, lastId) + BatchIds(batch) {
      assert w > lastId ==> w in Matching(start, current, lastId);
      assert AllBefore(batch, w) ==> last < w;
    }
  }

  lemma NothingVisited(ring: Keyring, start: map<WalletId, Wallet>, apply: bool, ivs: WalletId -> Iv)
    ensures Progress(ring, start, start, apply, ivs, [], 0, [])
  {
    assert AfterRotation(ring, start, {}, ivs) == start;
    assert RotatedIds(ring, start, {}) == {};
  }
}
