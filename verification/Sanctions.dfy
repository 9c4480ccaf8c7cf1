/** The sanctions list: how a sync replaces it, and what screening says for any history of syncs. */
module Sanctions {
  import opened Prelude

  type Time = nat

  /** A parsed record: column name to text. */
  type Row = map<string, string>

  datatype Entry = Entry(address: string, listedName: Option<string>)

  datatype SyncStatus = SyncedOk | SyncFailed | NeverRun

  datatype SyncState = SyncState(lastSyncedAt: Option<Time>, lastSyncStatus: SyncStatus, entryCount: nat)

  /** The two tables. */
  datatype Lists = Lists(addresses: seq<Entry>, state: Option<SyncState>)

  datatype Verdict = NeverSynced | Stale | Listed | Clear

  datatype Status = Status(lastSyncedAt: Option<Time>, lastSyncStatus: SyncStatus, entryCount: nat, isStale: bool)

  /** One call of fetchAndSync: the rows it stored and when, or a failure of the fetch, the parse or the transaction. */
  datatype Attempt = Succeeded(at: Time, rows: seq<Row>) | Failed

  // ---------------------------------------------------------------- rows to entries

  const ADDRESS_COLUMNS := ["address", "digital currency address", "wallet_address", "addr"]
  const NAME_COLUMNS := ["sdn_name", "name", "entity_name"]

  /** The first of the columns that holds something, trimmed. */
  function Pick(row: Row, keys: seq<string>): Option<string> {
    if keys == [] then None
    else if keys[0] in row && Trim(row[keys[0]]) != "" then Some(Trim(row[keys[0]]))
    else Pick(row, keys[1..])
  }

  function EntriesOf(rows: seq<Row>): seq<Entry> {
    if rows == [] then []
    else EntriesOf(rows[..|rows| - 1]) + EntryOf(rows[|rows| - 1])
  }

  function EntryOf(row: Row): seq<Entry> {
    match Pick(row, ADDRESS_COLUMNS)
    case None => []
    case Some(address) => [Entry(Lower(address), Pick(row, NAME_COLUMNS))]
  }

  method ParseRows(rows: seq<Row>) returns (entries: seq<Entry>)
    ensures entries == EntriesOf(rows)
  {
    entries := [];
    for k := 0 to |rows|
      invariant entries == EntriesOf(rows[..k])
    {
      assert rows[..k + 1][..k] == rows[..k];
      var address := Pick(rows[k], ADDRESS_COLUMNS);
      if address.Some? {
        entries := entries + [Entry(Lower(address.value), Pick(rows[k], NAME_COLUMNS))];
      }
    }
    assert rows[..|rows|] == rows;
  }

  /** A list names an address when one of its rows does, in any casing. */
  ghost predicate NamesAddress(rows: seq<Row>, address: string) {
    exists i :: 0 <= i < |rows| && RowNames(rows[i], address)
  }

  predicate RowNames(row: Row, address: string) {
    Pick(row, ADDRESS_COLUMNS).Some? && Lower(Pick(row, ADDRESS_COLUMNS).value) == Lower(address)
  }

  predicate IsListed(entries: seq<Entry>, address: string) {
    exists i :: 0 <= i < |entries| && entries[i].address == Lower(address)
  }

  /** The stored entries list exactly the addresses the rows name. */
  lemma {:induction false} EntriesNameTheRows(rows: seq<Row>, address: string)
    ensures IsListed(EntriesOf(rows), address) <==> NamesAddress(rows, address)
  {
    if rows != [] {
      var front, last := rows[..|rows| - 1], rows[|rows| - 1];
      EntriesNameTheRows(front, address);
      ListedInEither(EntriesOf(front), EntryOf(last), address);
      assert NamesAddress(rows, address) <==> NamesAddress(front, address) || RowNames(last, address) by {
        assert forall i :: 0 <= i < |front| ==> rows[i] == front[i];
      }
      assert IsListed(EntryOf(last), address) <==> RowNames(last, address) by {
        if RowNames(last, address) { assert EntryOf(last)[0].address == Lower(address); }
      }
    }
  }

  lemma ListedInEither(a: seq<Entry>, b: seq<Entry>, address: string)
    ensures IsListed(a + b, address) <==> IsListed(a, address) || IsListed(b, address)
  {
    if IsListed(a, address) {
      var i :| 0 <= i < |a| && a[i].address == Lower(address);
      assert (a + b)[i] == a[i];
    }
    if IsListed(b, address) {
      var i :| 0 <= i < |b| && b[i].address == Lower(address);
      assert (a + b)[|a| + i] == b[i];
    }
  }

  // ---------------------------------------------------------------- the service

  function AfterAttempt(t: Lists, a: Attempt): Lists {
    match a
    case Succeeded(at, rows) => Lists(EntriesOf(rows), Some(SyncState(Some(at), SyncedOk, |EntriesOf(rows)|)))
    case Failed =>
      Lists(t.addresses, Some(if t.state.Some? then t.state.value.(lastSyncStatus := SyncFailed) else SyncState(None, SyncFailed, 0)))
  }

  function Screen(t: Lists, now: Time, maxStalenessMs: nat, address: string): Verdict {
    if t.state.None? || t.state.value.lastSyncStatus != SyncedOk || t.state.value.lastSyncedAt.None? then NeverSynced
    else if now - t.state.value.lastSyncedAt.value > maxStalenessMs then Stale
    else if IsListed(t.addresses, address) then Listed
    else Clear
  }

  class SanctionsService {
    var addresses: seq<Entry>
    var syncState: Option<SyncState>
    const maxStalenessMs: nat

    ghost function Contents(): Lists
      reads this
    {
      Lists(addresses, syncState)
    }

    constructor (maxStalenessMs: nat)
      ensures Contents() == Lists([], None) && this.maxStalenessMs == maxStalenessMs
    {
      addresses := [];
      syncState := None;
      this.maxStalenessMs := maxStalenessMs;
    }

    method ScreenAddress(now: Time, address: string) returns (verdict: Verdict)
      ensures verdict == Screen(Contents(), now, maxStalenessMs, address)
    {
      if syncState.None? || syncState.value.lastSyncStatus != SyncedOk || syncState.value.lastSyncedAt.None? {
        return NeverSynced;
      }
      var ageMs := now - syncState.value.lastSyncedAt.value;
      if ageMs > maxStalenessMs {
        return Stale;
      }
      if i :| 0 <= i < |addresses| && addresses[i].address == Lower(address) {
        return Listed;
      }
      return Clear;
    }

    /** isStale says exactly whether screening would refuse every address for want of a fresh list. */
    method GetStatus(now: Time) returns (status: Status)
      ensures forall address :: status.isStale <==> Screen(Contents(), now, maxStalenessMs, address) in {NeverSynced, Stale}
      ensures match syncState
              case None => status.lastSyncedAt == None && status.lastSyncStatus == NeverRun && status.entryCount == 0
              case Some(s) => SyncState(status.lastSyncedAt, status.lastSyncStatus, status.entryCount) == s
    {
      if syncState.None? {
        return Status(None, NeverRun, 0, true);
      }
      var s := syncState.value;
      var isStale := s.lastSyncedAt.None? || s.lastSyncStatus != SyncedOk || now - s.lastSyncedAt.value > maxStalenessMs;
      return Status(s.lastSyncedAt, s.lastSyncStatus, s.entryCount, isStale);
    }

    /** The transaction of a sync: the whole list is replaced and the success recorded. */
    method SyncFromRows(now: Time, rows: seq<Row>) returns (entryCount: nat)
      modifies this
      ensures Contents() == AfterAttempt(old(Contents()), Succeeded(now, rows)) && entryCount == |addresses|
    {
      var entries := ParseRows(rows);
      addresses := entries;
      syncState := Some(SyncState(Some(now), SyncedOk, |entries|));
      return |entries|;
    }

    /** `rows` is none when the fetch, the parse or the transaction failed. */
    method FetchAndSync(now: Time, rows: Option<seq<Row>>) returns (entryCount: Option<nat>)
      modifies this
      ensures Contents() == AfterAttempt(old(Contents()), if rows.Some? then Succeeded(now, rows.value) else Failed)
      ensures entryCount.Some? <==> rows.Some?
    {
      if rows.None? {
        syncState := Some(if syncState.Some? then syncState.value.(lastSyncStatus := SyncFailed) else SyncState(None, SyncFailed, 0));
        return None;
      }
      var count := SyncFromRows(now, rows.value);
      return Some(count);
    }
  }

  // ---------------------------------------------------------------- any history of syncs

  /** The tables after a history of attempts, from an empty database. */
  function AfterAll(log: seq<Attempt>): Lists {
    if log == [] then Lists([], None) else AfterAttempt(AfterAll(log[..|log| - 1]), log[|log| - 1])
  }

  function LastSuccess(log: seq<Attempt>): Option<Attempt> {
    if log == [] then None
    else if log[|log| - 1].Succeeded? then Some(log[|log| - 1])
    else LastSuccess(log[..|log| - 1])
  }

  /** The most recent attempt succeeded and is young enough. */
  predicate IsFresh(log: seq<Attempt>, now: Time, maxStalenessMs: nat) {
    log != [] && log[|log| - 1].Succeeded? && now - log[|log| - 1].at <= maxStalenessMs
  }

  /** An address is clear exactly when the latest attempt succeeded, recently enough, and its list does not name it. */
  lemma ClearIff(log: seq<Attempt>, now: Time, maxStalenessMs: nat, address: string)
    ensures Screen(AfterAll(log), now, maxStalenessMs, address) == Clear <==>
              IsFresh(log, now, maxStalenessMs) && !NamesAddress(log[|log| - 1].rows, address)
  {
    if log != [] && log[|log| - 1].Succeeded? {
      EntriesNameTheRows(log[|log| - 1].rows, address);
    }
  }

  /** Screening says the list never synced exactly when there was no attempt yet or the latest one failed. */
  lemma NeverSyncedIff(log: seq<Attempt>, now: Time, maxStalenessMs: nat, address: string)
    ensures Screen(AfterAll(log), now, maxStalenessMs, address) == NeverSynced <==> log == [] || log[|log| - 1].Failed?
  {
  }

  /** No attempt ever succeeded. */
  predicate NeverSucceeded(log: seq<Attempt>) {
    forall i :: 0 <= i < |log| ==> log[i].Failed?
  }

  /** When screening says so, the words are true if and only if the sync state holds no time of a last success. */
  lemma NeverSyncedIsTrueIff(log: seq<Attempt>, now: Time, maxStalenessMs: nat, address: string)
    requires Screen(AfterAll(log), now, maxStalenessMs, address) == NeverSynced
    ensures NeverSucceeded(log) <==> AfterAll(log).state.None? || AfterAll(log).state.value.lastSyncedAt.None?
    ensures NeverSucceeded(log) <==> LastSuccess(log).None?
  {
    FailuresKeepTheList(log);
    LastSuccessIsLast(log);
  }

  lemma {:induction false} LastSuccessIsLast(log: seq<Attempt>)
    ensures LastSuccess(log).None? <==> NeverSucceeded(log)
  {
    if log != [] {
      LastSuccessIsLast(log[..|log| - 1]);
      assert NeverSucceeded(log[..|log| - 1]) && log[|log| - 1].Failed? <==> NeverSucceeded(log);
    }
  }

  /** Concretely: one success and then one failure at the same instant, and the list is said never to have synced. */
  lemma NeverSyncedMisleads(rows: seq<Row>, now: Time, maxStalenessMs: nat, address: string)
    ensures var log := [Succeeded(now, rows), Failed];
            Screen(AfterAll(log), now, maxStalenessMs, address) == NeverSynced && !NeverSucceeded(log)
  {
    var log := [Succeeded(now, rows), Failed];
    assert log[0].Succeeded?;
  }

  /** Failures lose neither the list nor the time of the last success: the tables are those of the last success. */
  lemma {:induction false} FailuresKeepTheList(log: seq<Attempt>)
    ensures match LastSuccess(log)
            case None => AfterAll(log).addresses == [] && (AfterAll(log).state.Some? ==> AfterAll(log).state.value.lastSyncedAt.None?)
            case Some(a) =>
              && a.Succeeded? && AfterAll(log).addresses == EntriesOf(a.rows)
              && AfterAll(log).state.Some? && AfterAll(log).state.value.lastSyncedAt == Some(a.at)
              && AfterAll(log).state.value.entryCount == |EntriesOf(a.rows)|
    ensures AfterAll(log).state.None? <==> log == []
    ensures log != [] ==> AfterAll(log).state.value.lastSyncStatus == if log[|log| - 1].Succeeded? then SyncedOk else SyncFailed
    ensures LastSuccess(log).None? && log != [] ==> AfterAll(log).state.value.entryCount == 0
  {
    if log != [] { FailuresKeepTheList(log[..|log| - 1]); }
  }
}
