/**
  The monthly ticket record, kept as one JSON document per month
  (`data/tickets-YYYY-MM.json`), and the rules the server applies to it:
  the empty record, the partial-update merge and history append of a save,
  the 1000-entry retention of the history, and the overlay done by the
  server's own migration from the legacy single-file store.

  Documents are read back from disk as they were written, so every key of a
  record may be missing; each such key is an Option here, and the defaults the
  server applies when reading them are spelled out.
 */
module Records {
  import opened Wrappers

  /** The history keeps at most this many entries after a save. */
  const MAX_HISTORY: nat := 1000
  /** The action a save records when the request names none. */
  const MANUAL_UPDATE: string := "manual_update"
  /** The action both migrations record. */
  const MIGRATED_ACTION: string := "migrated_from_old_format"

  /** The legacy `tickets-data.json` document: any counter may be missing. */
  datatype LegacyData = LegacyData(
    pendingTickets: Option<int>,
    totalTickets: Option<int>,
    resolvedTickets: Option<int>)

  /**
    A history entry. A save records the counters it wrote; the server's own
    migration records the whole legacy document under `data` instead.
   */
  datatype HistoryEntry =
    | Snapshot(timestamp: string, action: string,
               pendingTickets: int, totalTickets: int, resolvedTickets: int)
    | LegacyPayload(timestamp: string, action: string, data: LegacyData)

  /** A monthly record as stored; `month` is a `YYYY-MM` key. */
  datatype MonthRecord = MonthRecord(
    pendingTickets: Option<int>,
    totalTickets: Option<int>,
    resolvedTickets: Option<int>,
    month: Option<string>,
    history: Option<seq<HistoryEntry>>)

  /** The body of a save request: each counter and the action may be missing. */
  datatype SaveRequest = SaveRequest(
    pendingTickets: Option<int>,
    totalTickets: Option<int>,
    resolvedTickets: Option<int>,
    action: Option<string>)

  /** The record a month has before anything was saved for it. */
  function EmptyRecord(month: string): MonthRecord {
    MonthRecord(Some(0), Some(0), Some(0), Some(month), Some([]))
  }

  function Min(a: int, b: int): int {
    if a <= b then a else b
  }

  // ---------------------------------------------------------------------------
  // History retention
  // ---------------------------------------------------------------------------

  /** `history[-1000:]` when the history is longer than 1000, else the history itself. */
  function KeepLatest(h: seq<HistoryEntry>): (r: seq<HistoryEntry>)
    ensures |r| == Min(|h|, MAX_HISTORY)
    ensures r == h[|h| - |r|..]
  {
    if |h| > MAX_HISTORY then h[|h| - MAX_HISTORY..] else h
  }

  /** Appends one entry and drops the oldest entries beyond the cap. */
  function AppendEntry(h: seq<HistoryEntry>, e: HistoryEntry): (r: seq<HistoryEntry>)
    ensures |r| == Min(|h| + 1, MAX_HISTORY)
    ensures r[|r| - 1] == e
    ensures r == (h + [e])[|h| + 1 - |r|..]
    ensures |h| < MAX_HISTORY ==> r == h + [e]
  {
    KeepLatest(h + [e])
  }

  /** Trimming before appending more loses nothing that trimming afterwards would keep. */
  lemma KeepLatestAbsorbs(x: seq<HistoryEntry>, y: seq<HistoryEntry>)
    ensures KeepLatest(KeepLatest(x) + y) == KeepLatest(x + y)
  {
    if |x| > MAX_HISTORY {
      var d := |x| - MAX_HISTORY;
      var k := KeepLatest(x);
      assert k == x[d..];
      var n := |x| + |y|;
      assert KeepLatest(k + y) == (x[d..] + y)[n - d - MAX_HISTORY..];
      assert KeepLatest(x + y) == (x + y)[n - MAX_HISTORY..];
      LastOfDropped(x, y, d, MAX_HISTORY);
    }
  }

  /** The last `m` elements of `x[d..] + y` are the last `m` of `x + y`, when `x[d..] + y` has that many. */
  lemma LastOfDropped<T>(x: seq<T>, y: seq<T>, d: nat, m: nat)
    requires d <= |x| && m <= |x| - d + |y|
    ensures (x[d..] + y)[|x| - d + |y| - m..] == (x + y)[|x| + |y| - m..]
  {
    var l := (x[d..] + y)[|x| - d + |y| - m..];
    var r := (x + y)[|x| + |y| - m..];
    forall i | 0 <= i < m
      ensures l[i] == r[i]
    {
      var p := |x| + |y| - m + i;
      if p < |x| {
        assert l[i] == x[d..][p - d];
      } else {
        assert l[i] == y[p - |x|];
      }
    }
  }

  /** The history after saving each of `es` in turn. */
  function AppendAll(h: seq<HistoryEntry>, es: seq<HistoryEntry>): seq<HistoryEntry>
    decreases |es|
  {
    if es == [] then h else AppendAll(AppendEntry(h, es[0]), es[1..])
  }

  /** One save followed by trimming the rest equals trimming everything at once. */
  lemma AppendEntryThenKeep(h: seq<HistoryEntry>, es: seq<HistoryEntry>)
    requires es != []
    ensures KeepLatest(AppendEntry(h, es[0]) + es[1..]) == KeepLatest(h + es)
  {
    KeepLatestAbsorbs(h + [es[0]], es[1..]);
    assert h + [es[0]] + es[1..] == h + es;
  }

  /** Saving entries one by one keeps exactly the latest 1000 of all of them, in order. */
  lemma {:induction false} AppendAllKeepsLatest(h: seq<HistoryEntry>, es: seq<HistoryEntry>)
    requires |h| <= MAX_HISTORY || es != []
    ensures AppendAll(h, es) == KeepLatest(h + es)
    decreases |es|
  {
    if es == [] {
      assert h + es == h;
    } else {
      AppendAllKeepsLatest(AppendEntry(h, es[0]), es[1..]);
      AppendEntryThenKeep(h, es);
    }
  }

  /** After N saves into an empty history it holds min(N, 1000) entries: the N most recent. */
  lemma {:induction false} SavesIntoEmptyHistory(es: seq<HistoryEntry>)
    ensures |AppendAll([], es)| == Min(|es|, MAX_HISTORY)
    ensures AppendAll([], es) == es[|es| - Min(|es|, MAX_HISTORY)..]
  {
    var empty: seq<HistoryEntry> := [];
    AppendAllKeepsLatest(empty, es);
    assert empty + es == es;
    var kept := KeepLatest(es);
    assert AppendAll([], es) == kept;
    assert |kept| == Min(|es|, MAX_HISTORY) && kept == es[|es| - |kept|..];
  }

  // ---------------------------------------------------------------------------
  // Save
  // ---------------------------------------------------------------------------

  /** A counter after a save: the request's value if it has one, else the stored one, else 0. */
  function MergedCounter(requested: Option<int>, stored: Option<int>): int {
    requested.GetOr(stored.GetOr(0))
  }

  /** The entry a save appends: the action asked for (by default "manual_update") and the counters written. */
  function SaveEntry(request: SaveRequest, pending: int, total: int, resolved: int, timestamp: string): HistoryEntry {
    Snapshot(timestamp, request.action.GetOr(MANUAL_UPDATE), pending, total, resolved)
  }

  /**
    The record a save writes for month `month`, given the record loaded for it:
    counters merged, one entry appended, the history capped, the month stamped.
   */
  function SavedRecord(current: MonthRecord, request: SaveRequest, month: string, timestamp: string): (r: MonthRecord)
    ensures r.pendingTickets == Some(if request.pendingTickets.Some? then request.pendingTickets.value
                                     else current.pendingTickets.GetOr(0))
    ensures r.totalTickets == Some(if request.totalTickets.Some? then request.totalTickets.value
                                   else current.totalTickets.GetOr(0))
    ensures r.resolvedTickets == Some(if request.resolvedTickets.Some? then request.resolvedTickets.value
                                      else current.resolvedTickets.GetOr(0))
    ensures r.month == Some(month)
    ensures r.history.Some?
    ensures var prior := current.history.GetOr([]);
            var entry := Snapshot(timestamp,
                                  if request.action.Some? then request.action.value else MANUAL_UPDATE,
                                  r.pendingTickets.value, r.totalTickets.value, r.resolvedTickets.value);
            var h := r.history.value;
            && |h| == Min(|prior| + 1, MAX_HISTORY)
            && h == (prior + [entry])[|prior| + 1 - |h|..]
            && h[|h| - 1] == entry
  {
    var pending := MergedCounter(request.pendingTickets, current.pendingTickets);
    var total := MergedCounter(request.totalTickets, current.totalTickets);
    var resolved := MergedCounter(request.resolvedTickets, current.resolvedTickets);
    var entry := SaveEntry(request, pending, total, resolved, timestamp);
    MonthRecord(Some(pending), Some(total), Some(resolved), Some(month),
                Some(AppendEntry(current.history.GetOr([]), entry)))
  }

  /** A partial update: `{pendingTickets: 5}` against `{1, 2, 1}` gives `{5, 2, 1}`. */
  lemma PartialUpdateExample(history: seq<HistoryEntry>, month: string, timestamp: string)
    ensures var r := SavedRecord(MonthRecord(Some(1), Some(2), Some(1), Some(month), Some(history)),
                                 SaveRequest(Some(5), None, None, None), month, timestamp);
            r.pendingTickets == Some(5) && r.totalTickets == Some(2) && r.resolvedTickets == Some(1)
  {
  }

  // ---------------------------------------------------------------------------
  // The server's own migration
  // ---------------------------------------------------------------------------

  /**
    The record the server's own migration writes: the legacy counters (0 when
    missing) replace the current ones only when the current total is 0, and one
    entry carrying the legacy document is appended, with no cap on the history.
    The current record must have a total: without one the server fails and writes nothing.
   */
  function MigratedRecord(current: MonthRecord, legacy: LegacyData, month: string, timestamp: string): (r: MonthRecord)
    requires current.totalTickets.Some?
    ensures current.totalTickets.value == 0 ==>
              && r.pendingTickets == Some(legacy.pendingTickets.GetOr(0))
              && r.totalTickets == Some(legacy.totalTickets.GetOr(0))
              && r.resolvedTickets == Some(legacy.resolvedTickets.GetOr(0))
    ensures current.totalTickets.value != 0 ==>
              && r.pendingTickets == current.pendingTickets
              && r.totalTickets == current.totalTickets
              && r.resolvedTickets == current.resolvedTickets
    ensures r.month == Some(month)
    ensures r.history.Some?
    ensures var prior := current.history.GetOr([]);
            && |r.history.value| == |prior| + 1
            && r.history.value[..|prior|] == prior
            && r.history.value[|prior|] == LegacyPayload(timestamp, MIGRATED_ACTION, legacy)
  {
    var overlaid :=
      if current.totalTickets.value == 0 then
        current.(pendingTickets := Some(legacy.pendingTickets.GetOr(0)),
                 totalTickets := Some(legacy.totalTickets.GetOr(0)),
                 resolvedTickets := Some(legacy.resolvedTickets.GetOr(0)))
      else current;
    var history := current.history.GetOr([]) + [LegacyPayload(timestamp, MIGRATED_ACTION, legacy)];
    overlaid.(month := Some(month), history := Some(history))
  }
}
