/**
  The standalone migration script (`migrate_data.py`): builds the current month's
  document from the legacy `tickets-data.json`. Unlike the server's own
  migration it always takes the legacy counters, keeps only the history of an
  existing month document, and records the counters (not the legacy document)
  in its history entry. Writing the document and renaming the legacy file are
  not modelled; the function gives the document that is written, or None when
  nothing is written.
 */
module MigrateScript {
  import opened Wrappers
  import opened Records

  /** The history kept from the month's existing document: its `history`, if it has one. */
  function ExistingHistory(existing: Option<MonthRecord>): seq<HistoryEntry> {
    if existing.Some? && existing.value.history.Some? then existing.value.history.value else []
  }

  /**
    `migrate`: None when there is no legacy file. Otherwise the legacy counters (0 when
    missing), the month, and the existing history followed by exactly one migration entry.
   */
  function Migrate(legacy: Option<LegacyData>, existing: Option<MonthRecord>, month: string, timestamp: string)
    : (r: Option<MonthRecord>)
    ensures r.None? <==> legacy.None?
    ensures r.Some? ==>
              && r.value.pendingTickets == Some(legacy.value.pendingTickets.GetOr(0))
              && r.value.totalTickets == Some(legacy.value.totalTickets.GetOr(0))
              && r.value.resolvedTickets == Some(legacy.value.resolvedTickets.GetOr(0))
              && r.value.month == Some(month)
    ensures r.Some? ==>
              var prior := ExistingHistory(existing);
              && r.value.history.Some?
              && |r.value.history.value| == |prior| + 1
              && r.value.history.value[..|prior|] == prior
              && r.value.history.value[|prior|] == Snapshot(timestamp, MIGRATED_ACTION,
                                                            r.value.pendingTickets.value,
                                                            r.value.totalTickets.value,
                                                            r.value.resolvedTickets.value)
  {
    if legacy.None? then None
    else
      var data := legacy.value;
      var pending := data.pendingTickets.GetOr(0);
      var total := data.totalTickets.GetOr(0);
      var resolved := data.resolvedTickets.GetOr(0);
      var newData := MonthRecord(Some(pending), Some(total), Some(resolved), Some(month),
                                 Some([Snapshot(timestamp, MIGRATED_ACTION, pending, total, resolved)]));
      if existing.Some? && existing.value.history.Some? then
        Some(newData.(history := Some(existing.value.history.value + newData.history.value)))
      else
        Some(newData)
  }

  /** The existing document's counters are discarded: only its history matters. */
  lemma MigrateIgnoresExistingCounters(legacy: LegacyData, a: MonthRecord, b: MonthRecord,
                                       month: string, timestamp: string)
    requires a.history == b.history
    ensures Migrate(Some(legacy), Some(a), month, timestamp) == Migrate(Some(legacy), Some(b), month, timestamp)
  {
  }

  /**
    On a month whose total is 0 the script and the server's own migration write the
    same counters and keep the same prior history; they differ in the entry they add.
   */
  lemma MigrationsAgreeOnEmptyMonth(legacy: LegacyData, current: MonthRecord, month: string, timestamp: string)
    requires current.totalTickets == Some(0)
    ensures var byScript := Migrate(Some(legacy), Some(current), month, timestamp).value;
            var byServer := MigratedRecord(current, legacy, month, timestamp);
            && byScript.pendingTickets == byServer.pendingTickets
            && byScript.totalTickets == byServer.totalTickets
            && byScript.resolvedTickets == byServer.resolvedTickets
            && byScript.month == byServer.month
            && |byScript.history.value| == |byServer.history.value|
            && byScript.history.value[..|byScript.history.value| - 1]
               == byServer.history.value[..|byServer.history.value| - 1]
  {
  }

  /** On a month that already has tickets, the script overwrites them and the server does not. */
  lemma MigrationsDisagreeOnBusyMonth(legacy: LegacyData, current: MonthRecord, month: string, timestamp: string)
    requires current.totalTickets.Some? && current.totalTickets.value != 0
    requires legacy.totalTickets.GetOr(0) != current.totalTickets.value
    ensures Migrate(Some(legacy), Some(current), month, timestamp).value.totalTickets
            != MigratedRecord(current, legacy, month, timestamp).totalTickets
  {
  }
}
