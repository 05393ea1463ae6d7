/**
  The server's record store (`app.py`): the data directory with one document per
  month, the legacy `tickets-data.json` and its backup, and the Jira configuration
  files, together with the operations that read and write them. Every operation
  that works with "the current month" receives it as `now` (a `YYYY-MM` key) and
  the ISO time of the call as `timestamp`.
 */
module RecordStore {
  import opened Wrappers
  import opened Text
  import opened Records
  import opened Jira

  /** `load_month_data`: the stored record, or the empty record of the month when there is none. */
  function LoadMonth(months: map<string, MonthRecord>, month: string): (r: MonthRecord)
    ensures month in months ==> r == months[month]
    ensures month !in months ==>
              && r.pendingTickets == Some(0) && r.totalTickets == Some(0) && r.resolvedTickets == Some(0)
              && r.month == Some(month) && r.history == Some([])
  {
    if month in months then months[month] else EmptyRecord(month)
  }

  /** The record a successful Jira sync writes: the three counters replaced, the history kept. */
  function SyncedRecord(current: MonthRecord, counts: JiraSnapshot, month: string): (r: MonthRecord)
    ensures r.pendingTickets == Some(counts.pendingTickets)
    ensures r.resolvedTickets == Some(counts.resolvedTickets)
    ensures r.totalTickets == Some(counts.totalTickets)
    ensures r.history == current.history
    ensures r.month == Some(month)
  {
    current.(pendingTickets := Some(counts.pendingTickets),
             resolvedTickets := Some(counts.resolvedTickets),
             totalTickets := Some(counts.totalTickets),
             month := Some(month))
  }

  /** The files `app.py` keeps on disk. */
  class Storage {
    /** `data/tickets-<month>.json`, by month key. */
    var months: map<string, MonthRecord>
    /** `tickets-data.json`, the legacy single-file store. */
    var legacyFile: Option<LegacyData>
    /** `tickets-data.json.backup`. */
    var backupFile: Option<LegacyData>
    /** `data/jira_config_<user>.json` and `jira_config.json`. */
    var configs: ConfigFiles

    constructor (months: map<string, MonthRecord>, legacyFile: Option<LegacyData>,
                 backupFile: Option<LegacyData>, configs: ConfigFiles)
      ensures this.months == months && this.legacyFile == legacyFile
      ensures this.backupFile == backupFile && this.configs == configs
    {
      this.months := months;
      this.legacyFile := legacyFile;
      this.backupFile := backupFile;
      this.configs := configs;
    }

    /**
      `save_month_data`: stamps the record with the current month and overwrites the
      current month's document; it returns the record as stamped.
     */
    method SaveMonthData(now: string, data: MonthRecord) returns (stamped: MonthRecord)
      modifies this`months
      ensures stamped == data.(month := Some(now))
      ensures months == old(months)[now := stamped]
    {
      stamped := data.(month := Some(now));
      months := months[now := stamped];
    }

    /**
      `save_data`: merges the request's counters into the current month's record,
      appends one history entry, keeps the latest 1000 and writes the record back.
      A body that is not a JSON object fails the request and writes nothing.
      On success it answers with the month written.
     */
    method SaveData(request: Option<SaveRequest>, now: string, timestamp: string) returns (savedMonth: Option<string>)
      modifies this`months
      ensures request.None? ==> savedMonth.None? && months == old(months)
      ensures request.Some? ==>
                && savedMonth == Some(now)
                && months == old(months)[now := SavedRecord(LoadMonth(old(months), now), request.value, now, timestamp)]
    {
      if request.None? {
        return None;
      }
      var data := request.value;
      var current := LoadMonth(months, now);
      current := current.(
        pendingTickets := Some(data.pendingTickets.GetOr(current.pendingTickets.GetOr(0))),
        totalTickets := Some(data.totalTickets.GetOr(current.totalTickets.GetOr(0))),
        resolvedTickets := Some(data.resolvedTickets.GetOr(current.resolvedTickets.GetOr(0))));
      var history := current.history.GetOr([]);
      var entry := Snapshot(timestamp, data.action.GetOr(MANUAL_UPDATE),
                            current.pendingTickets.value, current.totalTickets.value, current.resolvedTickets.value);
      history := history + [entry];
      if |history| > MAX_HISTORY {
        history := history[|history| - MAX_HISTORY..];
      }
      current := current.(history := Some(history));
      var stamped := SaveMonthData(now, current);
      savedMonth := stamped.month;
    }

    /**
      `migrate_old_data`, run once when the server is started directly (not when a WSGI
      server imports it). Without a legacy file it does nothing.
      Otherwise it overlays the legacy counters when the current month's total is 0,
      appends one entry holding the legacy document, writes the month and moves the
      legacy file over the backup. A current record without a total makes it fail
      (and change nothing).
     */
    method MigrateOldData(now: string, timestamp: string) returns (migrated: bool)
      modifies this`months, this`legacyFile, this`backupFile
      ensures migrated <==> old(legacyFile).Some? && LoadMonth(old(months), now).totalTickets.Some?
      ensures !migrated ==>
                months == old(months) && legacyFile == old(legacyFile) && backupFile == old(backupFile)
      ensures migrated ==>
                && months == old(months)[now := MigratedRecord(LoadMonth(old(months), now), old(legacyFile).value, now, timestamp)]
                && legacyFile.None?
                && backupFile == old(legacyFile)
    {
      if legacyFile.None? {
        return false;
      }
      var legacy := legacyFile.value;
      var entry := LegacyPayload(timestamp, MIGRATED_ACTION, legacy);
      var current := LoadMonth(months, now);
      if current.totalTickets.None? {
        return false;
      }
      if current.totalTickets.value == 0 {
        current := current.(
          pendingTickets := Some(legacy.pendingTickets.GetOr(0)),
          totalTickets := Some(legacy.totalTickets.GetOr(0)),
          resolvedTickets := Some(legacy.resolvedTickets.GetOr(0)));
      }
      var history := current.history.GetOr([]);
      history := history + [entry];
      current := current.(history := Some(history));
      var stamped := SaveMonthData(now, current);
      backupFile := legacyFile;
      legacyFile := None;
      migrated := true;
    }

    /** `fetch_jira_tickets` for the caller's configuration; `response` is the outcome of the search. */
    method FetchJiraTickets(userId: Option<string>, response: Option<seq<string>>, timestamp: string)
      returns (result: Option<JiraSnapshot>)
      ensures result == FetchResult(configs.Load(userId), response, timestamp)
    {
      var config := configs.Load(userId);
      if config.None? || config.value == map[] {
        return None;
      }
      var url := RStrip(Field(config.value, "url"), '/');
      var email := Field(config.value, "email");
      var apiToken := Field(config.value, "api_token");
      if url == "" || email == "" || apiToken == "" {
        return None;
      }
      if response.None? {
        return None;
      }
      var issues := response.value;
      var pending, resolved := CountStatuses(issues);
      result := Some(JiraSnapshot(pending, resolved, |issues|, timestamp));
    }

    /**
      `get_data`: the current month's record as stored, and beside it the Jira counts
      when a configuration exists and the fetch succeeds; the stored counters are never
      replaced on this path.
     */
    method GetData(header: Option<string>, cookie: Option<string>, response: Option<seq<string>>,
                   now: string, timestamp: string)
      returns (data: MonthRecord, jiraSync: Option<JiraSnapshot>)
      ensures data == LoadMonth(months, now)
      ensures jiraSync == FetchResult(configs.Load(RequestUserId(header, cookie)), response, timestamp)
    {
      var userId := RequestUserId(header, cookie);
      data := LoadMonth(months, now);
      jiraSync := None;
      var config := configs.Load(userId);
      if config.Some? && config.value != map[] {
        jiraSync := FetchJiraTickets(userId, response, timestamp);
      }
    }

    /**
      `sync_jira`: on a successful fetch the current month's three counters are
      overwritten with Jira's and the record is written back, history untouched;
      on a failed fetch nothing is written.
     */
    method SyncJira(header: Option<string>, cookie: Option<string>, response: Option<seq<string>>,
                    now: string, timestamp: string)
      returns (result: Option<JiraSnapshot>)
      modifies this`months
      ensures result == FetchResult(configs.Load(RequestUserId(header, cookie)), response, timestamp)
      ensures result.None? ==> months == old(months)
      ensures result.Some? ==> months == old(months)[now := SyncedRecord(LoadMonth(old(months), now), result.value, now)]
      ensures result.Some? ==>
                var r := months[now].pendingTickets.value;
                && r >= 0
                && months[now].totalTickets.value == r + months[now].resolvedTickets.value
    {
      var userId := RequestUserId(header, cookie);
      result := FetchJiraTickets(userId, response, timestamp);
      if result.Some? {
        var counts := result.value;
        var current := LoadMonth(months, now);
        current := current.(
          pendingTickets := Some(counts.pendingTickets),
          resolvedTickets := Some(counts.resolvedTickets),
          totalTickets := Some(counts.totalTickets));
        var stamped := SaveMonthData(now, current);
      }
    }

    /** `get_jira_config`: the caller's configuration (or the global one), without its token. */
    method GetJiraConfig(header: Option<string>, cookie: Option<string>) returns (view: ConfigView)
      ensures view == configs.View(RequestUserId(header, cookie))
      ensures view.Configured? ==> "api_token" !in view.fields
    {
      var userId := RequestUserId(header, cookie);
      view := configs.View(userId);
    }

    /** `set_jira_config`: the posted configuration becomes the caller's (or the global) file. */
    method SetJiraConfig(header: Option<string>, cookie: Option<string>, config: Config)
      modifies this`configs
      ensures configs == old(configs).Store(RequestUserId(header, cookie), config)
      ensures configs.Load(RequestUserId(header, cookie)) == Some(config)
    {
      var userId := RequestUserId(header, cookie);
      configs := configs.Store(userId, config);
    }
  }

  /**
    The migration run twice: the second run finds no legacy file (or the same
    missing total) and changes nothing; the Jira configuration is never touched.
   */
  method MigrateTwice(s: Storage, now: string, timestamp: string) returns (first: bool, second: bool)
    modifies s`months, s`legacyFile, s`backupFile
    ensures !second
    ensures first <==> old(s.legacyFile).Some? && LoadMonth(old(s.months), now).totalTickets.Some?
    ensures first ==> && s.months == old(s.months)[now := MigratedRecord(LoadMonth(old(s.months), now),
                                                                         old(s.legacyFile).value, now, timestamp)]
                      && s.legacyFile.None?
                      && s.backupFile == old(s.legacyFile)
    ensures !first ==> && s.months == old(s.months) && s.legacyFile == old(s.legacyFile)
                       && s.backupFile == old(s.backupFile)
    ensures s.configs == old(s.configs)
  {
    first := s.MigrateOldData(now, timestamp);
    second := s.MigrateOldData(now, timestamp);
  }

  // ---------------------------------------------------------------------------
  // Month listing
  // ---------------------------------------------------------------------------

  const MONTH_FILE_PREFIX: string := "tickets-"
  const JSON_SUFFIX: string := ".json"

  predicate IsDigit(c: char) {
    '0' <= c <= '9'
  }

  /** A `YYYY-MM` key, as `strftime('%Y-%m')` writes it. */
  predicate IsMonthKey(k: string) {
    |k| == 7 && IsDigit(k[0]) && IsDigit(k[1]) && IsDigit(k[2]) && IsDigit(k[3])
    && k[4] == '-' && IsDigit(k[5]) && IsDigit(k[6])
  }

  /** `get_month_file`: the name of a month's document: the month between `tickets-` and `.json`. */
  function MonthFileName(month: string): (name: string)
    ensures |name| == |MONTH_FILE_PREFIX| + |month| + |JSON_SUFFIX|
    ensures name[..|MONTH_FILE_PREFIX|] == MONTH_FILE_PREFIX
    ensures name[|MONTH_FILE_PREFIX|..|name| - |JSON_SUFFIX|] == month
    ensures name[|name| - |JSON_SUFFIX|..] == JSON_SUFFIX
  {
    MONTH_FILE_PREFIX + month + JSON_SUFFIX
  }

  /** The glob `tickets-*.json`. */
  predicate IsMonthFile(name: string) {
    |name| >= |MONTH_FILE_PREFIX| + |JSON_SUFFIX|
    && name[..|MONTH_FILE_PREFIX|] == MONTH_FILE_PREFIX
    && name[|name| - |JSON_SUFFIX|..] == JSON_SUFFIX
  }

  /**
    `file.stem.replace('tickets-', '')`: at most what lies between the prefix and the
    extension, and exactly that when the prefix does not occur there again.
   */
  function MonthOfFile(name: string): (month: string)
    requires IsMonthFile(name)
    ensures var middle := name[|MONTH_FILE_PREFIX|..|name| - |JSON_SUFFIX|];
            && |month| <= |middle|
            && (!Contains(middle, MONTH_FILE_PREFIX) ==> month == middle)
  {
    var stem := name[..|name| - |JSON_SUFFIX|];
    var middle := name[|MONTH_FILE_PREFIX|..|name| - |JSON_SUFFIX|];
    assert stem == MONTH_FILE_PREFIX + middle;
    ReplaceAllLeading(MONTH_FILE_PREFIX, middle, "");
    ReplaceAll(stem, MONTH_FILE_PREFIX, "")
  }

  /** The months `list_months` collects from a directory listing, in listing order. */
  function MonthsIn(files: seq<string>): seq<string> {
    if files == [] then []
    else
      var last := files[|files| - 1];
      MonthsIn(files[..|files| - 1]) + (if IsMonthFile(last) then [MonthOfFile(last)] else [])
  }

  /**
    `list_months`: collects the month of every `tickets-*.json` in the listing of the
    data directory (in whatever order the listing gives) and sorts them descending.
   */
  method ListMonths(files: seq<string>) returns (result: seq<string>)
    ensures SortedDesc(result)
    ensures multiset(result) == multiset(MonthsIn(files))
  {
    var found: seq<string> := [];
    for i := 0 to |files|
      invariant found == MonthsIn(files[..i])
    {
      assert files[..i + 1][..i] == files[..i];
      var file := files[i];
      if IsMonthFile(file) {
        found := found + [MonthOfFile(file)];
      }
    }
    assert files[..|files|] == files;
    result := SortDesc(found);
  }

  /** A month's document is listed under its own key. */
  lemma MonthFileRoundTrip(month: string)
    requires IsMonthKey(month)
    ensures IsMonthFile(MonthFileName(month))
    ensures MonthOfFile(MonthFileName(month)) == month
  {
    var name := MonthFileName(month);
    assert name[..|MONTH_FILE_PREFIX|] == MONTH_FILE_PREFIX;
    assert name[|name| - |JSON_SUFFIX|..] == JSON_SUFFIX;
    assert name[..|name| - |JSON_SUFFIX|] == MONTH_FILE_PREFIX + month;
    ReplaceAllLeading(MONTH_FILE_PREFIX, month, "");
    assert 't' !in month;
    ReplaceAllWithoutPattern(month, MONTH_FILE_PREFIX, "");
  }

  /** Listing the documents of a set of month keys yields exactly those keys. */
  lemma MonthsInMonthFiles(keys: seq<string>)
    requires forall k :: k in keys ==> IsMonthKey(k)
    ensures MonthsIn(seq(|keys|, i requires 0 <= i < |keys| => MonthFileName(keys[i]))) == keys
  {
    var listing := seq(|keys|, i requires 0 <= i < |keys| => MonthDocument(keys[i]));
    assert KeyedMonths(listing);
    assert Names(listing) == seq(|keys|, i requires 0 <= i < |keys| => MonthFileName(keys[i]));
    MonthsInDataDirectory(listing);
    DocumentsOnly(keys);
  }

  /** A listing of month documents only holds the months of its documents. */
  lemma {:induction false} DocumentsOnly(keys: seq<string>)
    ensures StoredMonths(seq(|keys|, i requires 0 <= i < |keys| => MonthDocument(keys[i]))) == keys
  {
    if keys != [] {
      var n := |keys| - 1;
      var listing := seq(|keys|, i requires 0 <= i < |keys| => MonthDocument(keys[i]));
      DocumentsOnly(keys[..n]);
      assert listing[..n] == seq(n, i requires 0 <= i < n => MonthDocument(keys[..n][i]));
      assert keys[..n] + [keys[n]] == keys;
    }
  }

  /** A Jira configuration file in the data directory is never taken for a month. */
  lemma ConfigFileIsNotMonthFile(user: string)
    ensures !IsMonthFile("jira_config_" + user + JSON_SUFFIX)
  {
    var name := "jira_config_" + user + JSON_SUFFIX;
    assert name[0] == 'j';
  }

  /** A file of the data directory: a month's document or a user's Jira configuration. */
  datatype DataFile = MonthDocument(month: string) | UserConfig(user: string)

  /** The name the server gives each kind of file in the data directory. */
  function DataFileName(f: DataFile): string {
    match f
    case MonthDocument(month) => MonthFileName(month)
    case UserConfig(user) => "jira_config_" + user + JSON_SUFFIX
  }

  /** The names of a directory listing. */
  function Names(listing: seq<DataFile>): seq<string> {
    seq(|listing|, i requires 0 <= i < |listing| => DataFileName(listing[i]))
  }

  /** The months of the month documents of a listing, in listing order. */
  function StoredMonths(listing: seq<DataFile>): seq<string> {
    if listing == [] then []
    else
      var last := listing[|listing| - 1];
      StoredMonths(listing[..|listing| - 1]) + (if last.MonthDocument? then [last.month] else [])
  }

  /** Every month document of the listing is named by a `YYYY-MM` key, as `get_month_file` names it. */
  predicate KeyedMonths(listing: seq<DataFile>) {
    forall i | 0 <= i < |listing| :: listing[i].MonthDocument? ==> IsMonthKey(listing[i].month)
  }

  /**
    However month documents and configuration files are interleaved in the directory,
    the months collected from it are exactly the months of its documents, in order.
   */
  lemma {:induction false} MonthsInDataDirectory(listing: seq<DataFile>)
    requires KeyedMonths(listing)
    ensures MonthsIn(Names(listing)) == StoredMonths(listing)
  {
    if listing != [] {
      var n := |listing| - 1;
      assert KeyedMonths(listing[..n]);
      MonthsInDataDirectory(listing[..n]);
      assert Names(listing)[..n] == Names(listing[..n]);
      match listing[n]
      case MonthDocument(month) => MonthFileRoundTrip(month);
      case UserConfig(user) => ConfigFileIsNotMonthFile(user);
    }
  }

  /**
    `list_months` over the data directory of any store gives the months of its documents,
    newest first, whatever the order of the directory listing.
   */
  lemma ListingOfDataDirectory(listing: seq<DataFile>, result: seq<string>)
    requires KeyedMonths(listing)
    requires SortedDesc(result) && multiset(result) == multiset(MonthsIn(Names(listing)))
    ensures result == SortDesc(StoredMonths(listing))
  {
    MonthsInDataDirectory(listing);
    SortedDescUnique(result, SortDesc(StoredMonths(listing)));
  }

  /** Three month keys come back newest first. */
  lemma ListingExample()
    ensures SortDesc(["2024-01", "2024-12", "2023-11"]) == ["2024-12", "2024-01", "2023-11"]
  {
    var input := ["2024-01", "2024-12", "2023-11"];
    var expected := ["2024-12", "2024-01", "2023-11"];
    ExampleKeysDescend();
    assert multiset(expected) == multiset(input);
    SortedDescUnique(SortDesc(input), expected);
  }

  /** The example keys, newest first, are in descending order. */
  lemma ExampleKeysDescend()
    ensures SortedDesc(["2024-12", "2024-01", "2023-11"])
  {
    assert LexLe("2024-01", "2024-12") by {
      assert "2024-01"[1..] == "024-01" && "2024-12"[1..] == "024-12";
    }
    assert LexLe("2023-11", "2024-01");
    assert LexLe("2023-11", "2024-12");
  }
}
