/**
  The server's side of the Jira integration: where its configuration is kept and
  how it is shown without the secret, the credential check made before a fetch,
  and how a search result is turned into pending/resolved/total counts.
  The HTTP request itself is not modelled: its outcome is a parameter, the list
  of the status names of the issues found, or None when the request failed.
 */
module Jira {
  import opened Wrappers
  import opened Text

  /** A Jira configuration document: `url`, `email`, `api_token`, `jql`, or anything else posted. */
  type Config = map<string, string>

  /** The search the server runs when the configuration names none (also the client's default). */
  const DEFAULT_JQL: string := "assignee = currentUser() AND status != Done"

  /** The counts a fetch produces (the `jiraSync` / `data` object). */
  datatype JiraSnapshot = JiraSnapshot(
    pendingTickets: int,
    resolvedTickets: int,
    totalTickets: int,
    lastSync: string)

  /** `config.get(key, '')`. */
  function Field(config: Config, key: string): string {
    if key in config then config[key] else ""
  }

  /** `if user_id:`: a user id selects per-user files only when present and non-empty. */
  predicate IsUser(userId: Option<string>) {
    userId.Some? && userId.value != ""
  }

  /** The caller's id: the `X-User-ID` header unless it is missing or empty, else the `user_id` cookie. */
  function RequestUserId(header: Option<string>, cookie: Option<string>): (r: Option<string>)
    ensures IsUser(r) <==> IsUser(header) || IsUser(cookie)
    ensures IsUser(header) ==> r == header
    ensures !IsUser(header) && IsUser(cookie) ==> r == cookie
  {
    if IsUser(header) then header else cookie
  }

  /** The configuration as the config endpoint shows it: never with the token. */
  datatype ConfigView =
    | NotConfigured
    | Configured(fields: Config, userSpecific: bool)

  /** `{k: v for k, v in config.items() if k != 'api_token'}`. */
  function Redacted(config: Config): (r: Config)
    ensures "api_token" !in r
    ensures forall k :: k in r ==> k in config && r[k] == config[k]
    ensures forall k :: k in config && k != "api_token" ==> k in r
  {
    config - {"api_token"}
  }

  /**
    The configuration files: one per user (`data/jira_config_<user>.json`) and a
    global one (`jira_config.json`) used when there is no user or no file for the user.
   */
  datatype ConfigFiles = ConfigFiles(perUser: map<string, Config>, global: Option<Config>) {

    /** `load_jira_config`: the user's file if there is one, else the global file if any. */
    function Load(userId: Option<string>): (r: Option<Config>)
      ensures IsUser(userId) && userId.value in perUser ==> r == Some(perUser[userId.value])
      ensures !(IsUser(userId) && userId.value in perUser) ==> r == global
    {
      if IsUser(userId) && userId.value in perUser then Some(perUser[userId.value]) else global
    }

    /** `set_jira_config`: writes the user's file, or the global one when there is no user. */
    function Store(userId: Option<string>, config: Config): (r: ConfigFiles)
      ensures r.Load(userId) == Some(config)
      ensures IsUser(userId) ==> r.global == global && r.perUser.Keys == perUser.Keys + {userId.value}
      ensures IsUser(userId) ==> forall u :: u in perUser && u != userId.value ==> r.perUser[u] == perUser[u]
      ensures !IsUser(userId) ==> r.perUser == perUser
    {
      if IsUser(userId) then this.(perUser := perUser[userId.value := config])
      else this.(global := Some(config))
    }

    /**
      `get_jira_config`: the user's file is shown whatever it holds, the global file
      only when it is not empty; in both cases without `api_token`.
     */
    function View(userId: Option<string>): (v: ConfigView)
      ensures v.Configured? ==> "api_token" !in v.fields
      ensures v.Configured? && v.userSpecific <==> IsUser(userId) && userId.value in perUser
      ensures v.NotConfigured? <==>
                !(IsUser(userId) && userId.value in perUser) && (global.None? || global.value == map[])
      ensures v.Configured? ==> v.fields == Redacted(Load(userId).value)
    {
      if IsUser(userId) && userId.value in perUser then Configured(Redacted(perUser[userId.value]), true)
      else if global.Some? && global.value != map[] then Configured(Redacted(global.value), false)
      else NotConfigured
    }
  }

  /**
    Right after a caller stores a configuration, that caller's view of it is the stored
    document without its token: marked as the caller's own when the caller is a user, and
    shown from the global file otherwise, unless it is empty, in which case nothing is shown.
   */
  lemma StoredConfigShownWithoutToken(files: ConfigFiles, writer: Option<string>, config: Config)
    ensures var v := files.Store(writer, config).View(writer);
            && (IsUser(writer) ==> v == Configured(Redacted(config), true))
            && (!IsUser(writer) && config != map[] ==> v == Configured(Redacted(config), false))
            && (!IsUser(writer) && config == map[] ==> v == NotConfigured)
  {
  }

  /**
    `all([jira_url, email, api_token])`, with trailing slashes stripped from the url:
    the url has a character other than '/', and the email and token are not empty.
   */
  function HasCredentials(config: Config): (r: bool)
    ensures r <==> && (exists i | 0 <= i < |Field(config, "url")| :: Field(config, "url")[i] != '/')
                   && Field(config, "email") != ""
                   && Field(config, "api_token") != ""
  {
    var url := Field(config, "url");
    if RStrip(url, '/') == [] then
      assert forall i | 0 <= i < |url| :: url[i] == '/';
      false
    else
      assert !forall i | 0 <= i < |url| :: url[i] == '/';
      Field(config, "email") != "" && Field(config, "api_token") != ""
  }

  /**
    An issue is resolved when its lower-cased status contains "done", "resolved" or
    "closed": in particular whenever it contains one of these words as written, and
    never when it is shorter than four characters.
   */
  function IsResolvedStatus(status: string): (r: bool)
    ensures Contains(status, "done") || Contains(status, "resolved") || Contains(status, "closed") ==> r
    ensures r ==> |status| >= 4
  {
    ResolvedWordsSurviveLower(status);
    var s := Lower(status);
    Contains(s, "done") || Contains(s, "resolved") || Contains(s, "closed")
  }

  /** The three closing words have no capitals, so lower-casing keeps them where they occur. */
  lemma ResolvedWordsSurviveLower(status: string)
    ensures Contains(status, "done") ==> Contains(Lower(status), "done")
    ensures Contains(status, "resolved") ==> Contains(Lower(status), "resolved")
    ensures Contains(status, "closed") ==> Contains(Lower(status), "closed")
  {
    if Contains(status, "done") { LowerKeepsLowerWord(status, "done"); }
    if Contains(status, "resolved") { LowerKeepsLowerWord(status, "resolved"); }
    if Contains(status, "closed") { LowerKeepsLowerWord(status, "closed"); }
  }

  /** Whether a status counts as resolved does not depend on its case. */
  lemma ResolvedStatusIgnoresCase(status: string)
    ensures IsResolvedStatus(Lower(status)) == IsResolvedStatus(status)
  {
    LowerIdempotent(status);
  }

  /** The number of issues whose status counts as resolved. */
  function ResolvedCount(statuses: seq<string>): (n: nat)
    ensures n <= |statuses|
  {
    if statuses == [] then 0
    else ResolvedCount(statuses[..|statuses| - 1]) + (if IsResolvedStatus(statuses[|statuses| - 1]) then 1 else 0)
  }

  /** ResolvedCount is the number of positions whose status is a resolved one. */
  lemma {:induction false} ResolvedCountIsResolvedPositions(statuses: seq<string>)
    ensures ResolvedCount(statuses) == |ResolvedPositions(statuses)|
  {
    if statuses != [] {
      var n := |statuses| - 1;
      ResolvedCountIsResolvedPositions(statuses[..n]);
      ResolvedPositionsSnoc(statuses);
    }
  }

  /** The positions of `statuses` holding a resolved status. */
  function ResolvedPositions(statuses: seq<string>): set<int> {
    set i | 0 <= i < |statuses| && IsResolvedStatus(statuses[i])
  }

  /** The resolved positions of a list are those of its init, plus its last one if resolved. */
  lemma ResolvedPositionsSnoc(statuses: seq<string>)
    requires statuses != []
    ensures var n := |statuses| - 1;
            |ResolvedPositions(statuses)|
            == |ResolvedPositions(statuses[..n])| + (if IsResolvedStatus(statuses[n]) then 1 else 0)
  {
    var n := |statuses| - 1;
    var before := ResolvedPositions(statuses[..n]);
    var added := if IsResolvedStatus(statuses[n]) then {n} else {};
    assert ResolvedPositions(statuses) == before + added by {
      forall i | i in ResolvedPositions(statuses)
        ensures i in before + added
      {
        if i < n { assert statuses[..n][i] == statuses[i]; }
      }
    }
    assert n !in before;
    assert |before + added| == |before| + |added|;
  }

  /** The server's counting loop over the issues of a search result. */
  method CountStatuses(statuses: seq<string>) returns (pending: nat, resolved: nat)
    ensures resolved == ResolvedCount(statuses)
    ensures pending + resolved == |statuses|
  {
    pending, resolved := 0, 0;
    for i := 0 to |statuses|
      invariant resolved == ResolvedCount(statuses[..i])
      invariant pending + resolved == i
    {
      assert statuses[..i + 1][..i] == statuses[..i];
      var status := Lower(statuses[i]);
      if Contains(status, "done") || Contains(status, "resolved") || Contains(status, "closed") {
        resolved := resolved + 1;
      } else {
        pending := pending + 1;
      }
    }
    assert statuses[..|statuses|] == statuses;
  }

  /**
    What `fetch_jira_tickets` returns for the configuration it loaded and the outcome
    of the search: nothing without a non-empty configuration, without all three
    credentials, or when the search failed; otherwise the counts, stamped with the
    time of the call.
   */
  function FetchResult(config: Option<Config>, response: Option<seq<string>>, timestamp: string)
    : (r: Option<JiraSnapshot>)
    ensures r.Some? <==> config.Some? && config.value != map[] && HasCredentials(config.value) && response.Some?
    ensures r.Some? ==> && r.value.totalTickets == |response.value|
                        && r.value.pendingTickets + r.value.resolvedTickets == r.value.totalTickets
                        && r.value.resolvedTickets == ResolvedCount(response.value)
                        && r.value.pendingTickets >= 0
                        && r.value.lastSync == timestamp
  {
    if config.None? || config.value == map[] || !HasCredentials(config.value) || response.None? then None
    else
      var issues := response.value;
      var resolved := ResolvedCount(issues);
      Some(JiraSnapshot(|issues| - resolved, resolved, |issues|, timestamp))
  }

  /** The usual closing status names count as resolved, whatever their case. */
  lemma ResolvedStatusExamples()
    ensures IsResolvedStatus("Done") && IsResolvedStatus("Closed")
  {
    assert Lower("Done") == "done";
    assert OccursAt(Lower("Done"), "done", 0);
    assert Lower("Closed") == "closed";
    assert OccursAt(Lower("Closed"), "closed", 0);
  }

  /** Matching is by substring: any status ending in "Done" counts as resolved. */
  lemma EndsInDoneIsResolved(prefix: string)
    ensures IsResolvedStatus(prefix + "Done")
  {
    var n := |prefix|;
    var s := Lower(prefix + "Done");
    forall k | 0 <= k < 4
      ensures s[n + k] == "done"[k]
    {
      assert (prefix + "Done")[n + k] == "Done"[k];
    }
    assert s[n..n + 4] == "done";
    assert OccursAt(s, "done", n);
  }

  /** So a status that negates "done" still counts as resolved. */
  lemma NegatedStatusExample()
    ensures IsResolvedStatus("Not Done")
  {
    EndsInDoneIsResolved("Not ");
    assert "Not " + "Done" == "Not Done";
  }

  /** A status name that counts as pending. */
  lemma PendingStatusExample()
    ensures !IsResolvedStatus("To Do")
  {
    var s := Lower("To Do");
    assert s == "to do";
    assert !OccursAt(s, "done", 0) && !OccursAt(s, "done", 1);
  }
}
