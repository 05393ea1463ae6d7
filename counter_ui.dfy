/**
  The browser side (`script.js`): the page's counter state and the buttons that
  change it, how it is filled from the server, which body it posts on every
  change, and the validation of the Jira configuration form. The browser calls
  themselves (fetch, localStorage, DOM, confirm/alert) are not modelled: what they
  return is a parameter, and what is posted is a result.
 */
module CounterUi {
  import opened Wrappers
  import opened Text
  import opened Records
  import opened Jira

  /** The three counters, as kept in the `localStorage` copy. */
  datatype Counters = Counters(pendingTickets: int, totalTickets: int, resolvedTickets: int)

  /** How the `GET /api/data` of `loadData` ended. */
  datatype LoadOutcome =
      /** An ok response; each counter may be missing (or falsy) in it. */
    | Fetched(pendingTickets: Option<int>, totalTickets: Option<int>, resolvedTickets: Option<int>)
      /** A response that is not ok. */
    | NotOk
      /** The request threw; the readable `localStorage` copy, if any. */
    | Failed(saved: Option<Counters>)

  /** The page's `state` object. */
  class CounterState {
    var pendingTickets: int
    var totalTickets: int
    var resolvedTickets: int

    constructor ()
      ensures pendingTickets == 0 && totalTickets == 0 && resolvedTickets == 0
    {
      pendingTickets, totalTickets, resolvedTickets := 0, 0, 0;
    }

    /** Every ticket counted is pending or resolved, and neither count is negative. */
    predicate Consistent()
      reads this
    {
      pendingTickets >= 0 && resolvedTickets >= 0 && totalTickets == pendingTickets + resolvedTickets
    }

    /** `resolveBtn.disabled` as `updateUI` sets it. */
    function ResolveDisabled(): (disabled: bool)
      reads this
      ensures disabled <==> pendingTickets == 0
      ensures Consistent() && !disabled ==> pendingTickets > 0
    {
      pendingTickets == 0
    }

    /** The body `saveData(action)` posts: the state and the action. */
    function SaveBody(action: string): (r: SaveRequest)
      reads this
      ensures r.pendingTickets == Some(pendingTickets) && r.totalTickets == Some(totalTickets)
      ensures r.resolvedTickets == Some(resolvedTickets) && r.action == Some(action)
    {
      SaveRequest(Some(pendingTickets), Some(totalTickets), Some(resolvedTickets), Some(action))
    }

    /** `addNewTicket`: one more pending ticket and one more in total, then a "new_ticket" save. */
    method AddNewTicket() returns (posted: SaveRequest)
      modifies this
      ensures pendingTickets == old(pendingTickets) + 1
      ensures totalTickets == old(totalTickets) + 1
      ensures resolvedTickets == old(resolvedTickets)
      ensures old(Consistent()) ==> Consistent()
      ensures posted == SaveBody("new_ticket")
    {
      pendingTickets := pendingTickets + 1;
      totalTickets := totalTickets + 1;
      posted := SaveBody("new_ticket");
    }

    /**
      `resolveTicket`: nothing when no ticket is pending; otherwise one ticket moves from
      pending to resolved, the total stays, and a "ticket_resolved" save follows.
     */
    method ResolveTicket() returns (posted: Option<SaveRequest>)
      modifies this
      ensures old(pendingTickets) == 0 ==>
                posted.None? && pendingTickets == 0
                && totalTickets == old(totalTickets) && resolvedTickets == old(resolvedTickets)
      ensures old(pendingTickets) != 0 ==>
                && pendingTickets == old(pendingTickets) - 1
                && resolvedTickets == old(resolvedTickets) + 1
                && totalTickets == old(totalTickets)
                && posted == Some(SaveBody("ticket_resolved"))
      ensures old(Consistent()) ==> Consistent()
    {
      if pendingTickets == 0 {
        return None;
      }
      pendingTickets := pendingTickets - 1;
      resolvedTickets := resolvedTickets + 1;
      posted := Some(SaveBody("ticket_resolved"));
    }

    /** `resetCounter`: when the user confirms, all three counters become 0 and a "reset" save follows. */
    method ResetCounter(confirmed: bool) returns (posted: Option<SaveRequest>)
      modifies this
      ensures confirmed ==> pendingTickets == 0 && totalTickets == 0 && resolvedTickets == 0
      ensures confirmed ==> posted == Some(SaveRequest(Some(0), Some(0), Some(0), Some("reset")))
      ensures !confirmed ==>
                && posted.None? && pendingTickets == old(pendingTickets)
                && totalTickets == old(totalTickets) && resolvedTickets == old(resolvedTickets)
      ensures confirmed ==> Consistent()
    {
      if !confirmed {
        return None;
      }
      pendingTickets, totalTickets, resolvedTickets := 0, 0, 0;
      posted := Some(SaveBody("reset"));
    }

    /**
      `loadData`: an ok response replaces the state, each missing counter becoming 0;
      a failed request falls back to the `localStorage` copy when there is one; a
      response that is not ok leaves the state as it was.
     */
    method LoadData(outcome: LoadOutcome)
      modifies this
      ensures outcome.Fetched? ==>
                && pendingTickets == outcome.pendingTickets.GetOr(0)
                && totalTickets == outcome.totalTickets.GetOr(0)
                && resolvedTickets == outcome.resolvedTickets.GetOr(0)
      ensures outcome.Failed? && outcome.saved.Some? ==>
                Counters(pendingTickets, totalTickets, resolvedTickets) == outcome.saved.value
      ensures outcome.NotOk? || (outcome.Failed? && outcome.saved.None?) ==>
                && pendingTickets == old(pendingTickets)
                && totalTickets == old(totalTickets) && resolvedTickets == old(resolvedTickets)
    {
      match outcome
      case Fetched(pending, total, resolved) =>
        pendingTickets := pending.GetOr(0);
        totalTickets := total.GetOr(0);
        resolvedTickets := resolved.GetOr(0);
      case NotOk =>
      case Failed(saved) =>
        if saved.Some? {
          pendingTickets := saved.value.pendingTickets;
          totalTickets := saved.value.totalTickets;
          resolvedTickets := saved.value.resolvedTickets;
        }
    }

    /**
      `syncJira`: a successful sync replaces the state with the counts the server got
      from Jira, which always satisfy the counter relation; a failed one changes nothing.
     */
    method SyncJira(result: Option<JiraSnapshot>)
      modifies this
      ensures result.Some? ==>
                && pendingTickets == result.value.pendingTickets
                && totalTickets == result.value.totalTickets
                && resolvedTickets == result.value.resolvedTickets
      ensures result.None? ==>
                && pendingTickets == old(pendingTickets)
                && totalTickets == old(totalTickets) && resolvedTickets == old(resolvedTickets)
      ensures result.Some? && result.value.pendingTickets >= 0 && result.value.resolvedTickets >= 0
              && result.value.totalTickets == result.value.pendingTickets + result.value.resolvedTickets
              ==> Consistent()
    {
      if result.Some? {
        pendingTickets := result.value.pendingTickets;
        totalTickets := result.value.totalTickets;
        resolvedTickets := result.value.resolvedTickets;
      }
    }
  }

  /** What the server stores from the body the page posts: the page's counters and its action. */
  lemma PostedStateIsStored(s: CounterState, current: MonthRecord, action: string, month: string, timestamp: string)
    ensures var r := SavedRecord(current, s.SaveBody(action), month, timestamp);
            && r.pendingTickets == Some(s.pendingTickets)
            && r.totalTickets == Some(s.totalTickets)
            && r.resolvedTickets == Some(s.resolvedTickets)
            && r.history.value[|r.history.value| - 1]
               == Snapshot(timestamp, action, s.pendingTickets, s.totalTickets, s.resolvedTickets)
  {
  }

  /**
    `saveJiraConfig`: every field trimmed; rejected (None) when the url, email or token
    is blank; a blank query replaced by the default one.
   */
  function JiraConfigForm(url: string, email: string, apiToken: string, jql: string): (r: Option<Config>)
    ensures r.None? <==> IsBlank(url) || IsBlank(email) || IsBlank(apiToken)
    ensures r.Some? ==>
              && r.value.Keys == {"url", "email", "api_token", "jql"}
              && r.value["url"] == Trim(url) && r.value["email"] == Trim(email)
              && r.value["api_token"] == Trim(apiToken)
              && r.value["url"] != "" && r.value["email"] != "" && r.value["api_token"] != ""
              && (IsBlank(jql) ==> r.value["jql"] == DEFAULT_JQL)
              && (!IsBlank(jql) ==> r.value["jql"] == Trim(jql))
  {
    var u, e, t, q := Trim(url), Trim(email), Trim(apiToken), Trim(jql);
    if u == "" || e == "" || t == "" then None
    else Some(FormFields(u, e, t, if q != "" then q else DEFAULT_JQL))
  }

  /** The configuration document the form posts. */
  function FormFields(url: string, email: string, apiToken: string, jql: string): (config: Config)
    ensures config.Keys == {"url", "email", "api_token", "jql"}
    ensures config["url"] == url && config["email"] == email
    ensures config["api_token"] == apiToken && config["jql"] == jql
  {
    map["url" := url, "email" := email, "api_token" := apiToken, "jql" := jql]
  }

  /**
    A configuration the form accepts passes the server's credential check unless its
    url is nothing but slashes, which the form lets through and the server strips away.
   */
  lemma FormConfigCredentials(url: string, email: string, apiToken: string, jql: string)
    requires !IsBlank(url) && !IsBlank(email) && !IsBlank(apiToken)
    ensures var config := JiraConfigForm(url, email, apiToken, jql).value;
            HasCredentials(config) <==> exists i | 0 <= i < |Trim(url)| :: Trim(url)[i] != '/'
  {
    var config := JiraConfigForm(url, email, apiToken, jql).value;
    var u := Trim(url);
    assert Field(config, "url") == u;
    assert Field(config, "email") != "" && Field(config, "api_token") != "";
    if RStrip(u, '/') == [] {
      assert forall i | 0 <= i < |u| :: u[i] == '/';
    } else {
      assert !forall i | 0 <= i < |u| :: u[i] == '/';
    }
  }

  /** A url made only of slashes is accepted by the form and then refused by every fetch. */
  lemma SlashUrlAcceptedThenRefused(url: string, email: string, apiToken: string, jql: string)
    requires url != [] && forall i | 0 <= i < |url| :: url[i] == '/'
    requires !IsBlank(email) && !IsBlank(apiToken)
    ensures JiraConfigForm(url, email, apiToken, jql).Some?
    ensures !HasCredentials(JiraConfigForm(url, email, apiToken, jql).value)
  {
    assert !IsJsSpace(url[0]);
    var u := Trim(url);
    var lo :| BetweenBlanks(url, u, lo);
    assert forall i | 0 <= i < |u| :: u[i] == url[lo + i];
    FormConfigCredentials(url, email, apiToken, jql);
  }
}
