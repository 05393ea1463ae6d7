# Ticket counter: the monthly record rules

This project models, in Dafny, the record rules of a small ticket counter. The counter keeps
three numbers per calendar month: pending, total and resolved tickets. It also keeps a
history log for each month. Three programs implement the rules:

- `app.py`, the Flask server. It keeps one JSON document per month (`data/tickets-YYYY-MM.json`)
  and does the following:
  - it merges partial saves into the document, appends a history entry and keeps only the
    latest 1000 entries;
  - when it is started directly (`python app.py`, not when a WSGI server imports it), it
    migrates the legacy single-file store `tickets-data.json` (app.py:381-386);
  - it counts the Jira issues of a search as pending or resolved;
  - it overwrites the month's counters with Jira's on an explicit sync;
  - it lists the stored months, newest first;
  - its configuration endpoint never shows the Jira API token back.
- `script.js`, the page. It holds the counter state and updates it from the add, resolve and
  reset buttons. It loads the state from the server and validates the Jira configuration form.
- `migrate_data.py`, the standalone migration script. It builds the current month's document
  from the legacy file.

The Dafny modules are:

- `Wrappers`: `Option`.
- `Text`: the string functions the programs rely on, each with its properties proved:
  - Python's `lower` and `in`, `str.replace`, `rstrip`;
  - code-point string order and `sorted(..., reverse=True)`;
  - JavaScript's `trim`.
- `Records`: the stored document and the rules for a save and for the server's migration.
  These are pure functions.
- `Jira`: the Jira side of the server:
  - the configuration files and their redacted view;
  - the credential check;
  - the status classification and the counting loop;
  - the result of a fetch.
- `RecordStore`: the class `Storage` stands for the files the server keeps. Its methods are
  the request handlers that change them. The method `ListMonths` models the month listing.
- `MigrateScript`: the standalone migration, as a pure function.
- `CounterUi`: the class `CounterState` is the page's `state` object, and its methods are the
  button handlers. The function `JiraConfigForm` models the configuration form's validation.

Some values come from the environment and are parameters instead:

- the current month (`now`, a `YYYY-MM` key);
- the time of a call (`timestamp`);
- the outcome of the Jira search: the issues' status names, or `None` when the request failed;
- the outcome of the page's requests;
- the user's answer to the reset confirmation.

The stored JSON documents are duck-typed: any key may be missing. So every field of a stored
record is an `Option`, and the defaults the code applies (`.get(k, 0)`, `'history' not in`,
`|| 0`) are written out.

## Behaviour of the code worth knowing

- Month records are shared by all callers. Only the Jira configuration is kept per user.
- `save_data` does not check who is calling.
- `sync_jira` overwrites the three counters and writes the record back. It does not append a
  history entry (app.py:320-327).
- The server's migration overlays the legacy counters when the current `totalTickets` is 0.
  It does not check that all three counters are 0.
- The server's migration appends its entry without the 1000-entry cap (app.py:90-95).
- `list_months` removes every occurrence of `tickets-` from the file stem, not only a
  leading one (app.py:256). `MonthFileRoundTrip` shows this still gives back the key for any
  file the server writes, and `ReplaceAllSkipsPrefix` shows an occurrence after the start is
  removed too.
- Only the configuration endpoint hides the token (app.py:280 and 288). The catch-all static
  route serves any file under the server's directory (app.py:340-347), so `jira_config.json`
  and `data/jira_config_<user>.json` can be fetched as they are, token included.
- `app.py` registers two different view functions named `index` on `/` (app.py:332-338 and
  377-378). Flask refuses the second registration, so as written importing `app.py` fails
  before the migration can run. The model describes the handlers as they behave once the
  duplicate is removed.

## Model

| member | source | states |
|---|---|---|
| Records.KeepLatest | app.py:241-243 | the kept history has min(n, 1000) entries and is the suffix of the history, in order |
| Records.AppendEntry | app.py:239-243 | appending one entry gives min(n+1, 1000) entries: the suffix of old history ++ [entry], ending with the entry; below the cap nothing is dropped |
| Records.KeepLatestAbsorbs | app.py:241-243 | trimming earlier and then trimming again keeps the same entries as trimming once at the end |
| Records.AppendAllKeepsLatest | app.py:228-243 | saving at least one entry, one by one, into any history keeps exactly the latest 1000 of the old history followed by the new entries (with no entries, a history within the cap is kept as it is) |
| Records.SavesIntoEmptyHistory | app.py:228-243 | after N saves into an empty history it holds min(N, 1000) entries, the N most recent in call order |
| Records.SavedRecord | app.py:218-245 | a counter in the request replaces the stored one; a missing one keeps the stored value (or 0); `month` is stamped with the current month; exactly one entry is appended, carrying the merged counters and the action (default "manual_update"), and the history is capped at 1000 |
| Records.PartialUpdateExample | app.py:222-226 | `{pendingTickets: 5}` saved over `{1, 2, 1}` gives `{5, 2, 1}` |
| Records.MigratedRecord | app.py:72-95 | the legacy counters (missing ones read as 0) replace the current ones only when the current total is 0; otherwise the current counters are kept; one "migrated_from_old_format" entry carrying the legacy document is appended after the old history, with no cap |
| Jira.Redacted | app.py:280 | the shown configuration has no `api_token` and every other key with its value |
| Jira.ConfigFiles.Load | app.py:112-125 | the caller's file when there is a non-empty user id with a file; otherwise the global file, or nothing |
| Jira.ConfigFiles.Store | app.py:294-311 | after storing, loading for the same caller gives the stored configuration; other users' files and, for a user, the global file are unchanged |
| Jira.ConfigFiles.View | app.py:269-292 | a user's file is shown whatever it holds; the global file only when non-empty; "not configured" exactly when neither applies; the token is never shown |
| Jira.StoredConfigShownWithoutToken | app.py:269-311 | right after a caller stores a configuration, that caller is shown exactly the stored document minus `api_token`: as its own file when the caller is a user, from the global file otherwise, and nothing when a global document stored is empty |
| Jira.RequestUserId | app.py:199 | the caller is a user exactly when the `X-User-ID` header or the `user_id` cookie is a non-empty id; a non-empty header wins over the cookie |
| Jira.HasCredentials | app.py:134-140 | the check passes exactly when the url has a character other than '/' (so something survives stripping trailing slashes) and the email and token are non-empty |
| Jira.IsResolvedStatus | app.py:168-169 | a status holding "done", "resolved" or "closed" as written counts as resolved; a status shorter than four characters never does |
| Jira.ResolvedStatusIgnoresCase | app.py:168 | lower-casing a status first does not change whether it counts as resolved |
| Jira.ResolvedCount | app.py:164-172 | the resolved count never exceeds the number of issues |
| Jira.ResolvedCountIsResolvedPositions | app.py:164-172 | the resolved count is the number of issues whose lower-cased status contains "done", "resolved" or "closed" |
| Jira.CountStatuses | app.py:164-172 | the loop's resolved count is the specified count and pending + resolved equals the number of issues |
| Jira.FetchResult | app.py:127-186 | counts exist exactly when there is a non-empty configuration with url (trailing slashes stripped), email and token all non-empty and the search succeeded; then total = number of issues = pending + resolved, pending >= 0, and lastSync is the call time |
| Jira.ResolvedStatusExamples | app.py:168-169 | "Done" and "Closed" count as resolved |
| Jira.EndsInDoneIsResolved | app.py:168-169 | any status name ending in "Done" counts as resolved, because matching is by substring |
| Jira.NegatedStatusExample | app.py:168-169 | "Not Done" counts as resolved |
| Jira.PendingStatusExample | app.py:168-172 | "To Do" counts as pending |
| RecordStore.LoadMonth | app.py:42-54 | a stored month is returned as stored; a month with no document gives zero counters, empty history and that month |
| RecordStore.SyncedRecord | app.py:320-327 | a sync replaces the three counters with Jira's and keeps the history as it was |
| RecordStore.Storage.SaveMonthData | app.py:56-61 | the record is stamped with the current month and replaces that month's document; no other month changes |
| RecordStore.Storage.SaveData | app.py:214-249 | a request without a JSON body writes nothing and fails; otherwise only the current month's document changes, to the saved record, and the answer is the current month |
| RecordStore.Storage.MigrateOldData | app.py:63-110 | it migrates exactly when the legacy file exists and the current record has a total; then the month holds the migrated record and the legacy file becomes the backup; otherwise nothing changes |
| RecordStore.MigrateTwice | app.py:63-107 | a second migration right after the first always reports false and changes nothing further: after a migrating first run the month holds the migrated record, the legacy file is gone and the backup holds the old legacy document; after a non-migrating one months, legacy file and backup are as before; the Jira configuration is never touched |
| RecordStore.Storage.FetchJiraTickets | app.py:127-186 | the fetch for a caller is the fetch result for the configuration loaded for that caller |
| RecordStore.Storage.GetData | app.py:189-212 | the stored record of the current month is returned unchanged, with beside it the Jira counts of the caller named by the header or cookie when the fetch succeeds |
| RecordStore.Storage.SyncJira | app.py:315-329 | a failed fetch changes nothing; a successful one writes the synced record for the current month only, and its counters satisfy total = pending + resolved with pending >= 0 |
| RecordStore.Storage.GetJiraConfig | app.py:269-292 | the view shown is the configuration view for the caller named by the header or cookie, and it never holds the token |
| RecordStore.Storage.SetJiraConfig | app.py:294-313 | the posted configuration becomes the one loaded for the same caller, the caller being named by the header or cookie |
| RecordStore.ListMonths | app.py:251-258 | the result is sorted descending and is a permutation of the months of the `tickets-*.json` files in the listing |
| RecordStore.MonthOfFile | app.py:256 | the month taken from a `tickets-*.json` name is no longer than what lies between the prefix and `.json`, and is exactly that part when `tickets-` does not occur in it again |
| RecordStore.MonthFileName | app.py:37-40 | a month's document is named by the month between `tickets-` and `.json` |
| RecordStore.MonthFileRoundTrip | app.py:255-256 | a month's file name matches the glob `tickets-*.json` (`IsMonthFile`), and listing it gives back the month key |
| RecordStore.MonthsInMonthFiles | app.py:254-257 | listing the documents of a sequence of month keys gives exactly those keys, in order |
| RecordStore.MonthsInDataDirectory | app.py:254-257 | for any interleaving of month documents and per-user Jira configuration files, the months collected are exactly the months of the documents, in listing order |
| RecordStore.ListingOfDataDirectory | app.py:251-258 | whatever the order of the directory listing, the sorted result of `list_months` is the months of the stored documents, newest first |
| RecordStore.ConfigFileIsNotMonthFile | app.py:255 | a per-user Jira configuration file is never listed as a month |
| RecordStore.ListingExample | app.py:258 | the keys 2024-01, 2024-12 and 2023-11 are listed as 2024-12, 2024-01, 2023-11 |
| Text.SortDesc | app.py:258 | the result is sorted descending and is a permutation of the input |
| Text.SortedDescUnique | app.py:258 | two descending orders of the same strings are equal, so the sorted listing is determined by its months |
| Text.Trim | script.js:203-206 | the result is a slice of the input with no white space at either end, everything before and after that slice is white space, and the result is empty exactly when the input is all white space |
| Text.Lower | app.py:168 | the result has the input's length, no capital letter, every non-capital character unchanged and every capital replaced by its lower case |
| Text.LowerIdempotent | app.py:168 | lower-casing twice gives the same as lower-casing once |
| Text.Contains | app.py:169 | the left-to-right search for a word finds it exactly when the word occurs at some position of the text |
| Text.LowerKeepsLowerWord | app.py:168-169 | a word without capitals that occurs in a text also occurs in the lower-cased text |
| Text.ReplaceAll | app.py:256 | a text without the pattern comes back unchanged, and replacing by the empty string never lengthens the text |
| Text.ReplaceAllLeading | app.py:256 | a text starting with the pattern comes back with that occurrence replaced, followed by the replaced rest |
| Text.ReplaceAllWithoutPattern | app.py:256 | a text that lacks the pattern's first character comes back unchanged |
| Text.ReplaceAllSkipsPrefix | app.py:256 | an occurrence after a prefix free of the pattern's first character is replaced, the prefix kept and the scan resumed after it |
| Text.RStrip | app.py:134 | the result is a prefix of the input, the dropped characters are all the stripped one, and the result is empty exactly when the input consists only of that character |
| MigrateScript.Migrate | migrate_data.py:11-54 | nothing is written without a legacy file; otherwise the counters are the legacy ones (missing ones read as 0), the month is the current one, and the history is the existing history followed by exactly one "migrated_from_old_format" entry carrying the new counters, with no cap |
| MigrateScript.MigrateIgnoresExistingCounters | migrate_data.py:31-50 | the existing document's counters never affect the result; only its history does |
| MigrateScript.MigrationsAgreeOnEmptyMonth | migrate_data.py:31-50 | on a month whose total is 0 the script and the server's migration write the same counters and keep the same prior history |
| MigrateScript.MigrationsDisagreeOnBusyMonth | migrate_data.py:31-35 | on a month with tickets, the script overwrites the total and the server's migration keeps it |
| CounterUi.CounterState.constructor | script.js:2-6 | the page starts with all three counters at 0 |
| CounterUi.CounterState.ResolveDisabled | script.js:86-90 | the resolve button is disabled exactly when pending is 0 |
| CounterUi.CounterState.SaveBody | script.js:52-63 | a save posts the three counters of the state and the action |
| CounterUi.CounterState.AddNewTicket | script.js:94-99 | pending and total go up by one and resolved is unchanged; pending >= 0, resolved >= 0 and total = pending + resolved are preserved; the new state is posted as "new_ticket" |
| CounterUi.CounterState.ResolveTicket | script.js:102-111 | with pending 0 nothing changes and nothing is posted; otherwise one ticket moves from pending to resolved, the total is unchanged, the relation is preserved and the state is posted as "ticket_resolved" |
| CounterUi.CounterState.ResetCounter | script.js:114-124 | a confirmed reset sets all three counters to 0 and posts "reset"; an unconfirmed one changes nothing |
| CounterUi.CounterState.LoadData | script.js:11-49 | an ok response sets each counter from the data, with a missing one read as 0; a failed request falls back to the saved copy when there is one; a response that is not ok changes nothing |
| CounterUi.CounterState.SyncJira | script.js:267-312 | a successful sync takes the three counts from the server; a failed one changes nothing; counts that satisfy the relation leave the state consistent |
| CounterUi.PostedStateIsStored | script.js:59-62 | when the server stores the body a page state posts, the record holds that state's counters and ends with an entry of the action and those counters |
| CounterUi.JiraConfigForm | script.js:199-212 | the form is rejected exactly when the url, email or token is blank; otherwise it posts the four trimmed fields, and a blank query becomes the default query |
| CounterUi.FormConfigCredentials | script.js:202-212 | a configuration the form accepts passes the server's credential check exactly when its trimmed url has a character other than '/' |
| CounterUi.SlashUrlAcceptedThenRefused | app.py:134-140 | a url made only of slashes passes the form but every fetch with it yields nothing |

## Left out

- `server.py` is not part of this model. It is an older stand-alone HTTP server that writes
  the request body to `tickets-data.json` verbatim.
- Flask routing, CORS, static file serving and the health check are not modelled. They are
  outside the record rules.
- `get_month` (app.py:260-267) is not modelled. It reads one month's record by key and answers
  404 when the file is missing; this is `LoadMonth` without the empty-record default.
- JSON parsing and file I/O are not modelled. Storage is a map from month key to record, the
  legacy file and its backup are `Option`s, and the Jira configuration files are a map with a
  global fallback. I/O failures are left out: unreadable files, failed writes, failed
  renames. The failures that are modelled are the ones the code itself checks for: a save
  request without a JSON body, which `SaveData` answers with a failure and no write, and a
  current record without `totalTickets`, which makes the server's migration give up.
- Concurrency is left out: each request handler and each page handler is modelled as one
  atomic step. Flask's threaded server can interleave the load, merge and write of two
  `save_data` calls, so one save can be lost; and the page's overlapping asynchronous saves
  can reach the server out of order, the last one to arrive winning.
- Stored and posted values are modelled as integers. A document that holds a non-integer
  counter (a string, `null`, a float) is left out.
- The Jira HTTP request is left out: the search URL, JQL, headers, `maxResults`, status
  codes and the timeout. Its outcome is an input. A missing status name is the empty string,
  and a missing `issues` list is the empty list.
- `datetime.now()` is left out: the month key and the timestamp are parameters, the same
  for every call within one request.
- Browser side effects are left out: `fetch`, `localStorage`, DOM updates, `alert`,
  `confirm`, keyboard shortcuts and the save on `beforeunload`. The random `getUserId` and
  the status messages of `checkJiraConfig` and `updateJiraStatus` are left out too.
- The file write and the rename of `migrate_data.py` are left out. `MigrateScript.Migrate`
  gives the document that is written.
- Records.MigratedRecord: the history entry it appends carries only the three counters of
  the legacy document. Any other key of `tickets-data.json` (an `action`, say) is copied
  into the entry by the code but is not part of `LegacyData`, so the model drops it.
- Text.Lower: lower-cases ASCII letters only. Python's `str.lower` also lower-cases other
  letters. The words the classification looks for are ASCII, but a status name whose other
  letters are non-ASCII capitals can lower-case differently.
- CounterUi.CounterState.LoadData: the `localStorage` fallback takes whatever
  `JSON.parse` returns. The model only accepts a well-formed copy of the three counters, or
  none at all.
- CounterUi.CounterState.LoadData: `|| 0` also turns a falsy non-number (`""`, `null`,
  `false`) into 0. With counters modelled as integers, only a missing or zero counter
  becomes 0.
