# Access-log analyzer and endpoint health checker, in Dafny

This project models two maintenance scripts of the repository and proves
properties of the model.

- `system_scripts/log_analyzer.py`, class `LogAnalyzer`. It reads a web
  server's access log line by line. `parse_line` runs four regular-expression
  searches on each line: the client address, the `DD/Mon/YYYY:HH:MM:SS`
  timestamp, the quoted request and the status code. It updates the counters
  `ip_counts`, `status_codes`, `request_paths` and `hourly_traffic`, the list
  `errors_404` and `total_requests`. `analyze` folds `parse_line` over the
  lines. `generate_report` builds a summary and the top-10 rankings, the
  status distribution, the hour histogram sorted by hour, and the last ten
  404 lines.
- `system_scripts/app_health_checker.py`, class `ApplicationHealthChecker`.
  `check_endpoint` labels one HTTP probe as up or down.
  `check_all_endpoints` checks every configured URL in turn. It stores the
  latest result per URL, appends the result to a bounded per-URL history and
  sends an alert for a down result when alerts are enabled.
  `generate_report` counts the results and derives the overall status.

Files:

| file | module | contents |
|---|---|---|
| `option.dfy` | `Opt` | `Option` |
| `pydict.dfy` | `PyDict` | Python's insertion-ordered `dict` and `Counter`: `d[k] = v`, `c[k] += 1`, `len`, `items()`, `most_common(n)` (a stable sort, descending by count), `sorted(items())` under Python's string order |
| `log_patterns.dfy` | `LogPatterns` | the four `re.search` calls as scanners, each proved equal to a declarative "first match" shape; the strptime validity test; `%H` |
| `log_analyzer.dfy` | `LogAnalysis` | the statistics as a value (`Stats`), one line's update (`Step`), the fold (`Run`), the report, and the class `LogAnalyzer` with its fields, `ParseLine` and `Analyze` proved against `Step` and `Run` |
| `log_scenarios.dfy` | `LogScenarios` | consequences for particular line shapes |
| `health_checker.dfy` | `HealthCheck` | the probe classification, one round of checks as a value (`Round`), its invariant, the summary, and the class `HealthChecker` whose `CheckAllEndpoints` is proved against `Round` |

Modelling decisions:

- **Regex classes are ASCII.** `\d` is `0-9` and `\w` is `[A-Za-z0-9_]`.
- **`re.search` is leftmost first.** `Leftmost` returns the least start
  position with a match. The address pattern's greedy `\d{1,3}` groups are
  resolved as the regex engine does: the longest match at that start.
- **strptime is a validity predicate.** `ValidDateTime` accepts a token
  when it has a C-locale month abbreviation (compared ignoring ASCII case), a
  day that exists in that month of that year (Gregorian leap years), a year
  of at least 1, an hour up to 23, and minutes and seconds up to 59. Seconds
  60 and 61 pass strptime's own pattern, but `datetime` then rejects them.
  Any other token raises `ValueError`. The hour bucket is the token's two
  hour digits, which is what `strftime('%H')` prints for a parsed time.
- **An exception exits `parse_line` early.** The only exception the body
  can raise is strptime's `ValueError`. By then the address has been
  counted. The hour, path, status, 404 list and `total_requests` are left
  unchanged.
- **Python dicts keep insertion order.** `Dict` pairs `keys` (the order in
  which keys were first stored) with `entries`. `most_common` is modelled as
  a stable insertion sort by descending count, followed by "take n". Python's
  `sorted` is stable too, so ties stay in insertion order, and insertion
  order is first-seen order (`TallyOrder`).
- **Health probes are inputs.** `requests.get` becomes a `Probe`: either the
  response's status code or the text of a `RequestException`. The i-th
  configured URL gets `probes[i]`. `response_time` and `last_check` are
  clock readings and are not modelled.
- **Alerts become events.** `send_alert` adds an event to `alerts` instead
  of building and sending mail. An `smtp_config` that is missing or empty
  gives `AlertSkipped`, the warning-only path. A complete configuration
  gives `AlertAttempted`, whatever the SMTP server then does, since
  failures there are caught. A configuration without `from_email` or
  `to_email` raises `KeyError`. That `KeyError` ends `check_all_endpoints`
  with the current URL's updates already made. The model returns `None` in
  that case and `Round` reports `completed == false`.
- **`max_history` is an unbounded integer.** `config.get('max_history', 100)`
  feeds Python's slice `h[-m:]`. The slice is modelled exactly. A bound of
  0 keeps every entry, because `h[-0:]` is all of `h`. A negative bound `-n`
  drops the oldest `n` entries. The invariant `Coherent` is stated for
  bounds of at least 0.

Two consequences of the code that a reader might not expect:

- `total_requests += 1` is the last statement of the `try` block, so a line
  whose timestamp strptime rejects is not counted, though its address is.
  The address counts can therefore add up to more than `total_requests`
  (`AddressesCanOutnumberRequests`), and a run over K lines reports K
  requests only if no line raises (`TotalCountsCompletedLines`).
- The status pattern `" (\d{3}) ` needs a space after the digits, so a code
  that ends a line, as in `"GET /index.html" 200`, with or without its
  newline, is never counted (`StatusNeedsTrailingSpace`).

## Model

| member | source | states |
|---|---|---|
| LogPatterns.Leftmost | system_scripts/log_analyzer.py:35-51 | the start position `re.search` reports is the least position from which its pattern matches, and none is reported only when no position matches |
| LogPatterns.IpEndSpec | system_scripts/log_analyzer.py:18 | the address match at a position is the longest text there shaped like four groups of 1-3 digits separated by dots; there is a match exactly when such text starts there |
| LogPatterns.FindIpSpec | system_scripts/log_analyzer.py:35-37 | the address found is the leftmost, then longest, address-shaped text; none is found exactly when the line contains no such text |
| LogPatterns.FindTimestampSpec | system_scripts/log_analyzer.py:19 | the timestamp token is the first `DD/Mon/YYYY:HH:MM:SS`-shaped text; none is found exactly when no position holds one |
| LogPatterns.HourKey | system_scripts/log_analyzer.py:42 | for a token strptime accepts, the hour key is a two-digit label from "00" to "23" |
| LogPatterns.MethodUnique | system_scripts/log_analyzer.py:20 | at most one alternative of the method group, followed by its space, matches at a position |
| LogPatterns.RequestAtSpec | system_scripts/log_analyzer.py:20 | a request match at a position is a quote, a method, a space, quote-free text and the next quote; when the scanner finds none, no such match exists there |
| LogPatterns.FindRequestSpec | system_scripts/log_analyzer.py:46-48 | the path is the text between the method's space and the closing quote of the first request match; none is found exactly when no request matches |
| LogPatterns.FindRequestAt | system_scripts/log_analyzer.py:46-48 | a request match with none before it fixes the path found |
| LogPatterns.FindStatusSpec | system_scripts/log_analyzer.py:21 | the status is the three digits of the first `" ddd ` text; none is found exactly when no position holds one |
| LogAnalysis.IncOpt | system_scripts/log_analyzer.py:36-37 | `c[k] += 1` for a found value adds one to that key's count and leaves every other count alone |
| LogAnalysis.ApplyEffects | system_scripts/log_analyzer.py:31-61 | for each extracted field: the address is counted whenever found; hour, path, status and the 404 list change only through their own match and only if strptime did not raise; the total grows by exactly one unless it raised |
| LogAnalysis.StepEffects | system_scripts/log_analyzer.py:31-61 | the same per-counter effects of one `parse_line` on every key, stated on the line itself |
| LogAnalysis.RejectedLineKeepsAddress | system_scripts/log_analyzer.py:35-43 | when the timestamp token exists but strptime rejects it, the only change is the address count |
| LogAnalysis.NewStatsConsistent | system_scripts/log_analyzer.py:23-29 | the empty statistics satisfy the invariant |
| LogAnalysis.StepConsistent | system_scripts/log_analyzer.py:31-61 | `parse_line` preserves the invariant: valid counters, hour keys only "00".."23", `len(errors_404) == status_codes["404"]`, every 404 line completed with status "404", and each of the status, path and hour totals at most `total_requests` |
| LogAnalysis.RunConsistent | system_scripts/log_analyzer.py:63-68 | the invariant holds after any sequence of lines |
| LogAnalysis.RunClosedForm | system_scripts/log_analyzer.py:63-68 | after a run from fresh each counter is the tally of its extracted values over the lines in order; the 404 list is the 404 lines in encounter order; the total is the number of lines that did not raise |
| LogAnalysis.TotalCountsCompletedLines | system_scripts/log_analyzer.py:58-61 | `total_requests` is at most the number of lines, and equals it when no line raises |
| LogAnalysis.RecentErrorsSpec | system_scripts/log_analyzer.py:86 | `recent_404_errors` has min(10, n) entries and is the suffix of the 404 list in original order |
| LogAnalysis.ReportSpec | system_scripts/log_analyzer.py:74-89 | `unique_ips` is the number of distinct addresses; `total_404_errors` equals the "404" count; the status distribution is the whole status counter in insertion order; the hour histogram holds the same hours and counts, ascending by hour, every key a valid hour |
| LogAnalysis.LogAnalyzer.constructor | system_scripts/log_analyzer.py:16-29 | a new analyzer has empty counters, no 404 lines and a zero total |
| LogAnalysis.LogAnalyzer.ParseLine | system_scripts/log_analyzer.py:31-61 | the fields after the imperative update equal `Step` of the old fields |
| LogAnalysis.LogAnalyzer.Analyze | system_scripts/log_analyzer.py:63-69 | the loop leaves the fields equal to `Run` of the old fields over the lines, and returns the report of that state |
| LogScenarios.StatusNeedsTrailingSpace | system_scripts/log_analyzer.py:51-53 | a status code that ends the line, followed by nothing or only a newline, is not found |
| LogScenarios.PathKeepsProtocol | system_scripts/log_analyzer.py:46-48 | when the first quote opens a request, the path is all the text up to the closing quote, protocol version included |
| LogScenarios.FebruaryThirtieth | system_scripts/log_analyzer.py:42 | `30/Feb/2023:13:55:36` has the timestamp shape but is rejected by strptime |
| LogScenarios.AddressesCanOutnumberRequests | system_scripts/log_analyzer.py:35-61 | after the single line `1.2.3.4 30/Feb/2023:13:55:36` the address counts sum to 1 while `total_requests` is 0 |
| PyDict.Put | system_scripts/app_health_checker.py:75 | `d[k] = v` stores `v` under `k`, keeps every other entry, appends a new key to the order and leaves a present key in place |
| PyDict.LengthIsKeyCount | system_scripts/log_analyzer.py:79 | the length of the key order is the number of distinct keys |
| PyDict.Inc | system_scripts/log_analyzer.py:37 | `c[k] += 1` raises `k`'s count by one, no other count, and appends a new key to the order |
| PyDict.TotalInc | system_scripts/log_analyzer.py:37 | each `+= 1` raises the sum of all counts by exactly one |
| PyDict.TallyCounts | system_scripts/log_analyzer.py:24-26 | a counter fed a sequence of keys holds each key's number of occurrences |
| PyDict.TallyKeys | system_scripts/log_analyzer.py:24-26 | a counter fed a sequence of keys holds exactly the keys that occur in it |
| PyDict.TallyOrder | system_scripts/log_analyzer.py:82 | a counter's key order is first-seen order |
| PyDict.CountItemsSpec | system_scripts/log_analyzer.py:83 | for a well-formed counter, `items()` lists each stored key exactly once, in insertion order, with its stored count, and lists nothing else |
| PyDict.SortDescSpec | system_scripts/log_analyzer.py:82 | the stable sort gives a permutation of the items, descending by count, with items of equal count in their original order |
| PyDict.MostCommonSpec | system_scripts/log_analyzer.py:82-84 | `most_common(n)` has min(n, number of keys) items, descending by count, each a key of the counter with its true count |
| PyDict.MostCommonLeavesSmaller | system_scripts/log_analyzer.py:82-84 | a key left out of `most_common(n)` counts no more than any key it lists |
| PyDict.MostCommonStable | system_scripts/log_analyzer.py:82-84 | among keys of equal count, `most_common(n)` lists a prefix of them in insertion order |
| PyDict.SortByKeySpec | system_scripts/log_analyzer.py:85 | `sorted(items())` is a permutation of the items, strictly ascending by key under Python's string order |
| PyDict.StrLessTotal | system_scripts/log_analyzer.py:85 | Python's string order puts any two different strings one before the other |
| HealthCheck.CheckEndpoint | system_scripts/app_health_checker.py:45-69 | a response is up exactly when its code is below 400 and keeps its code with no message; a request exception is down with code 0 and its message |
| HealthCheck.FailureIsDownDespiteCode | system_scripts/app_health_checker.py:61-69 | a failed request records code 0, below 400, yet is down |
| HealthCheck.SliceFrom | system_scripts/app_health_checker.py:85 | Python's `h[start:]` is a suffix of `h` |
| HealthCheck.KeepRecentSpec | system_scripts/app_health_checker.py:83-85 | a positive bound keeps the newest min(len, bound) entries; 0 keeps all; `-n` drops the oldest n |
| HealthCheck.AppendKeepsNewest | system_scripts/app_health_checker.py:78-85 | with a positive bound, appending then trimming leaves the new result last, length min(len + 1, bound), after the newest part of the old history |
| HealthCheck.RecordEndpoints | system_scripts/app_health_checker.py:75 | after a check the URL's entry is the new result, every other entry is unchanged, and a new URL goes last in the order |
| HealthCheck.RecordHistory | system_scripts/app_health_checker.py:78-80 | the checked URL has a history and every other URL's history is unchanged |
| HealthCheck.RecordNewest | system_scripts/app_health_checker.py:78-85 | the checked URL's history ends with the new result; with a positive bound it is the newest part of the old history plus the result, of length min(len + 1, bound); with 0 it only grows |
| HealthCheck.VisitRecords | system_scripts/app_health_checker.py:73-92 | the endpoint and history updates are made before the alert, whatever the alert does |
| HealthCheck.VisitAlerts | system_scripts/app_health_checker.py:91-112 | an alert is attempted exactly for a down result with alerts enabled; without SMTP settings only the skip is recorded; a missing address raises and the round stops |
| HealthCheck.NewMonitorCoherent | system_scripts/app_health_checker.py:29-32 | the empty checker satisfies the invariant |
| HealthCheck.RecordCoherent | system_scripts/app_health_checker.py:74-85 | one check preserves the invariant: results filed under their own URL, the same URLs in both maps, every history ends with the current result and respects a positive bound |
| HealthCheck.RoundCoherent | system_scripts/app_health_checker.py:71-94 | a whole round, completed or not, preserves the invariant |
| HealthCheck.RoundFrame | system_scripts/app_health_checker.py:73-85 | a URL the round does not visit keeps its entry and its history |
| HealthCheck.RoundLastWins | system_scripts/app_health_checker.py:73-75 | after a completed round every configured URL maps to the result of its last check, so for a duplicate URL the last result wins |
| HealthCheck.RoundCompletes | system_scripts/app_health_checker.py:91-112 | a round runs to the end unless alerts are enabled, the SMTP settings lack an address and some check comes back down |
| HealthCheck.RoundAlerts | system_scripts/app_health_checker.py:91-100 | a completed round records one alert event per down result in check order when alerts are enabled, and none otherwise |
| HealthCheck.ReportItemsSpec | system_scripts/app_health_checker.py:130 | the report lists every recorded URL once, in dictionary order, with its latest result |
| HealthCheck.EveryUpSpec | system_scripts/app_health_checker.py:129 | the `all(...)` test holds exactly when every listed URL is recorded as up |
| HealthCheck.SummarySpec | system_scripts/app_health_checker.py:125-137 | `total` is the number of distinct URLs, `up + down == total`, and the overall status is up exactly when every result is up, in particular when there is none |
| HealthCheck.HealthChecker.constructor | system_scripts/app_health_checker.py:29-32 | a new checker has no results, no history and no alerts |
| HealthCheck.HealthChecker.SendAlert | system_scripts/app_health_checker.py:96-123 | records the skip or the attempt, or reports the `KeyError`, and changes nothing else |
| HealthCheck.HealthChecker.Store | system_scripts/app_health_checker.py:75-85 | the state after storing a result and trimming its history equals `Record` of the old state |
| HealthCheck.HealthChecker.CheckAllEndpoints | system_scripts/app_health_checker.py:71-94 | the loop leaves the state equal to `Round` over the configured URLs and reports whether it ran to the end; the returned map is the endpoint map |

## Left out

- File and console I/O are not modelled: opening and reading the log, `save_report`, `load_config`'s JSON parsing, `main` and its command-line handling, and all `logging` calls. `analyze` receives the lines as a sequence, so the open-failure path that returns `None` is not modelled.
- Unicode digits and letters are not modelled. Python's `\d` and `\w` also match non-ASCII digits and letters, and `strptime` would then reject those digits.
- Locale-specific month names are not modelled; `%b` uses the C locale.
- `response_time` and `last_check` are not modelled. They are clock readings (`time.time()`, `datetime.now()`) and affect no decision.
- `requests.get` and its `timeout` setting are not modelled; the outcome of each request is an input. Exceptions that are not `RequestException` are not modelled either; they would propagate out of the round.
- Message building and SMTP sending in `send_alert` are not modelled. Only the decision, the warning-only path and the `KeyError` on a missing address are kept; errors from the server are caught in the source and change no state.
- `self.config['endpoints']` missing (a `KeyError`) is not modelled. Neither are `max_history` or `enable_alerts` values of types other than integer and boolean.
- `generate_report`'s `timestamp` field is not modelled. It is a clock reading.
- HealthCheck.Coherent: the invariant is proved only for `max_history >= 0`. A negative bound can trim a history to nothing, and then the history no longer ends with the current result.
- `backup_manager.py`, `system_health_monitor.py` and the Playwright TypeScript files are not part of this model.
