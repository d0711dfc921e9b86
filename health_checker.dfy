/**
 * `ApplicationHealthChecker` from the endpoint health checker: how one probe
 * is labelled, the round of `check_all_endpoints` (latest status per URL,
 * bounded history, alert decision), and the summary of `generate_report`.
 * The HTTP request is an input: a response's status code or the text of the
 * request exception. An alert is recorded as an event instead of being mailed.
 */
module HealthCheck {
  import opened Opt
  import opened PyDict

  datatype Health = Up | Down

  /** What `requests.get(url)` produced. */
  datatype Probe =
    | Response(statusCode: int)        // the server answered with this status code
    | RequestFailed(message: string)   // `requests.RequestException`, as `str(e)`

  /** `EndpointStatus`, without its `response_time` and `last_check` clock readings. */
  datatype EndpointStatus = EndpointStatus(url: string, status: Health, statusCode: int, errorMessage: Option<string>)

  /** `check_endpoint(url)` once the request has produced `probe`. */
  function CheckEndpoint(url: string, probe: Probe): (r: EndpointStatus)
    ensures r.url == url
    ensures r.status == Up <==> probe.Response? && probe.statusCode < 400
    ensures probe.Response? ==> r.statusCode == probe.statusCode && r.errorMessage == None
    ensures probe.RequestFailed? ==> r.status == Down && r.statusCode == 0 && r.errorMessage == Some(probe.message)
  {
    match probe
    case Response(code) => EndpointStatus(url, if code < 400 then Up else Down, code, None)
    case RequestFailed(message) => EndpointStatus(url, Down, 0, Some(message))
  }

  /**
   * The label is not a function of the recorded status code: a failed
   * request records code 0, which is below 400, and is still down.
   */
  lemma FailureIsDownDespiteCode(url: string, message: string)
    ensures var r := CheckEndpoint(url, RequestFailed(message));
      r.statusCode < 400 && r.status == Down
  {
  }

  // ---------------------------------------------------------------- config

  /** What `config['smtp_config']` holds, as far as `send_alert` can tell. */
  datatype SmtpSetting =
    | NoSmtp           // missing or empty: the alert is skipped with a warning
    | MissingAddress   // present, but without 'from_email' or 'to_email': KeyError
    | SmtpReady        // present with both addresses: a message is built and sent

  /** The configuration keys the round reads; `None` is a key missing from the file. */
  datatype Config = Config(
    endpoints: seq<string>,
    maxHistory: Option<int>,
    enableAlerts: Option<bool>,
    smtp: SmtpSetting)

  /** `config.get('max_history', 100)`. */
  function MaxHistory(cfg: Config): int {
    match cfg.maxHistory
    case Some(m) => m
    case None => 100
  }

  /** `config.get('enable_alerts', False)`. */
  function AlertsEnabled(cfg: Config): bool {
    match cfg.enableAlerts
    case Some(b) => b
    case None => false
  }

  // ---------------------------------------------------------------- history

  /** Python's `h[start:]`: a negative start counts from the end, and an index past either end is clamped. */
  function SliceFrom<T>(h: seq<T>, start: int): (r: seq<T>)
    ensures |r| <= |h| && r == h[|h| - |r|..]
  {
    if start < 0 then
      (if -start >= |h| then h else h[|h| + start..])
    else
      (if start >= |h| then [] else h[start..])
  }

  /** `if len(h) > max_history: h = h[-max_history:]`. */
  function KeepRecent<T>(h: seq<T>, maxHistory: int): seq<T> {
    if |h| > maxHistory then SliceFrom(h, -maxHistory) else h
  }

  /**
   * For a positive bound the history keeps its newest min(len, bound)
   * entries, dropping the oldest; a bound of 0 keeps everything, since
   * `h[-0:]` is all of `h`; a negative bound `-n` drops the first `n`.
   */
  lemma KeepRecentSpec<T>(h: seq<T>, maxHistory: int)
    ensures maxHistory >= 1 ==>
      KeepRecent(h, maxHistory) == h[|h| - (if |h| <= maxHistory then |h| else maxHistory)..]
    ensures maxHistory == 0 ==> KeepRecent(h, maxHistory) == h
    ensures maxHistory < 0 ==>
      KeepRecent(h, maxHistory) == if -maxHistory < |h| then h[-maxHistory..] else []
  {
  }

  /**
   * One check appended to a history and trimmed to a positive bound: the new
   * result is last, the length is min(len + 1, bound), and what remains is
   * the newest part of the old history followed by the new result.
   */
  lemma AppendKeepsNewest<T>(prior: seq<T>, s: T, maxHistory: int)
    requires maxHistory >= 1
    ensures var r := KeepRecent(prior + [s], maxHistory);
      && |r| == (if |prior| + 1 <= maxHistory then |prior| + 1 else maxHistory)
      && r[|r| - 1] == s
      && r == prior[|prior| + 1 - |r|..] + [s]
  {
    KeepRecentSpec(prior + [s], maxHistory);
    var r := KeepRecent(prior + [s], maxHistory);
    assert (prior + [s])[|prior| + 1 - |r|..] == prior[|prior| + 1 - |r|..] + [s];
  }

  // ---------------------------------------------------------------- round

  /** The alert decision, as a recorded event. */
  datatype Alert =
    | AlertSkipped(url: string)              // no SMTP configuration: a warning is logged
    | AlertAttempted(status: EndpointStatus) // a mail is sent; a failure there is caught and logged

  /** The checker's state: `endpoints`, `history` and the alerts issued so far. */
  datatype Monitor = Monitor(
    endpoints: Dict<EndpointStatus>,
    history: map<string, seq<EndpointStatus>>,
    alerts: seq<Alert>)

  function NewMonitor(): Monitor {
    Monitor(Empty(), map[], [])
  }

  /** A round, or one visit of it, and whether it ran to the end without an exception. */
  datatype Outcome = Outcome(monitor: Monitor, completed: bool)

  /** `send_alert` raises KeyError looking up the mail addresses. */
  predicate AlertRaises(cfg: Config) {
    cfg.smtp.MissingAddress?
  }

  /** The events `send_alert(s)` records when it does not raise. */
  function AlertEvents(cfg: Config, s: EndpointStatus): seq<Alert> {
    match cfg.smtp
    case NoSmtp => [AlertSkipped(s.url)]
    case SmtpReady => [AlertAttempted(s)]
    case MissingAddress => []
  }

  /** `send_alert` is called for this result. */
  predicate Alerting(cfg: Config, s: EndpointStatus) {
    s.status == Down && AlertsEnabled(cfg)
  }

  /** The history of `url`, empty when it has none yet. */
  function HistoryOf(m: Monitor, url: string): seq<EndpointStatus> {
    if url in m.history then m.history[url] else []
  }

  /** The endpoint and history updates for the result `s` of checking `url`. */
  function Record(cfg: Config, m: Monitor, url: string, s: EndpointStatus): Monitor {
    Monitor(
      Put(m.endpoints, url, s),
      m.history[url := KeepRecent(HistoryOf(m, url) + [s], MaxHistory(cfg))],
      m.alerts)
  }

  /**
   * One pass of the loop body of `check_all_endpoints`: the endpoint map and
   * the history are updated first, then the alert is sent, whose KeyError
   * ends the round with those updates already made.
   */
  function Visit(cfg: Config, m: Monitor, url: string, probe: Probe): Outcome {
    var s := CheckEndpoint(url, probe);
    var r := Record(cfg, m, url, s);
    if !Alerting(cfg, s) then Outcome(r, true)
    else if AlertRaises(cfg) then Outcome(r, false)
    else Outcome(r.(alerts := r.alerts + AlertEvents(cfg, s)), true)
  }

  /** `check_all_endpoints()` over `urls`, the i-th request producing `probes[i]`. */
  function Round(cfg: Config, m: Monitor, urls: seq<string>, probes: seq<Probe>): Outcome
    requires |probes| == |urls|
    decreases |urls|
  {
    if urls == [] then Outcome(m, true)
    else
      var o := Visit(cfg, m, urls[0], probes[0]);
      if !o.completed then o else Round(cfg, o.monitor, urls[1..], probes[1..])
  }

  // ---------------------------------------------------------------- one visit

  /** Whatever happens to the alert, a visit has made its endpoint and history updates. */
  lemma VisitRecords(cfg: Config, m: Monitor, url: string, probe: Probe)
    ensures var o, r := Visit(cfg, m, url, probe), Record(cfg, m, url, CheckEndpoint(url, probe));
      o.monitor.endpoints == r.endpoints && o.monitor.history == r.history
  {
  }

  /**
   * After a URL is checked, `endpoints[url]` is the newest result and every
   * other URL keeps its entry; a URL seen for the first time goes to the end
   * of the dictionary's order.
   */
  lemma RecordEndpoints(cfg: Config, m: Monitor, url: string, s: EndpointStatus)
    requires Valid(m.endpoints)
    ensures var e := Record(cfg, m, url, s).endpoints;
      && Valid(e)
      && url in e.entries && e.entries[url] == s
      && (forall u :: u != url ==> (u in e.entries <==> u in m.endpoints.entries))
      && (forall u :: u != url && u in m.endpoints.entries ==> e.entries[u] == m.endpoints.entries[u])
      && e.keys == if url in m.endpoints.keys then m.endpoints.keys else m.endpoints.keys + [url]
  {
  }

  /** Checking a URL gives it a history and leaves every other history as it was. */
  lemma RecordHistory(cfg: Config, m: Monitor, url: string, s: EndpointStatus)
    ensures var h := Record(cfg, m, url, s).history;
      && url in h
      && (forall u :: u != url ==> (u in h <==> u in m.history))
      && (forall u :: u != url && u in m.history ==> h[u] == m.history[u])
  {
  }

  /**
   * With a positive bound, the checked URL's history gains the new result
   * as its last entry and is trimmed to the newest `max_history` entries;
   * with a bound of 0 it only grows; either way it ends with the new result.
   */
  lemma RecordNewest(cfg: Config, m: Monitor, url: string, s: EndpointStatus)
    ensures var prior, M := HistoryOf(m, url), MaxHistory(cfg);
      var r := Record(cfg, m, url, s).history[url];
      M >= 1 ==>
        && |r| == (if |prior| + 1 <= M then |prior| + 1 else M)
        && r == prior[|prior| + 1 - |r|..] + [s]
    ensures MaxHistory(cfg) == 0 ==> Record(cfg, m, url, s).history[url] == HistoryOf(m, url) + [s]
    ensures var r := Record(cfg, m, url, s).history[url];
      MaxHistory(cfg) >= 0 ==> |r| >= 1 && r[|r| - 1] == s
  {
    var prior, M := HistoryOf(m, url), MaxHistory(cfg);
    assert Record(cfg, m, url, s).history[url] == KeepRecent(prior + [s], M);
    if M >= 1 {
      AppendKeepsNewest(prior, s, M);
    } else if M == 0 {
      KeepRecentSpec(prior + [s], M);
    }
  }

  /**
   * An alert is attempted exactly for a down result when alerts are
   * enabled; without an SMTP configuration the attempt only records the
   * skip, and with one lacking an address it raises and ends the round.
   */
  lemma VisitAlerts(cfg: Config, m: Monitor, url: string, probe: Probe)
    ensures var o, s := Visit(cfg, m, url, probe), CheckEndpoint(url, probe);
      o.completed <==> !(Alerting(cfg, s) && AlertRaises(cfg))
    ensures var o, s := Visit(cfg, m, url, probe), CheckEndpoint(url, probe);
      o.monitor.alerts == m.alerts + if Alerting(cfg, s) then AlertEvents(cfg, s) else []
    ensures var o, s := Visit(cfg, m, url, probe), CheckEndpoint(url, probe);
      |o.monitor.alerts| == |m.alerts| + 1 <==> Alerting(cfg, s) && !AlertRaises(cfg)
    ensures var o := Visit(cfg, m, url, probe);
      cfg.smtp.NoSmtp? && |o.monitor.alerts| > |m.alerts| ==> o.monitor.alerts[|m.alerts|] == AlertSkipped(url)
  {
  }

  // ---------------------------------------------------------------- invariant

  /**
   * What every state of the checker satisfies when the history bound is not
   * negative: the endpoint map is a dictionary of results filed under their
   * own URLs, exactly those URLs have a history, each history ends with the
   * URL's current result, and a positive bound is respected.
   */
  predicate Coherent(m: Monitor, maxHistory: int) {
    Tracks(m.endpoints, m.history, maxHistory)
  }

  predicate Tracks(e: Dict<EndpointStatus>, h: map<string, seq<EndpointStatus>>, maxHistory: int) {
    Valid(e) && e.entries.Keys == h.Keys && FiledByUrl(e) && EndsWithCurrent(e, h) && Bounded(h, maxHistory)
  }

  /** Every result is filed under its own URL. */
  predicate FiledByUrl(e: Dict<EndpointStatus>) {
    forall u :: u in e.entries ==> e.entries[u].url == u
  }

  /** Every history ends with the URL's current result. */
  predicate EndsWithCurrent(e: Dict<EndpointStatus>, h: map<string, seq<EndpointStatus>>) {
    forall u :: u in h ==> |h[u]| >= 1 && u in e.entries && h[u][|h[u]| - 1] == e.entries[u]
  }

  /** A positive bound is respected by every history. */
  predicate Bounded(h: map<string, seq<EndpointStatus>>, maxHistory: int) {
    forall u :: u in h && maxHistory >= 1 ==> |h[u]| <= maxHistory
  }

  lemma NewMonitorCoherent(maxHistory: int)
    ensures Coherent(NewMonitor(), maxHistory)
  {
  }

  lemma RecordCoherent(cfg: Config, m: Monitor, url: string, s: EndpointStatus)
    requires MaxHistory(cfg) >= 0 && Coherent(m, MaxHistory(cfg)) && s.url == url
    ensures Coherent(Record(cfg, m, url, s), MaxHistory(cfg))
  {
    var r := Record(cfg, m, url, s);
    RecordRefiles(cfg, m, url, s);
    RecordExtends(cfg, m, url, s);
    UpdateTracks(m.endpoints, m.history, r.endpoints, r.history, url, s, MaxHistory(cfg));
  }

  lemma RecordRefiles(cfg: Config, m: Monitor, url: string, s: EndpointStatus)
    requires Valid(m.endpoints)
    ensures Refiled(m.endpoints, Record(cfg, m, url, s).endpoints, url, s)
  {
    RecordEndpoints(cfg, m, url, s);
  }

  lemma RecordExtends(cfg: Config, m: Monitor, url: string, s: EndpointStatus)
    requires MaxHistory(cfg) >= 0
    ensures Extended(m.history, Record(cfg, m, url, s).history, url, s, MaxHistory(cfg))
  {
    RecordHistory(cfg, m, url, s);
    RecordNewest(cfg, m, url, s);
  }

  /** `e'` is `e` with `s` filed under `url`. */
  ghost predicate Refiled(e: Dict<EndpointStatus>, e': Dict<EndpointStatus>, url: string, s: EndpointStatus) {
    && Valid(e') && url in e'.entries && e'.entries[url] == s
    && (forall u :: u != url ==> (u in e'.entries <==> u in e.entries))
    && (forall u :: u != url && u in e.entries ==> e'.entries[u] == e.entries[u])
  }

  /** `h'` is `h` with a history for `url` that ends with `s` and respects a positive bound. */
  ghost predicate Extended(h: map<string, seq<EndpointStatus>>, h': map<string, seq<EndpointStatus>>,
                     url: string, s: EndpointStatus, M: int) {
    && url in h' && |h'[url]| >= 1 && h'[url][|h'[url]| - 1] == s
    && (M >= 1 ==> |h'[url]| <= M)
    && (forall u :: u != url ==> (u in h' <==> u in h))
    && (forall u :: u != url && u in h ==> h'[u] == h[u])
  }

  /** Filing a result under its URL, with a history ending in it, keeps the invariant. */
  lemma UpdateTracks(e: Dict<EndpointStatus>, h: map<string, seq<EndpointStatus>>,
                     e': Dict<EndpointStatus>, h': map<string, seq<EndpointStatus>>,
                     url: string, s: EndpointStatus, M: int)
    requires Tracks(e, h, M) && s.url == url
    requires Refiled(e, e', url, s) && Extended(h, h', url, s, M)
    ensures Tracks(e', h', M)
  {
    UpdateFiled(e, e', url, s);
    UpdateEnds(e, h, e', h', url, s);
    UpdateBounded(h, h', url, M);
  }

  lemma UpdateFiled(e: Dict<EndpointStatus>, e': Dict<EndpointStatus>, url: string, s: EndpointStatus)
    requires FiledByUrl(e) && s.url == url
    requires url in e'.entries && e'.entries[url] == s
    requires forall u :: u != url ==> (u in e'.entries <==> u in e.entries)
    requires forall u :: u != url && u in e.entries ==> e'.entries[u] == e.entries[u]
    ensures FiledByUrl(e')
  {
  }

  lemma UpdateEnds(e: Dict<EndpointStatus>, h: map<string, seq<EndpointStatus>>,
                   e': Dict<EndpointStatus>, h': map<string, seq<EndpointStatus>>,
                   url: string, s: EndpointStatus)
    requires EndsWithCurrent(e, h)
    requires url in e'.entries && e'.entries[url] == s
    requires forall u :: u != url && u in e.entries ==> u in e'.entries && e'.entries[u] == e.entries[u]
    requires url in h' && |h'[url]| >= 1 && h'[url][|h'[url]| - 1] == s
    requires forall u :: u != url ==> (u in h' <==> u in h)
    requires forall u :: u != url && u in h ==> h'[u] == h[u]
    ensures EndsWithCurrent(e', h')
  {
    forall u | u in h' ensures |h'[u]| >= 1 && u in e'.entries && h'[u][|h'[u]| - 1] == e'.entries[u] {
      if u != url {
        assert h'[u] == h[u];
      }
    }
  }

  lemma UpdateBounded(h: map<string, seq<EndpointStatus>>, h': map<string, seq<EndpointStatus>>, url: string, M: int)
    requires Bounded(h, M) && url in h' && (M >= 1 ==> |h'[url]| <= M)
    requires forall u :: u != url ==> (u in h' <==> u in h)
    requires forall u :: u != url && u in h ==> h'[u] == h[u]
    ensures Bounded(h', M)
  {
  }

  lemma VisitCoherent(cfg: Config, m: Monitor, url: string, probe: Probe)
    requires MaxHistory(cfg) >= 0 && Coherent(m, MaxHistory(cfg))
    ensures Coherent(Visit(cfg, m, url, probe).monitor, MaxHistory(cfg))
  {
    RecordCoherent(cfg, m, url, CheckEndpoint(url, probe));
    VisitRecords(cfg, m, url, probe);
  }

  lemma {:induction false} RoundCoherent(cfg: Config, m: Monitor, urls: seq<string>, probes: seq<Probe>)
    requires |probes| == |urls|
    requires MaxHistory(cfg) >= 0 && Coherent(m, MaxHistory(cfg))
    ensures Coherent(Round(cfg, m, urls, probes).monitor, MaxHistory(cfg))
    decreases |urls|
  {
    if urls != [] {
      VisitCoherent(cfg, m, urls[0], probes[0]);
      var o := Visit(cfg, m, urls[0], probes[0]);
      if o.completed {
        RoundCoherent(cfg, o.monitor, urls[1..], probes[1..]);
      }
    }
  }

  // ---------------------------------------------------------------- whole round

  /** The position of the last occurrence of `u` in `urls`. */
  function LastIndex(urls: seq<string>, u: string): (i: nat)
    requires u in urls
    ensures i < |urls| && urls[i] == u
    ensures forall j :: i < j < |urls| ==> urls[j] != u
  {
    if urls[|urls| - 1] == u then |urls| - 1
    else
      assert u in urls[..|urls| - 1];
      LastIndex(urls[..|urls| - 1], u)
  }

  /** The last occurrence is the one with no occurrence after it. */
  lemma LastIndexAt(urls: seq<string>, u: string, i: nat)
    requires i < |urls| && urls[i] == u
    requires forall j :: i < j < |urls| ==> urls[j] != u
    ensures LastIndex(urls, u) == i
  {
  }

  /** A visit files its result under its URL and leaves a valid dictionary. */
  lemma VisitEndpoint(cfg: Config, m: Monitor, url: string, probe: Probe)
    requires Valid(m.endpoints)
    ensures var e := Visit(cfg, m, url, probe).monitor.endpoints;
      Valid(e) && url in e.entries && e.entries[url] == CheckEndpoint(url, probe)
  {
    RecordEndpoints(cfg, m, url, CheckEndpoint(url, probe));
    VisitRecords(cfg, m, url, probe);
  }

  /** A visit leaves every other URL's entry and history as they were. */
  lemma VisitFrame(cfg: Config, m: Monitor, url: string, probe: Probe, u: string)
    requires Valid(m.endpoints) && u != url
    ensures var r := Visit(cfg, m, url, probe).monitor;
      && Valid(r.endpoints)
      && (u in r.endpoints.entries <==> u in m.endpoints.entries)
      && (u in m.endpoints.entries ==> r.endpoints.entries[u] == m.endpoints.entries[u])
      && (u in r.history <==> u in m.history)
      && (u in m.history ==> r.history[u] == m.history[u])
  {
    var s := CheckEndpoint(url, probe);
    RecordEndpoints(cfg, m, url, s);
    RecordHistory(cfg, m, url, s);
    VisitRecords(cfg, m, url, probe);
  }

  /** An occurrence after the first position is last in `urls` exactly where it is last in the tail. */
  lemma LastIndexTail(urls: seq<string>, u: string)
    requires urls != [] && u in urls[1..]
    ensures u in urls && LastIndex(urls, u) == LastIndex(urls[1..], u) + 1
  {
    var rest := urls[1..];
    var j := LastIndex(rest, u);
    assert forall n :: j + 1 < n < |urls| ==> urls[n] == rest[n - 1];
    LastIndexAt(urls, u, j + 1);
  }

  /** A first URL that does not recur is last at position 0. */
  lemma LastIndexHead(urls: seq<string>)
    requires urls != [] && urls[0] !in urls[1..]
    ensures LastIndex(urls, urls[0]) == 0
  {
    assert forall n :: 0 < n < |urls| ==> urls[n] == urls[1..][n - 1];
    LastIndexAt(urls, urls[0], 0);
  }

  /** A URL the round does not visit keeps its entry and its history. */
  lemma {:induction false} RoundFrame(cfg: Config, m: Monitor, urls: seq<string>, probes: seq<Probe>, u: string)
    requires |probes| == |urls| && Valid(m.endpoints) && u !in urls
    ensures var r := Round(cfg, m, urls, probes).monitor;
      && Valid(r.endpoints)
      && (u in r.endpoints.entries <==> u in m.endpoints.entries)
      && (u in m.endpoints.entries ==> r.endpoints.entries[u] == m.endpoints.entries[u])
      && (u in r.history <==> u in m.history)
      && (u in m.history ==> r.history[u] == m.history[u])
    decreases |urls|
  {
    if urls != [] {
      VisitFrame(cfg, m, urls[0], probes[0], u);
      var o := Visit(cfg, m, urls[0], probes[0]);
      if o.completed {
        assert u !in urls[1..];
        RoundFrame(cfg, o.monitor, urls[1..], probes[1..], u);
      }
    }
  }

  /**
   * After a round that ran to the end, each configured URL maps to the
   * result of its last check, so a URL listed twice keeps its second
   * result.
   */
  lemma {:induction false} RoundLastWins(cfg: Config, m: Monitor, urls: seq<string>, probes: seq<Probe>)
    requires |probes| == |urls| && Valid(m.endpoints)
    requires Round(cfg, m, urls, probes).completed
    ensures var e := Round(cfg, m, urls, probes).monitor.endpoints;
      forall u :: u in urls ==>
        u in e.entries && e.entries[u] == CheckEndpoint(u, probes[LastIndex(urls, u)])
    decreases |urls|
  {
    if urls != [] {
      VisitEndpoint(cfg, m, urls[0], probes[0]);
      var o := Visit(cfg, m, urls[0], probes[0]);
      var rest, more := urls[1..], probes[1..];
      RoundLastWins(cfg, o.monitor, rest, more);
      var e := Round(cfg, o.monitor, rest, more).monitor.endpoints;
      forall u | u in urls
        ensures u in e.entries && e.entries[u] == CheckEndpoint(u, probes[LastIndex(urls, u)])
      {
        if u in rest {
          LastIndexTail(urls, u);
        } else {
          RoundFrame(cfg, o.monitor, rest, more, u);
          LastIndexHead(urls);
        }
      }
    }
  }

  /** The results of a round's checks that come back down, in check order. */
  function DownResults(urls: seq<string>, probes: seq<Probe>): seq<EndpointStatus>
    requires |probes| == |urls|
    decreases |urls|
  {
    if urls == [] then []
    else
      var s := CheckEndpoint(urls[0], probes[0]);
      (if s.status == Down then [s] else []) + DownResults(urls[1..], probes[1..])
  }

  /** The events of the alerts for `downs`, in order. */
  function AlertsFor(cfg: Config, downs: seq<EndpointStatus>): seq<Alert> {
    if downs == [] then [] else AlertEvents(cfg, downs[0]) + AlertsFor(cfg, downs[1..])
  }

  /**
   * A round runs to the end unless alerts are enabled, the SMTP setting
   * lacks an address and some check comes back down.
   */
  lemma {:induction false} RoundCompletes(cfg: Config, m: Monitor, urls: seq<string>, probes: seq<Probe>)
    requires |probes| == |urls|
    ensures Round(cfg, m, urls, probes).completed <==>
      !(AlertsEnabled(cfg) && AlertRaises(cfg) && DownResults(urls, probes) != [])
    decreases |urls|
  {
    if urls != [] {
      VisitAlerts(cfg, m, urls[0], probes[0]);
      var o := Visit(cfg, m, urls[0], probes[0]);
      if o.completed {
        RoundCompletes(cfg, o.monitor, urls[1..], probes[1..]);
      }
    }
  }

  /**
   * A round that runs to the end has recorded one alert per down result, in
   * check order, when alerts are enabled, and none otherwise.
   */
  lemma {:induction false} RoundAlerts(cfg: Config, m: Monitor, urls: seq<string>, probes: seq<Probe>)
    requires |probes| == |urls|
    ensures Round(cfg, m, urls, probes).completed ==>
      Round(cfg, m, urls, probes).monitor.alerts ==
        m.alerts + if AlertsEnabled(cfg) then AlertsFor(cfg, DownResults(urls, probes)) else []
    decreases |urls|
  {
    if urls != [] {
      VisitAlerts(cfg, m, urls[0], probes[0]);
      var o := Visit(cfg, m, urls[0], probes[0]);
      var s := CheckEndpoint(urls[0], probes[0]);
      var downs := DownResults(urls[1..], probes[1..]);
      if o.completed {
        RoundAlerts(cfg, o.monitor, urls[1..], probes[1..]);
        if s.status == Down {
          assert DownResults(urls, probes) == [s] + downs;
          assert ([s] + downs)[1..] == downs;
        } else {
          assert DownResults(urls, probes) == downs;
        }
      }
    }
  }

  // ---------------------------------------------------------------- report

  /** The `summary` and `overall_status` of `generate_report()`. */
  datatype HealthSummary = HealthSummary(overallStatus: Health, total: nat, up: nat, down: nat)

  /** The entries of `keys` in `d` whose status is `h`. */
  function CountWith(d: Dict<EndpointStatus>, keys: seq<string>, h: Health): nat {
    if keys == [] then 0
    else
      CountWith(d, keys[..|keys| - 1], h) +
      (if keys[|keys| - 1] in d.entries && d.entries[keys[|keys| - 1]].status == h then 1 else 0)
  }

  /** `all(s.status == 'up' for s in ...)` over the entries of `keys`. */
  function EveryUp(d: Dict<EndpointStatus>, keys: seq<string>): bool {
    if keys == [] then true
    else EveryUp(d, keys[..|keys| - 1]) && keys[|keys| - 1] in d.entries && d.entries[keys[|keys| - 1]].status == Up
  }

  function Summarize(d: Dict<EndpointStatus>): HealthSummary {
    HealthSummary(
      if EveryUp(d, d.keys) then Up else Down,
      |d.keys|,
      CountWith(d, d.keys, Up),
      CountWith(d, d.keys, Down))
  }

  /** `generate_report()` without its timestamp; `endpoints` lists the map's items in order. */
  datatype HealthReport = HealthReport(overallStatus: Health, endpoints: seq<(string, EndpointStatus)>, summary: HealthSummary)

  /** `{url: asdict(status) for url, status in d.items()}`, as a list of items in order. */
  function ReportItems(d: Dict<EndpointStatus>, keys: seq<string>): seq<(string, EndpointStatus)> {
    if keys == [] then []
    else
      var k := keys[|keys| - 1];
      ReportItems(d, keys[..|keys| - 1]) + if k in d.entries then [(k, d.entries[k])] else []
  }

  function BuildHealthReport(d: Dict<EndpointStatus>): HealthReport {
    var s := Summarize(d);
    HealthReport(s.overallStatus, ReportItems(d, d.keys), s)
  }

  /** The report lists every recorded endpoint once, in the dictionary's order, with its latest result. */
  lemma {:induction false} ReportItemsSpec(d: Dict<EndpointStatus>, keys: seq<string>)
    requires forall k :: k in keys ==> k in d.entries
    ensures var r := ReportItems(d, keys);
      |r| == |keys| && forall i :: 0 <= i < |r| ==> r[i] == (keys[i], d.entries[keys[i]])
  {
    if keys != [] {
      ReportItemsSpec(d, keys[..|keys| - 1]);
    }
  }

  lemma {:induction false} UpDownSum(d: Dict<EndpointStatus>, keys: seq<string>)
    requires forall k :: k in keys ==> k in d.entries
    ensures CountWith(d, keys, Up) + CountWith(d, keys, Down) == |keys|
  {
    if keys != [] {
      UpDownSum(d, keys[..|keys| - 1]);
    }
  }

  lemma {:induction false} EveryUpSpec(d: Dict<EndpointStatus>, keys: seq<string>)
    ensures EveryUp(d, keys) <==> forall i :: 0 <= i < |keys| ==> keys[i] in d.entries && d.entries[keys[i]].status == Up
  {
    if keys != [] {
      var init := keys[..|keys| - 1];
      EveryUpSpec(d, init);
      assert forall i :: 0 <= i < |init| ==> init[i] == keys[i];
    }
  }

  /**
   * `total` is the number of distinct URLs recorded and `up + down == total`,
   * since every status is up or down; `overall_status` is up exactly when
   * every recorded endpoint is up, in particular when none is recorded.
   */
  lemma SummarySpec(d: Dict<EndpointStatus>)
    requires Valid(d)
    ensures Summarize(d).total == |d.entries.Keys|
    ensures Summarize(d).up + Summarize(d).down == Summarize(d).total
    ensures Summarize(d).overallStatus == Up <==> forall u :: u in d.entries ==> d.entries[u].status == Up
    ensures d.entries == map[] ==> Summarize(d).overallStatus == Up
  {
    LengthIsKeyCount(d);
    UpDownSum(d, d.keys);
    EveryUpSpec(d, d.keys);
    forall u | u in d.entries ensures exists i :: 0 <= i < |d.keys| && d.keys[i] == u {
      assert u in d.keys;
    }
  }

  /** A round is its first visit followed, if that visit completed, by the rest of the round. */
  lemma RoundUnfold(cfg: Config, m: Monitor, urls: seq<string>, probes: seq<Probe>)
    requires |probes| == |urls| && urls != []
    ensures var o := Visit(cfg, m, urls[0], probes[0]);
      Round(cfg, m, urls, probes) == if o.completed then Round(cfg, o.monitor, urls[1..], probes[1..]) else o
  {
  }

  // ---------------------------------------------------------------- the class

  class HealthChecker {
    const config: Config
    var endpoints: Dict<EndpointStatus>
    var history: map<string, seq<EndpointStatus>>
    var alerts: seq<Alert>

    function State(): Monitor
      reads this
    {
      Monitor(endpoints, history, alerts)
    }

    /** `__init__` once `load_config` has read `config`. */
    constructor (config: Config)
      ensures this.config == config && State() == NewMonitor()
    {
      this.config := config;
      endpoints, history, alerts := Empty(), map[], [];
    }

    /** `send_alert(status)`; `false` when it raises KeyError on a missing address. */
    method SendAlert(status: EndpointStatus) returns (completed: bool)
      modifies this
      ensures completed == !AlertRaises(config)
      ensures endpoints == old(endpoints) && history == old(history)
      ensures alerts == old(alerts) + AlertEvents(config, status)
    {
      match config.smtp
      case NoSmtp =>
        // logged as a warning; no message is built
        alerts := alerts + [AlertSkipped(status.url)];
        return true;
      case MissingAddress =>
        return false;
      case SmtpReady =>
        alerts := alerts + [AlertAttempted(status)];
        return true;
    }

    /** The body of the loop of `check_all_endpoints()` up to the alert: the endpoint map and the bounded history. */
    method Store(url: string, status: EndpointStatus)
      modifies this
      ensures State() == Record(config, old(State()), url, status)
    {
      endpoints := Put(endpoints, url, status);
      // a URL seen for the first time starts from an empty history
      var h := if url in history then history[url] else [];
      h := h + [status];
      var maxHistory := MaxHistory(config);
      if |h| > maxHistory {
        h := SliceFrom(h, -maxHistory);
      }
      history := history[url := h];
    }

    /**
     * `check_all_endpoints()`, the i-th request producing `probes[i]`; `None`
     * when `send_alert` raised and the round ended early.
     */
    method CheckAllEndpoints(probes: seq<Probe>) returns (result: Option<Dict<EndpointStatus>>)
      requires |probes| == |config.endpoints|
      modifies this
      ensures Round(config, old(State()), config.endpoints, probes) == Outcome(State(), result.Some?)
      ensures result.Some? ==> result.value == endpoints
    {
      var urls := config.endpoints;
      var i := 0;
      while i < |urls|
        invariant 0 <= i <= |urls|
        invariant Round(config, State(), urls[i..], probes[i..]) == Round(config, old(State()), urls, probes)
      {
        ghost var before := State();
        var url := urls[i];
        var status := CheckEndpoint(url, probes[i]);
        RoundUnfold(config, before, urls[i..], probes[i..]);
        Store(url, status);
        if status.status == Down && AlertsEnabled(config) {
          var completed := SendAlert(status);
          if !completed {
            assert Visit(config, before, url, probes[i]) == Outcome(State(), false);
            return None;
          }
        }
        assert Visit(config, before, url, probes[i]) == Outcome(State(), true);
        assert urls[i..][1..] == urls[i + 1..] && probes[i..][1..] == probes[i + 1..];
        i := i + 1;
      }
      return Some(endpoints);
    }

    /** `generate_report()`. */
    function GenerateReport(): HealthReport
      reads this
    {
      BuildHealthReport(endpoints)
    }
  }
}
