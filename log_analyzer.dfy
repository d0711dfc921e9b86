/**
 * `LogAnalyzer` from the access-log analyzer: the statistics it keeps, the
 * per-line update of `parse_line`, the fold of `analyze` over the lines of a
 * log, and the report of `generate_report`.
 */
module LogAnalysis {
  import opened Opt
  import opened PyDict
  import opened LogPatterns

  /** A snapshot of the analyzer's six statistics fields. */
  datatype Stats = Stats(
    ipCounts: Counter,
    statusCodes: Counter,
    requestPaths: Counter,
    hourlyTraffic: Counter,
    errors404: seq<string>,
    totalRequests: nat)

  /** The statistics of a freshly constructed analyzer. */
  function NewStats(): Stats {
    Stats(Empty(), Empty(), Empty(), Empty(), [], 0)
  }

  /** What the timestamp step of `parse_line` makes of a line. */
  datatype StampOutcome =
    | NoStamp              // no timestamp-shaped token: nothing to parse
    | Hour(key: string)    // strptime accepted the token: its `%H`
    | Rejected             // strptime raised ValueError

  function StampOf(line: string): StampOutcome {
    match FindTimestamp(line)
    case None => NoStamp
    case Some(t) => if ValidDateTime(t) then Hour(HourKey(t)) else Rejected
  }

  /** The four independent extractions `parse_line` makes from a line. */
  datatype Fields = Fields(ip: Option<string>, stamp: StampOutcome, path: Option<string>, status: Option<string>)

  function Extract(line: string): Fields {
    Fields(FindIp(line), StampOf(line), FindRequest(line), FindStatus(line))
  }

  /** `parse_line` leaves its try block early, through the `except` handler, on this line. */
  predicate Raises(line: string) {
    StampOf(line).Rejected?
  }

  /** `c[k] += 1` when a value `k` was extracted. */
  function IncOpt(c: Counter, found: Option<string>): (r: Counter)
    ensures Valid(c) ==> Valid(r)
    ensures forall k :: Count(r, k) == Count(c, k) + (if found == Some(k) then 1 else 0)
  {
    match found
    case Some(k) => Inc(c, k)
    case None => c
  }

  /** Each extracted value adds one to its counter's total. */
  lemma IncOptTotal(c: Counter, found: Option<string>)
    requires Valid(c)
    ensures Total(IncOpt(c, found)) == Total(c) + (if found.Some? then 1 else 0)
  {
    if found.Some? {
      TotalInc(c, found.value);
    }
  }

  /** The hour key a timestamp outcome adds to the histogram. */
  function HourFound(stamp: StampOutcome): Option<string> {
    if stamp.Hour? then Some(stamp.key) else None
  }

  /**
   * The state after `parse_line` has extracted `f` from `line`. The address is
   * counted first; when strptime then raises, the handler only logs, so the
   * hour, path, status, 404 list and `total_requests` are left as they are.
   * The remaining updates touch distinct fields, so their order does not matter.
   */
  function Apply(s: Stats, f: Fields, line: string): Stats {
    var ips := IncOpt(s.ipCounts, f.ip);
    if f.stamp.Rejected? then s.(ipCounts := ips)
    else
      Stats(
        ips,
        IncOpt(s.statusCodes, f.status),
        IncOpt(s.requestPaths, f.path),
        IncOpt(s.hourlyTraffic, HourFound(f.stamp)),
        if f.status == Some("404") then s.errors404 + [line] else s.errors404,
        s.totalRequests + 1)
  }

  /** The state after `parse_line(line)`. */
  function Step(s: Stats, line: string): Stats {
    Apply(s, Extract(line), line)
  }

  /** The state after `parse_line` has been applied to each of `lines`, in order. */
  function Run(s: Stats, lines: seq<string>): Stats {
    if lines == [] then s else Step(Run(s, lines[..|lines| - 1]), lines[|lines| - 1])
  }

  // ---------------------------------------------------------------- per line

  /**
   * One line's effect on every statistic: the address is counted whenever it
   * is found; everything else changes only on a line that does not raise,
   * each counter only through its own match, and `total_requests` by exactly
   * one whether or not anything matched.
   */
  lemma ApplyEffects(s: Stats, f: Fields, line: string)
    ensures var t := Apply(s, f, line);
      t.totalRequests == s.totalRequests + (if f.stamp.Rejected? then 0 else 1)
    ensures forall k ::
      Count(Apply(s, f, line).ipCounts, k) == Count(s.ipCounts, k) + (if f.ip == Some(k) then 1 else 0)
    ensures forall k ::
      Count(Apply(s, f, line).hourlyTraffic, k) == Count(s.hourlyTraffic, k) + (if f.stamp == Hour(k) then 1 else 0)
    ensures forall k ::
      Count(Apply(s, f, line).requestPaths, k) ==
      Count(s.requestPaths, k) + (if !f.stamp.Rejected? && f.path == Some(k) then 1 else 0)
    ensures forall k ::
      Count(Apply(s, f, line).statusCodes, k) ==
      Count(s.statusCodes, k) + (if !f.stamp.Rejected? && f.status == Some(k) then 1 else 0)
    ensures Apply(s, f, line).errors404 ==
      s.errors404 + (if !f.stamp.Rejected? && f.status == Some("404") then [line] else [])
  {
  }

  lemma StepEffects(s: Stats, line: string)
    ensures var t := Step(s, line);
      t.totalRequests == s.totalRequests + (if Raises(line) then 0 else 1)
    ensures forall k ::
      Count(Step(s, line).ipCounts, k) == Count(s.ipCounts, k) + (if FindIp(line) == Some(k) then 1 else 0)
    ensures forall k ::
      Count(Step(s, line).hourlyTraffic, k) == Count(s.hourlyTraffic, k) + (if StampOf(line) == Hour(k) then 1 else 0)
    ensures forall k ::
      Count(Step(s, line).requestPaths, k) ==
      Count(s.requestPaths, k) + (if !Raises(line) && FindRequest(line) == Some(k) then 1 else 0)
    ensures forall k ::
      Count(Step(s, line).statusCodes, k) ==
      Count(s.statusCodes, k) + (if !Raises(line) && FindStatus(line) == Some(k) then 1 else 0)
    ensures Step(s, line).errors404 ==
      s.errors404 + (if !Raises(line) && FindStatus(line) == Some("404") then [line] else [])
  {
    ApplyEffects(s, Extract(line), line);
  }

  /**
   * When the timestamp shape matches but strptime rejects it, the address
   * already counted on that line stays counted and nothing else changes.
   */
  lemma RejectedLineKeepsAddress(s: Stats, line: string)
    requires FindTimestamp(line).Some? && !ValidDateTime(FindTimestamp(line).value)
    ensures Step(s, line) == match FindIp(line)
      case Some(ip) => s.(ipCounts := Inc(s.ipCounts, ip))
      case None => s
  {
  }

  /** `parse_line` on a line that raises: only the address counter changes. */
  lemma StepRaising(s: Stats, line: string)
    requires Raises(line)
    ensures Step(s, line) == s.(ipCounts := IncOpt(s.ipCounts, FindIp(line)))
  {
  }

  /** `parse_line` on a line that does not raise, field by field. */
  lemma StepCompleting(s: Stats, line: string)
    requires !Raises(line)
    ensures Step(s, line) == Stats(
      IncOpt(s.ipCounts, FindIp(line)),
      IncOpt(s.statusCodes, FindStatus(line)),
      IncOpt(s.requestPaths, FindRequest(line)),
      IncOpt(s.hourlyTraffic, HourFound(StampOf(line))),
      if FindStatus(line) == Some("404") then s.errors404 + [line] else s.errors404,
      s.totalRequests + 1)
  {
  }

  // ---------------------------------------------------------------- invariant

  /** What holds of the statistics of every analyzer, whatever lines it has read. */
  predicate Consistent(s: Stats) {
    && Valid(s.ipCounts) && Valid(s.statusCodes) && Valid(s.requestPaths) && Valid(s.hourlyTraffic)
    && (forall k :: k in s.hourlyTraffic.keys ==> IsHourLabel(k))
    && |s.errors404| == Count(s.statusCodes, "404")
    && (forall e :: e in s.errors404 ==> !Raises(e) && FindStatus(e) == Some("404"))
    && Total(s.statusCodes) <= s.totalRequests
    && Total(s.requestPaths) <= s.totalRequests
    && Total(s.hourlyTraffic) <= s.totalRequests
  }

  lemma NewStatsConsistent()
    ensures Consistent(NewStats())
  {
  }

  lemma ApplyConsistent(s: Stats, f: Fields, line: string)
    requires Consistent(s)
    requires f.stamp.Hour? ==> IsHourLabel(f.stamp.key)
    requires !f.stamp.Rejected? && f.status == Some("404") ==> !Raises(line) && FindStatus(line) == Some("404")
    ensures Consistent(Apply(s, f, line))
  {
    ApplyEffects(s, f, line);
    IncOptTotal(s.statusCodes, f.status);
    IncOptTotal(s.requestPaths, f.path);
    IncOptTotal(s.hourlyTraffic, HourFound(f.stamp));
  }

  lemma StepConsistent(s: Stats, line: string)
    requires Consistent(s)
    ensures Consistent(Step(s, line))
  {
    var f := Extract(line);
    if f.stamp.Hour? {
      assert IsHourLabel(f.stamp.key);
    }
    ApplyConsistent(s, f, line);
  }

  lemma {:induction false} RunConsistent(lines: seq<string>)
    ensures Consistent(Run(NewStats(), lines))
  {
    if lines == [] {
      NewStatsConsistent();
    } else {
      RunConsistent(lines[..|lines| - 1]);
      StepConsistent(Run(NewStats(), lines[..|lines| - 1]), lines[|lines| - 1]);
    }
  }

  // ---------------------------------------------------------------- whole run

  /** Reading one more line of the log is one more `parse_line`. */
  lemma RunExtend(s: Stats, lines: seq<string>, i: nat)
    requires i < |lines|
    ensures Run(s, lines[..i + 1]) == Step(Run(s, lines[..i]), lines[i])
  {
    assert lines[..i + 1][..i] == lines[..i];
  }

  /** The values `f` extracts from `lines`, in line order, skipping lines where it finds none. */
  function Gather(lines: seq<string>, f: string -> Option<string>): seq<string> {
    if lines == [] then []
    else
      var init := Gather(lines[..|lines| - 1], f);
      match f(lines[|lines| - 1])
      case Some(v) => init + [v]
      case None => init
  }

  /** The hour a line adds to the histogram. */
  function CountedHour(line: string): Option<string> {
    HourFound(StampOf(line))
  }

  /** The path a line adds to the path counter. */
  function CountedPath(line: string): Option<string> {
    if Raises(line) then None else FindRequest(line)
  }

  /** The status a line adds to the status counter. */
  function CountedStatus(line: string): Option<string> {
    if Raises(line) then None else FindStatus(line)
  }

  /** The line itself, when it is appended to the 404 list. */
  function Counted404(line: string): Option<string> {
    if CountedStatus(line) == Some("404") then Some(line) else None
  }

  /** The line itself, when it completes `parse_line` without raising. */
  function Completed(line: string): Option<string> {
    if Raises(line) then None else Some(line)
  }

  /**
   * Analyzing `lines` from a fresh analyzer yields, for each statistic, the
   * counter of its extracted values over the lines in order: addresses from
   * every line, hours, paths and statuses from the lines that do not raise;
   * the 404 list is those lines whose status is "404", in order; and
   * `total_requests` is the number of lines that do not raise.
   */
  lemma {:induction false} RunClosedForm(lines: seq<string>)
    ensures Run(NewStats(), lines) == Stats(
      Tally(Gather(lines, FindIp)),
      Tally(Gather(lines, CountedStatus)),
      Tally(Gather(lines, CountedPath)),
      Tally(Gather(lines, CountedHour)),
      Gather(lines, Counted404),
      |Gather(lines, Completed)|)
  {
    if lines != [] {
      var init, line := lines[..|lines| - 1], lines[|lines| - 1];
      RunClosedForm(init);
      var s := Run(NewStats(), init);
      assert Run(NewStats(), lines) == Step(s, line);
      StepFields(s, line);
      GatherLast(init, line, FindIp);
      GatherLast(init, line, CountedStatus);
      GatherLast(init, line, CountedPath);
      GatherLast(init, line, CountedHour);
      GatherLastSeq(init, line, Counted404);
      GatherLastSeq(init, line, Completed);
      assert lines == init + [line];
    }
  }

  /** Each field of the new state, as the counted value of the line updates it. */
  lemma StepFields(s: Stats, line: string)
    ensures Step(s, line).ipCounts == match FindIp(line) case Some(v) => Inc(s.ipCounts, v) case None => s.ipCounts
    ensures Step(s, line).statusCodes ==
      match CountedStatus(line) case Some(v) => Inc(s.statusCodes, v) case None => s.statusCodes
    ensures Step(s, line).requestPaths ==
      match CountedPath(line) case Some(v) => Inc(s.requestPaths, v) case None => s.requestPaths
    ensures Step(s, line).hourlyTraffic ==
      match CountedHour(line) case Some(v) => Inc(s.hourlyTraffic, v) case None => s.hourlyTraffic
    ensures Step(s, line).errors404 ==
      match Counted404(line) case Some(v) => s.errors404 + [v] case None => s.errors404
    ensures Step(s, line).totalRequests ==
      match Completed(line) case Some(_) => s.totalRequests + 1 case None => s.totalRequests
  {
  }

  lemma GatherLast(init: seq<string>, line: string, f: string -> Option<string>)
    ensures Tally(Gather(init + [line], f)) ==
      match f(line) case Some(v) => Inc(Tally(Gather(init, f)), v) case None => Tally(Gather(init, f))
  {
    GatherLastSeq(init, line, f);
    var g := Gather(init + [line], f);
    if f(line).Some? {
      assert g[..|g| - 1] == Gather(init, f);
    }
  }

  lemma GatherLastSeq(init: seq<string>, line: string, f: string -> Option<string>)
    ensures Gather(init + [line], f) ==
      match f(line) case Some(v) => Gather(init, f) + [v] case None => Gather(init, f)
  {
    assert (init + [line])[..|init|] == init;
  }

  /**
   * `total_requests` counts exactly the lines that do not raise, so it equals
   * the number of lines when no timestamp-shaped token is rejected.
   */
  lemma {:induction false} TotalCountsCompletedLines(lines: seq<string>)
    ensures Run(NewStats(), lines).totalRequests <= |lines|
    ensures (forall i :: 0 <= i < |lines| ==> !Raises(lines[i])) ==>
      Run(NewStats(), lines).totalRequests == |lines|
  {
    if lines != [] {
      TotalCountsCompletedLines(lines[..|lines| - 1]);
      StepEffects(Run(NewStats(), lines[..|lines| - 1]), lines[|lines| - 1]);
    }
  }

  // ---------------------------------------------------------------- report

  datatype Summary = Summary(totalRequests: nat, uniqueIps: nat, total404Errors: nat)

  datatype Report = Report(
    summary: Summary,
    topIps: seq<(string, nat)>,
    statusCodeDistribution: seq<(string, nat)>,
    mostRequestedPaths: seq<(string, nat)>,
    hourlyTraffic: seq<(string, nat)>,
    recent404Errors: seq<string>)

  /** The length of the rankings and of the recent-404 sample. */
  const ReportSize: nat := 10

  /** `errors_404[-n:] if errors_404 else []`. */
  function LastN(errors: seq<string>, n: nat): seq<string> {
    if errors == [] then []
    else errors[(if |errors| <= n then 0 else |errors| - n)..]
  }

  /** `generate_report()`, without the file and logging side of `analyze`. */
  function BuildReport(s: Stats): Report {
    Report(
      Summary(s.totalRequests, |s.ipCounts.keys|, |s.errors404|),
      MostCommon(s.ipCounts, ReportSize),
      CountItems(s.statusCodes),
      MostCommon(s.requestPaths, ReportSize),
      SortByKey(CountItems(s.hourlyTraffic)),
      LastN(s.errors404, ReportSize))
  }

  /**
   * `recent_404_errors` is the last min(10, n) entries of the 404 list, in
   * their original order.
   */
  lemma RecentErrorsSpec(errors: seq<string>)
    ensures var r := LastN(errors, ReportSize);
      |r| == (if |errors| <= ReportSize then |errors| else ReportSize)
    ensures var r := LastN(errors, ReportSize);
      errors == errors[..|errors| - |r|] + r
  {
  }

  /**
   * The report of a consistent state: the summary counts distinct addresses
   * and 404 lines (which equal the "404" status count), the status
   * distribution is the whole status counter in insertion order, and the
   * hour histogram holds the same hours and counts, sorted ascending.
   */
  lemma ReportSpec(s: Stats)
    requires Consistent(s)
    ensures BuildReport(s).summary.uniqueIps == |s.ipCounts.entries.Keys|
    ensures BuildReport(s).summary.total404Errors == Count(s.statusCodes, "404")
    ensures var d := BuildReport(s).statusCodeDistribution;
      |d| == |s.statusCodes.keys| &&
      forall i :: 0 <= i < |d| ==> d[i] == (s.statusCodes.keys[i], Count(s.statusCodes, s.statusCodes.keys[i]))
    ensures KeysAscending(BuildReport(s).hourlyTraffic)
    ensures multiset(BuildReport(s).hourlyTraffic) == multiset(CountItems(s.hourlyTraffic))
    ensures forall i :: 0 <= i < |BuildReport(s).hourlyTraffic| ==> IsHourLabel(BuildReport(s).hourlyTraffic[i].0)
  {
    LengthIsKeyCount(s.ipCounts);
    var items := CountItems(s.hourlyTraffic);
    SortByKeySpec(items);
    var h := BuildReport(s).hourlyTraffic;
    forall i | 0 <= i < |h| ensures IsHourLabel(h[i].0) {
      assert h[i] in multiset(items);
      var m :| 0 <= m < |items| && items[m] == h[i];
    }
  }

  // ---------------------------------------------------------------- the class

  class LogAnalyzer {
    var ipCounts: Counter
    var statusCodes: Counter
    var requestPaths: Counter
    var hourlyTraffic: Counter
    var errors404: seq<string>
    var totalRequests: nat

    function State(): Stats
      reads this
    {
      Stats(ipCounts, statusCodes, requestPaths, hourlyTraffic, errors404, totalRequests)
    }

    constructor ()
      ensures State() == NewStats()
    {
      ipCounts, statusCodes, requestPaths, hourlyTraffic := Empty(), Empty(), Empty(), Empty();
      errors404, totalRequests := [], 0;
    }

    /** `parse_line(line)`. */
    method ParseLine(line: string)
      modifies this
      ensures State() == Step(old(State()), line)
    {
      ghost var s := State();
      ipCounts := IncOpt(ipCounts, FindIp(line));
      var stamp := FindTimestamp(line);
      if stamp.Some? {
        if !ValidDateTime(stamp.value) {
          // strptime raises ValueError; the handler logs it and the line ends here
          StepRaising(s, line);
          return;
        }
        assert StampOf(line) == Hour(HourKey(stamp.value));
        hourlyTraffic := Inc(hourlyTraffic, HourKey(stamp.value));
      }
      requestPaths := IncOpt(requestPaths, FindRequest(line));
      var status := FindStatus(line);
      statusCodes := IncOpt(statusCodes, status);
      if status == Some("404") {
        errors404 := errors404 + [line];
      }
      totalRequests := totalRequests + 1;
      StepCompleting(s, line);
    }

    /** `analyze()` over the lines of the log, newlines included, in file order. */
    method Analyze(lines: seq<string>) returns (report: Report)
      modifies this
      ensures State() == Run(old(State()), lines)
      ensures report == BuildReport(State())
    {
      var i := 0;
      while i < |lines|
        invariant 0 <= i <= |lines|
        invariant State() == Run(old(State()), lines[..i])
      {
        ParseLine(lines[i]);
        RunExtend(old(State()), lines, i);
        i := i + 1;
      }
      assert lines[..|lines|] == lines;
      report := GenerateReport();
    }

    /** `generate_report()`. */
    function GenerateReport(): Report
      reads this
    {
      BuildReport(State())
    }
  }
}
