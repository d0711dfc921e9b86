/**
 * Consequences of the access-log patterns for particular shapes of line:
 * where the status and path searches stop, and a line whose address is
 * counted although it is not counted as a request.
 */
module LogScenarios {
  import opened Opt
  import opened PyDict
  import opened LogPatterns
  import opened LogAnalysis

  /**
   * The status pattern needs a space after the three digits, so a code that
   * ends the line, followed by nothing or only by its newline, is never seen.
   */
  lemma StatusNeedsTrailingSpace(prefix: string, code: string, ending: string)
    requires FindStatus(prefix).None? && |code| == 3 && AllDigits(code)
    requires ending == "" || ending == "\n"
    ensures FindStatus(prefix + "\" " + code + ending).None?
  {
    var line := prefix + "\" " + code + ending;
    FindStatusSpec(prefix);
    FindStatusSpec(line);
    forall i: nat | i <= |line| ensures !MatchesAt(Status, line, i) {
      if i + 6 <= |prefix| {
        assert line[i..i + 6] == prefix[i..i + 6];
        assert !MatchesAt(Status, prefix, i);
      }
    }
  }

  /** A line holding `pre`, then a quoted request `"METHOD target"`, then `rest`. */
  function RequestLine(pre: string, k: nat, target: string, rest: string): string
    requires k < |Methods|
  {
    pre + "\"" + Methods[k] + " " + target + "\"" + rest
  }

  lemma RequestLineMatches(line: string, pre: string, k: nat, target: string, rest: string)
    requires k < |Methods| && line == RequestLine(pre, k, target, rest)
    requires forall m :: 0 <= m < |target| ==> target[m] != '"'
    ensures RequestMatch(line, |pre|, k, |pre| + 2 + |Methods[k]| + |target|)
    ensures line[|pre| + 2 + |Methods[k]|..|pre| + 2 + |Methods[k]| + |target|] == target
    ensures pre <= line
  {
    var i, w := |pre|, Methods[k];
    var start, q := i + 2 + |w|, i + 2 + |w| + |target|;
    assert line == pre + ("\"" + w + " ") + target + ("\"" + rest);
    assert line[i..start] == "\"" + w + " ";
    assert line[start..q] == target;
    assert line[q] == '"';
    assert line[i + 1..i + 1 + |w|] == w;
  }

  /** No request can start before the first quote of a line. */
  lemma NoRequestBeforeQuote(line: string, pre: string)
    requires pre <= line
    requires forall m :: 0 <= m < |pre| ==> pre[m] != '"'
    ensures forall i: nat, k: nat, q: nat :: i < |pre| ==> !RequestMatch(line, i, k, q)
  {
    forall i: nat, k: nat, q: nat | i < |pre| ensures !RequestMatch(line, i, k, q) {
      assert line[i] == pre[i];
    }
  }

  /**
   * On a line whose first quote opens a request, the path is everything up to
   * the closing quote, so the protocol version (" HTTP/1.1") is part of it.
   */
  lemma PathKeepsProtocol(line: string, pre: string, k: nat, target: string, rest: string)
    requires k < |Methods| && line == RequestLine(pre, k, target, rest)
    requires forall m :: 0 <= m < |pre| ==> pre[m] != '"'
    requires forall m :: 0 <= m < |target| ==> target[m] != '"'
    ensures FindRequest(line) == Some(target)
  {
    var start := |pre| + 2 + |Methods[k]|;
    var q := start + |target|;
    RequestLineMatches(line, pre, k, target, rest);
    NoRequestBeforeQuote(line, pre);
    FoundAt(line, |pre|, k, start, q, target);
  }

  /** A first match at `i` yields its path. */
  lemma FoundAt(line: string, i: nat, k: nat, start: nat, q: nat, target: string)
    requires k < |Methods| && start == i + 2 + |Methods[k]|
    requires RequestMatch(line, i, k, q) && line[start..q] == target
    requires forall i': nat, k': nat, q': nat :: i' < i ==> !RequestMatch(line, i', k', q')
    ensures FindRequest(line) == Some(target)
  {
    FindRequestAt(line, i, k, q);
  }

  /** February 30th: timestamp-shaped, but no such day, so strptime raises. */
  const RejectedStamp: string := "30/Feb/2023:13:55:36"
  const RejectedLine: string := "1.2.3.4 " + RejectedStamp + "\n"

  lemma RejectedStampShape()
    ensures TimestampShape(RejectedStamp)
  {
    var t := RejectedStamp;
    assert t[0] == '3' && t[1] == '0' && t[2] == '/' && t[3] == 'F' && t[4] == 'e' && t[5] == 'b' && t[6] == '/';
    assert t[7] == '2' && t[8] == '0' && t[9] == '2' && t[10] == '3' && t[11] == ':';
    assert t[12] == '1' && t[13] == '3' && t[14] == ':' && t[15] == '5' && t[16] == '5' && t[17] == ':';
    assert t[18] == '3' && t[19] == '6';
  }

  lemma RejectedLineStamp()
    ensures FindTimestamp(RejectedLine) == Some(RejectedStamp)
  {
    assert RejectedLine[8..28] == RejectedStamp;
    RejectedStampShape();
    assert MatchesAt(Timestamp, RejectedLine, 8);
  }

  lemma FebIsMonthTwo()
    ensures MonthNumber("Feb") == 2
  {
    assert [Lower('F'), Lower('e'), Lower('b')] == "feb";
    assert MonthAbbreviations[1] == "feb";
  }

  lemma FebruaryThirtieth()
    ensures !ValidDateTime(RejectedStamp)
  {
    RejectedStampShape();
    assert RejectedStamp[3..6] == "Feb";
    FebIsMonthTwo();
    assert Digit(RejectedStamp[0]) == 3 && Digit(RejectedStamp[1]) == 0;
  }
  lemma RejectedLineIp()
    ensures FindIp(RejectedLine) == Some("1.2.3.4")
  {
    var line := RejectedLine;
    assert line[..8] == "1.2.3.4 ";
    GroupThenDot(line, 0, 1);
    GroupThenDot(line, 2, 3);
    GroupThenDot(line, 4, 5);
    assert DigitRun(line, 7) == 0;
    assert LastGroupEnd(line, 6) == Some(7);
    IpEndChain(line, 0, 2, 4, 6);
    assert MatchesAt(Address, line, 0);
    assert line[0..7] == "1.2.3.4";
  }
  /**
   * A line whose timestamp-shaped token names a day that does not exist has
   * its address counted but is not a request: the address counts can sum to
   * more than `total_requests`.
   */
  lemma AddressesCanOutnumberRequests()
    ensures var s := Run(NewStats(), [RejectedLine]);
      Count(s.ipCounts, "1.2.3.4") == 1 && Total(s.ipCounts) == 1 && s.totalRequests == 0
  {
    RejectedLineIp();
    RejectedLineStamp();
    FebruaryThirtieth();
    var s0 := NewStats();
    assert [RejectedLine][..0] == [];
    assert Run(s0, [RejectedLine]) == Step(s0, RejectedLine);
    RejectedLineKeepsAddress(s0, RejectedLine);
    TotalInc(s0.ipCounts, "1.2.3.4");
  }
}
