/**
 * The four independent searches that `LogAnalyzer.parse_line` runs over a raw
 * access-log line, written as scanners, together with a declarative shape for
 * each pattern, and the part of `datetime.strptime` the analyzer relies on.
 * Character classes are ASCII: `\d` is 0-9 and `\w` is letters, digits and `_`.
 */
module LogPatterns {
  import opened Opt

  predicate IsDigit(c: char) { '0' <= c <= '9' }

  predicate IsWordChar(c: char) {
    'a' <= c <= 'z' || 'A' <= c <= 'Z' || IsDigit(c) || c == '_'
  }

  predicate AllDigits(t: string) {
    forall k :: 0 <= k < |t| ==> IsDigit(t[k])
  }

  /** The four patterns that `parse_line` searches for. */
  datatype Pattern = Address | Timestamp | Request | Status

  /** Whether `pattern` has a match that starts at position `i` of `line`. */
  predicate MatchesAt(pattern: Pattern, line: string, i: nat) {
    match pattern
    case Address => i <= |line| && IpEnd(line, i).Some?
    case Timestamp => TimestampAt(line, i)
    case Request => RequestAt(line, i).Some?
    case Status => StatusAt(line, i)
  }

  /**
   * The least start position from `from` on at which `pattern` matches: the
   * order in which `re.search` tries start positions.
   */
  function Leftmost(pattern: Pattern, line: string, from: nat): (r: Option<nat>)
    decreases |line| + 1 - from
    ensures r.Some? ==> from <= r.value <= |line| && MatchesAt(pattern, line, r.value)
    ensures r.Some? ==> (forall i: nat :: from <= i < r.value ==> !MatchesAt(pattern, line, i))
    ensures r.None? ==> (forall i: nat :: from <= i <= |line| ==> !MatchesAt(pattern, line, i))
  {
    if from > |line| then None
    else if MatchesAt(pattern, line, from) then Some(from)
    else Leftmost(pattern, line, from + 1)
  }

  // ------------------------------------------------ client address
  // \d{1,3}\.\d{1,3}\.\d{1,3}\.\d{1,3}

  /** `line[a..b]` is a group of one to three digits. */
  predicate GroupIn(line: string, a: nat, b: nat) {
    a < b <= a + 3 && b <= |line| && forall m :: a <= m < b ==> IsDigit(line[m])
  }

  /** `line[i..j]` is four digit groups with dots at `p1`, `p2` and `p3` between them. */
  predicate IpDots(line: string, i: nat, p1: nat, p2: nat, p3: nat, j: nat) {
    && i < p1 < p2 < p3 < j <= |line|
    && GroupIn(line, i, p1) && line[p1] == '.'
    && GroupIn(line, p1 + 1, p2) && line[p2] == '.'
    && GroupIn(line, p2 + 1, p3) && line[p3] == '.'
    && GroupIn(line, p3 + 1, j)
  }

  /** `line[i..j]` is four groups of one to three digits separated by dots. */
  ghost predicate IpShape(line: string, i: nat, j: nat) {
    exists p1: nat, p2: nat, p3: nat :: IpDots(line, i, p1, p2, p3, j)
  }

  /** The length of the run of digits that starts at `i`. */
  function DigitRun(line: string, i: nat): (n: nat)
    requires i <= |line|
    ensures i + n <= |line|
    ensures forall m :: i <= m < i + n ==> IsDigit(line[m])
    ensures i + n == |line| || !IsDigit(line[i + n])
    decreases |line| - i
  {
    if i < |line| && IsDigit(line[i]) then 1 + DigitRun(line, i + 1) else 0
  }

  /**
   * Where a leading group `\d{1,3}\.` that starts at `i` ends: the greedy
   * `\d{1,3}` can only give way to the dot where its digit run ends.
   */
  function GroupDot(line: string, i: nat): Option<nat>
    requires i <= |line|
  {
    var n := DigitRun(line, i);
    if 1 <= n <= 3 && i + n < |line| && line[i + n] == '.' then Some(i + n + 1) else None
  }

  /** The end of the address pattern's match at `i`, if it matches there. */
  function IpEnd(line: string, i: nat): (r: Option<nat>)
    requires i <= |line|
    ensures r.Some? ==> i < r.value <= |line|
  {
    match GroupDot(line, i)
    case None => None
    case Some(i2) =>
      match GroupDot(line, i2)
      case None => None
      case Some(i3) =>
        match GroupDot(line, i3)
        case None => None
        case Some(i4) => LastGroupEnd(line, i4)
  }

  /** Where the final, greedy `\d{1,3}` that starts at `i` ends. */
  function LastGroupEnd(line: string, i: nat): (r: Option<nat>)
    requires i <= |line|
    ensures r.Some? ==> i < r.value <= |line|
  {
    var n := DigitRun(line, i);
    if n == 0 then None else Some(i + if n < 3 then n else 3)
  }

  lemma IpEndSome(line: string, i: nat)
    requires i <= |line| && IpEnd(line, i).Some?
    ensures IpShape(line, i, IpEnd(line, i).value)
  {
    var i2 := GroupDot(line, i).value;
    var i3 := GroupDot(line, i2).value;
    var i4 := GroupDot(line, i3).value;
    assert IpDots(line, i, i2 - 1, i3 - 1, i4 - 1, IpEnd(line, i).value);
  }

  lemma IpShapeMatches(line: string, i: nat, j: nat)
    requires i <= j <= |line| && IpShape(line, i, j)
    ensures IpEnd(line, i).Some? && j <= IpEnd(line, i).value
  {
    var p1: nat, p2: nat, p3: nat :| IpDots(line, i, p1, p2, p3, j);
    IpDotsMatch(line, i, p1, p2, p3, j);
  }

  lemma IpDotsMatch(line: string, i: nat, p1: nat, p2: nat, p3: nat, j: nat)
    requires IpDots(line, i, p1, p2, p3, j)
    ensures IpEnd(line, i).Some? && j <= IpEnd(line, i).value
  {
    GroupThenDot(line, i, p1);
    GroupThenDot(line, p1 + 1, p2);
    GroupThenDot(line, p2 + 1, p3);
    LastGroupCovers(line, p3 + 1, j);
    IpEndChain(line, i, p1 + 1, p2 + 1, p3 + 1);
  }

  lemma IpEndChain(line: string, i: nat, i2: nat, i3: nat, i4: nat)
    requires i <= |line| && i2 <= |line| && i3 <= |line| && i4 <= |line|
    requires GroupDot(line, i) == Some(i2) && GroupDot(line, i2) == Some(i3) && GroupDot(line, i3) == Some(i4)
    ensures IpEnd(line, i) == LastGroupEnd(line, i4)
  {
  }

  /** The final group reaches at least as far as any group that starts where it does. */
  lemma LastGroupCovers(line: string, a: nat, b: nat)
    requires GroupIn(line, a, b)
    ensures LastGroupEnd(line, a).Some? && b <= LastGroupEnd(line, a).value
  {
    RunAtLeast(line, a, b);
  }

  /** A group followed by a dot is read as exactly that group: its digit run ends at the dot. */
  lemma GroupThenDot(line: string, a: nat, b: nat)
    requires GroupIn(line, a, b) && b < |line| && line[b] == '.'
    ensures GroupDot(line, a) == Some(b + 1)
  {
    var n := DigitRun(line, a);
    assert n == b - a;
  }

  lemma RunAtLeast(line: string, a: nat, b: nat)
    requires a <= b <= |line|
    requires forall m :: a <= m < b ==> IsDigit(line[m])
    ensures b - a <= DigitRun(line, a)
  {
  }

  /**
   * The match at `i` is the longest address-shaped text starting at `i`, and
   * there is a match at `i` exactly when some address-shaped text starts there.
   */
  lemma IpEndSpec(line: string, i: nat)
    requires i <= |line|
    ensures IpEnd(line, i).Some? ==> IpShape(line, i, IpEnd(line, i).value)
    ensures IpEnd(line, i).Some? ==>
      (forall j: nat :: IpEnd(line, i).value < j <= |line| ==> !IpShape(line, i, j))
    ensures IpEnd(line, i).None? ==> (forall j: nat :: i <= j <= |line| ==> !IpShape(line, i, j))
  {
    if IpEnd(line, i).Some? {
      IpEndSome(line, i);
    }
    forall j: nat | i <= j <= |line| && IpShape(line, i, j)
      ensures IpEnd(line, i).Some? && j <= IpEnd(line, i).value
    {
      IpShapeMatches(line, i, j);
    }
  }

  /** The first address-shaped text: the leftmost start, then the longest. */
  ghost predicate FirstIpAt(line: string, i: nat, j: nat) {
    && i <= j <= |line|
    && IpShape(line, i, j)
    && (forall j': nat :: j < j' <= |line| ==> !IpShape(line, i, j'))
    && (forall i': nat, j': nat :: i' < i && i' <= j' <= |line| ==> !IpShape(line, i', j'))
  }

  /** `re.search(ip_pattern, line).group()`. */
  function FindIp(line: string): Option<string> {
    match Leftmost(Address, line, 0)
    case None => None
    case Some(i) => Some(line[i..IpEnd(line, i).value])
  }

  /** The address found is the first address-shaped text of the line, and none is found only when there is none. */
  lemma FindIpSpec(line: string)
    ensures FindIp(line).None? <==>
      (forall i: nat, j: nat :: i <= j <= |line| ==> !IpShape(line, i, j))
    ensures FindIp(line).Some? ==>
      (exists i: nat, j: nat :: FirstIpAt(line, i, j) && FindIp(line).value == line[i..j])
  {
    var found := Leftmost(Address, line, 0);
    var limit := if found.Some? then found.value else |line| + 1;
    forall i: nat, j: nat | i < limit && i <= j <= |line| ensures !IpShape(line, i, j) {
      assert !MatchesAt(Address, line, i);
      IpEndSpec(line, i);
    }
    if found.Some? {
      var i := found.value;
      var j := IpEnd(line, i).value;
      IpEndSpec(line, i);
      assert FirstIpAt(line, i, j);
    }
  }

  // ------------------------------------------------ timestamp
  // \d{2}/\w{3}/\d{4}:\d{2}:\d{2}:\d{2}

  /** `DD/Mon/YYYY:HH:MM:SS`, twenty characters. */
  predicate TimestampShape(t: string) {
    && |t| == 20
    && IsDigit(t[0]) && IsDigit(t[1]) && t[2] == '/'
    && IsWordChar(t[3]) && IsWordChar(t[4]) && IsWordChar(t[5]) && t[6] == '/'
    && IsDigit(t[7]) && IsDigit(t[8]) && IsDigit(t[9]) && IsDigit(t[10]) && t[11] == ':'
    && IsDigit(t[12]) && IsDigit(t[13]) && t[14] == ':'
    && IsDigit(t[15]) && IsDigit(t[16]) && t[17] == ':'
    && IsDigit(t[18]) && IsDigit(t[19])
  }

  predicate TimestampAt(line: string, i: nat) {
    i + 20 <= |line| && TimestampShape(line[i..i + 20])
  }

  /** `re.search(datetime_pattern, line).group()`. */
  function FindTimestamp(line: string): (r: Option<string>)
    ensures r.Some? ==> TimestampShape(r.value)
  {
    match Leftmost(Timestamp, line, 0)
    case None => None
    case Some(i) => Some(line[i..i + 20])
  }

  /** The timestamp found is the first timestamp-shaped text of the line, and none is found only when there is none. */
  lemma FindTimestampSpec(line: string)
    ensures FindTimestamp(line).None? <==> (forall i: nat :: i <= |line| ==> !MatchesAt(Timestamp, line, i))
    ensures FindTimestamp(line).Some? ==> exists i: nat ::
      && MatchesAt(Timestamp, line, i) && FindTimestamp(line).value == line[i..i + 20]
      && (forall i': nat :: i' < i ==> !MatchesAt(Timestamp, line, i'))
  {
  }

  function Digit(c: char): nat
    requires IsDigit(c)
  {
    (c as int - '0' as int) as nat
  }

  function Lower(c: char): char {
    if 'A' <= c <= 'Z' then (c as int + 32) as char else c
  }

  /** The C locale's month abbreviations, lower-cased as `strptime` compares them. */
  const MonthAbbreviations: seq<string> :=
    ["jan", "feb", "mar", "apr", "may", "jun", "jul", "aug", "sep", "oct", "nov", "dec"]

  /** The month (1 to 12) that `%b` reads from `m`, ignoring case, or 0. */
  function MonthNumber(m: string): (n: nat)
    ensures n <= 12
  {
    if |m| != 3 then 0
    else
      var lower := [Lower(m[0]), Lower(m[1]), Lower(m[2])];
      if lower in MonthAbbreviations then 1 + IndexOf(MonthAbbreviations, lower) else 0
  }

  function IndexOf(s: seq<string>, x: string): (i: nat)
    requires x in s
    ensures i < |s| && s[i] == x
  {
    if s[0] == x then 0 else 1 + IndexOf(s[1..], x)
  }

  predicate IsLeapYear(y: nat) {
    y % 4 == 0 && (y % 100 != 0 || y % 400 == 0)
  }

  function DaysInMonth(month: nat, year: nat): nat
    requires 1 <= month <= 12
  {
    if month == 2 then (if IsLeapYear(year) then 29 else 28)
    else if month == 4 || month == 6 || month == 9 || month == 11 then 30
    else 31
  }

  /**
   * `datetime.strptime(t, '%d/%b/%Y:%H:%M:%S')` returns rather than raising
   * ValueError: a known month, a day that exists in that month of that year,
   * a year from 1, an hour up to 23 and minutes and seconds up to 59.
   */
  predicate ValidDateTime(t: string) {
    && TimestampShape(t)
    && var day := 10 * Digit(t[0]) + Digit(t[1]);
       var month := MonthNumber(t[3..6]);
       var year := 1000 * Digit(t[7]) + 100 * Digit(t[8]) + 10 * Digit(t[9]) + Digit(t[10]);
       var hour := 10 * Digit(t[12]) + Digit(t[13]);
       var minute := 10 * Digit(t[15]) + Digit(t[16]);
       var second := 10 * Digit(t[18]) + Digit(t[19]);
       && 1 <= month
       && 1 <= day <= DaysInMonth(month, year)
       && 1 <= year
       && hour <= 23 && minute <= 59 && second <= 59
  }

  /** `.strftime('%H')` of the parsed time: the two hour digits of the token. */
  function HourKey(t: string): (k: string)
    requires |t| == 20
    ensures ValidDateTime(t) ==> IsHourLabel(k)
  {
    t[12..14]
  }

  /** Two digits naming an hour from 0 to 23: what `%H` prints. */
  predicate IsHourLabel(s: string) {
    |s| == 2 && IsDigit(s[0]) && IsDigit(s[1]) && 10 * Digit(s[0]) + Digit(s[1]) <= 23
  }

  // ------------------------------------------------ request
  // "(GET|POST|PUT|DELETE|HEAD|OPTIONS|PATCH) ([^"]*)"

  /** The request methods the pattern recognises, in the order of its alternation. */
  const Methods: seq<string> := ["GET", "POST", "PUT", "DELETE", "HEAD", "OPTIONS", "PATCH"]

  /** `Methods[k]` sits at position `j` of `line`, followed by a space. */
  predicate MethodSpaceAt(line: string, j: nat, k: nat) {
    && k < |Methods|
    && j + |Methods[k]| < |line|
    && line[j..j + |Methods[k]|] == Methods[k]
    && line[j + |Methods[k]|] == ' '
  }

  /**
   * The request pattern matches at `i` with method `Methods[k]` and its closing
   * quote at `q`: a quote, the method, a space, quote-free text, a quote.
   */
  predicate RequestMatch(line: string, i: nat, k: nat, q: nat) {
    && i < |line| && line[i] == '"'
    && MethodSpaceAt(line, i + 1, k)
    && i + 2 + |Methods[k]| <= q < |line| && line[q] == '"'
    && forall m :: i + 2 + |Methods[k]| <= m < q ==> line[m] != '"'
  }

  /** The first method of the alternation, from index `k` on, that sits at `j` followed by a space. */
  function MethodAt(line: string, j: nat, k: nat): (r: Option<nat>)
    requires k <= |Methods|
    decreases |Methods| - k
    ensures r.Some? ==> k <= r.value && MethodSpaceAt(line, j, r.value)
    ensures r.None? ==> (forall k': nat :: k <= k' ==> !MethodSpaceAt(line, j, k'))
  {
    if k == |Methods| then None
    else if MethodSpaceAt(line, j, k) then Some(k)
    else MethodAt(line, j, k + 1)
  }

  /** The first double quote at or after `from`. */
  function NextQuote(line: string, from: nat): (r: Option<nat>)
    decreases |line| - from
    ensures r.Some? ==> from <= r.value < |line| && line[r.value] == '"'
    ensures r.Some? ==> (forall m :: from <= m < r.value ==> line[m] != '"')
    ensures r.None? ==> (forall m :: from <= m < |line| ==> line[m] != '"')
  {
    if from >= |line| then None
    else if line[from] == '"' then Some(from)
    else NextQuote(line, from + 1)
  }

  /**
   * The path group's span at `i`: once a method and its space follow the
   * quote, the greedy `[^"]*` runs to the next quote, and the match fails
   * if there is none.
   */
  function RequestAt(line: string, i: nat): (r: Option<(nat, nat)>)
    ensures r.Some? ==> i < r.value.0 <= r.value.1 < |line|
  {
    if i >= |line| || line[i] != '"' then None
    else
      match MethodAt(line, i + 1, 0)
      case None => None
      case Some(k) =>
        var start := i + 2 + |Methods[k]|;
        match NextQuote(line, start)
        case None => None
        case Some(q) => Some((start, q))
  }

  /** The methods of the alternation are told apart by their first two letters. */
  lemma TwoLetterPrefixes(a: nat, b: nat)
    requires a < |Methods| && b < |Methods|
    requires Methods[a][0] == Methods[b][0] && Methods[a][1] == Methods[b][1]
    ensures a == b
  {
  }

  /** No method is a prefix of another followed by a space, so at most one method matches at a position. */
  lemma MethodUnique(line: string, j: nat, k: nat, k': nat)
    requires MethodSpaceAt(line, j, k) && MethodSpaceAt(line, j, k')
    ensures k == k'
  {
    var w, w' := line[j..j + |Methods[k]|], line[j..j + |Methods[k']|];
    assert |Methods[k]| >= 3 && |Methods[k']| >= 3;
    assert w[0] == line[j] == w'[0] && w[1] == line[j + 1] == w'[1];
    TwoLetterPrefixes(k, k');
  }

  /** A match at a given position determines the method and the closing quote. */
  lemma RequestMatchUnique(line: string, i: nat, k: nat, q: nat, k': nat, q': nat)
    requires RequestMatch(line, i, k, q) && RequestMatch(line, i, k', q')
    ensures k == k' && q == q'
  {
    MethodUnique(line, i + 1, k, k');
  }

  lemma RequestAtSpec(line: string, i: nat)
    ensures RequestAt(line, i).Some? ==> exists k: nat ::
      && RequestMatch(line, i, k, RequestAt(line, i).value.1)
      && RequestAt(line, i).value.0 == i + 2 + |Methods[k]|
    ensures RequestAt(line, i).None? ==> (forall k: nat, q: nat :: !RequestMatch(line, i, k, q))
  {
    if i < |line| && line[i] == '"' {
      var found := MethodAt(line, i + 1, 0);
      if found.Some? {
        var k := found.value;
        forall k': nat, q': nat | RequestMatch(line, i, k', q')
          ensures RequestAt(line, i).Some?
        {
          MethodUnique(line, i + 1, k, k');
        }
        if RequestAt(line, i).Some? {
          assert RequestMatch(line, i, k, RequestAt(line, i).value.1);
        }
      }
    }
  }

  /** `re.search(request_pattern, line).group(2)`. */
  function FindRequest(line: string): Option<string> {
    match Leftmost(Request, line, 0)
    case None => None
    case Some(i) =>
      var span := RequestAt(line, i).value;
      Some(line[span.0..span.1])
  }

  /**
   * The path found is the text between the method's space and the next quote
   * in the first matching request, and none is found only when no request matches.
   */
  lemma FindRequestSpec(line: string)
    ensures FindRequest(line).None? <==>
      (forall i: nat, k: nat, q: nat :: !RequestMatch(line, i, k, q))
    ensures FindRequest(line).Some? ==> exists i: nat, k: nat, q: nat ::
      && RequestMatch(line, i, k, q)
      && FindRequest(line).value == line[i + 2 + |Methods[k]|..q]
      && (forall i': nat, k': nat, q': nat :: i' < i ==> !RequestMatch(line, i', k', q'))
  {
    var found := Leftmost(Request, line, 0);
    var limit := if found.Some? then found.value else |line| + 1;
    forall i: nat, k: nat, q: nat | i < limit ensures !RequestMatch(line, i, k, q) {
      if i <= |line| {
        assert !MatchesAt(Request, line, i);
      }
      RequestAtSpec(line, i);
    }
    if found.Some? {
      var i := found.value;
      RequestAtSpec(line, i);
      var k: nat :| RequestMatch(line, i, k, RequestAt(line, i).value.1)
        && RequestAt(line, i).value.0 == i + 2 + |Methods[k]|;
      assert FindRequest(line).value == line[i + 2 + |Methods[k]|..RequestAt(line, i).value.1];
    }
  }

  /** The first matching request determines the path found: the text from the method's space to its closing quote. */
  lemma FindRequestAt(line: string, i: nat, k: nat, q: nat)
    requires RequestMatch(line, i, k, q)
    requires forall i': nat, k': nat, q': nat :: i' < i ==> !RequestMatch(line, i', k', q')
    ensures FindRequest(line) == Some(line[i + 2 + |Methods[k]|..q])
  {
    RequestAtSpec(line, i);
    assert MatchesAt(Request, line, i);
    var found := Leftmost(Request, line, 0);
    assert found.Some? && found.value <= i;
    if found.value < i {
      RequestAtSpec(line, found.value);
    }
    assert found.value == i;
    var k0: nat :| RequestMatch(line, i, k0, RequestAt(line, i).value.1)
      && RequestAt(line, i).value.0 == i + 2 + |Methods[k0]|;
    RequestMatchUnique(line, i, k, q, k0, RequestAt(line, i).value.1);
  }

  // ------------------------------------------------ status
  // " (\d{3}) 

  predicate StatusAt(line: string, i: nat) {
    && i + 6 <= |line|
    && line[i] == '"' && line[i + 1] == ' '
    && IsDigit(line[i + 2]) && IsDigit(line[i + 3]) && IsDigit(line[i + 4])
    && line[i + 5] == ' '
  }

  /** `re.search(status_code_pattern, line).group(1)`. */
  function FindStatus(line: string): Option<string> {
    match Leftmost(Status, line, 0)
    case None => None
    case Some(i) => Some(line[i + 2..i + 5])
  }

  /** The status found is the three digits of the first status-shaped text, and none is found only when there is none. */
  lemma FindStatusSpec(line: string)
    ensures FindStatus(line).None? <==> (forall i: nat :: i <= |line| ==> !MatchesAt(Status, line, i))
    ensures FindStatus(line).Some? ==> exists i: nat ::
      && MatchesAt(Status, line, i) && FindStatus(line).value == line[i + 2..i + 5]
      && (forall i': nat :: i' < i ==> !MatchesAt(Status, line, i'))
  {
  }
}
