/**
 * The port scanner: resolving the host and the ports to probe from the
 * operator's raw answers, and the sequential probe loop that prints one
 * line per port.  The TCP connect is an oracle `connect(host, port)` that
 * either returns the status code of a non-raising connect or raises a
 * socket error with a message.
 */
module PortScanner {
  import opened Common
  import opened Text

  const DefaultHost := "localhost"
  const DefaultStartPort: nat := 1
  const DefaultEndPort: nat := 65535

  /** A blank host means the local machine; any other host is kept as typed. */
  function ResolveHost(targetHost: string): (host: string)
    ensures targetHost == "" ==> host == DefaultHost
    ensures targetHost != "" ==> host == targetHost
  {
    if targetHost == "" then DefaultHost else targetHost
  }

  /** What one token contributes to an explicit port list. */
  function TokenPorts(token: string): seq<nat> {
    if IsDigits(token) then [DecimalValue(token)] else []
  }

  /** The integer values of the tokens that are all digits, in order, duplicates kept. */
  function DigitTokens(tokens: seq<string>): (ports: seq<nat>)
    ensures |ports| <= |tokens|
  {
    if tokens == [] then [] else TokenPorts(tokens[0]) + DigitTokens(tokens[1..])
  }

  lemma {:induction false} DigitTokensAppend(a: seq<string>, b: seq<string>)
    ensures DigitTokens(a + b) == DigitTokens(a) + DigitTokens(b)
  {
    if a == [] {
      assert a + b == b;
    } else {
      calc {
        DigitTokens(a + b);
        { assert (a + b)[0] == a[0] && (a + b)[1..] == a[1..] + b; }
        TokenPorts(a[0]) + DigitTokens(a[1..] + b);
        { DigitTokensAppend(a[1..], b); }
        TokenPorts(a[0]) + (DigitTokens(a[1..]) + DigitTokens(b));
        (TokenPorts(a[0]) + DigitTokens(a[1..])) + DigitTokens(b);
      }
    }
  }

  /** An explicit port list: comma-separated tokens, keeping only those made of digits. */
  function ParseSpecific(specificPorts: string): (ports: seq<nat>)
    ensures |ports| <= |Split(specificPorts, ',')|
    ensures ',' !in specificPorts ==>
      ports == if IsDigits(specificPorts) then [DecimalValue(specificPorts)] else []
  {
    // both branches compute the same list; the comma-free one only calls the
    // lemma that proves the second ensures (the list splits into itself)
    if ',' in specificPorts then DigitTokens(Split(specificPorts, ','))
    else
      SplitWithoutSeparator(specificPorts, ',');
      DigitTokens(Split(specificPorts, ','))
  }

  /** Tokens on either side of a comma are parsed independently and in order. */
  lemma ParseSpecificAround(a: string, b: string)
    ensures ParseSpecific(a + "," + b) == ParseSpecific(a) + ParseSpecific(b)
  {
    SplitAround(a, ',', b);
    DigitTokensAppend(Split(a, ','), Split(b, ','));
  }

  /** The decimal form of any number is kept: there is no range check, so 0 and 70000 survive. */
  lemma ParseNumber(n: nat)
    ensures ParseSpecific(NatToString(n)) == [n]
  {
    DecimalValueOfNatToString(n);
  }

  /** A number behind a leading non-digit, such as a padding blank or a sign, is not all digits and is dropped. */
  lemma ParseMarkedNumber(mark: char, n: nat)
    requires mark != ',' && !IsDigit(mark)
    ensures ParseSpecific([mark] + NatToString(n)) == []
  {
    var token := [mark] + NatToString(n);
    assert token[0] == mark;
  }

  /** A trailing comma adds an empty token, which is dropped. */
  lemma ParseTrailingComma(s: string)
    ensures ParseSpecific(s + ",") == ParseSpecific(s)
  {
    ParseSpecificAround(s, "");
    assert s + "," + "" == s + ",";
  }

  /** Non-numeric tokens are dropped and the numbers keep their order. */
  lemma ParseMixedList(a: nat, word: string, b: nat)
    requires ',' !in word && !IsDigits(word)
    ensures ParseSpecific(NatToString(a) + "," + word + "," + NatToString(b)) == [a, b]
  {
    var x, y := NatToString(a), NatToString(b);
    ParseSpecificAround(x + "," + word, y);
    ParseSpecificAround(x, word);
    ParseNumber(a);
    ParseNumber(b);
  }

  /** `int(token) if token and token.isdigit() else default`. */
  function ResolveBound(token: Option<string>, default: nat): (port: nat)
    ensures token.Some? && IsDigits(token.value) ==> port == DecimalValue(token.value)
    ensures !(token.Some? && IsDigits(token.value)) ==> port == default
  {
    if token.Some? && token.value != "" && IsDigits(token.value) then DecimalValue(token.value) else default
  }

  /** `range(start, end + 1)`. */
  function PortRange(start: nat, end: nat): (ports: seq<nat>)
    ensures |ports| == if start <= end then end - start + 1 else 0
    ensures forall i :: 0 <= i < |ports| ==> ports[i] == start + i
    decreases end + 1 - start
  {
    if start > end then [] else [start] + PortRange(start + 1, end)
  }

  /**
   * The ports to scan.  A non-empty explicit list wins; an absent or empty
   * list selects the range mode with its defaults.
   */
  function ResolvePorts(startPort: Option<string>, endPort: Option<string>, specificPorts: Option<string>): (ports: seq<nat>)
    ensures specificPorts.Some? && specificPorts.value != "" ==> ports == ParseSpecific(specificPorts.value)
    ensures !(specificPorts.Some? && specificPorts.value != "") ==>
      var start, end := ResolveBound(startPort, DefaultStartPort), ResolveBound(endPort, DefaultEndPort);
      |ports| == (if start <= end then end - start + 1 else 0) &&
      forall i :: 0 <= i < |ports| ==> ports[i] == start + i
  {
    if specificPorts.Some? && specificPorts.value != "" then ParseSpecific(specificPorts.value)
    else PortRange(ResolveBound(startPort, DefaultStartPort), ResolveBound(endPort, DefaultEndPort))
  }

  /** An empty explicit list is falsy: the whole port space 1..65535 is scanned. */
  lemma EmptyListScansAllPorts(startPort: Option<string>, endPort: Option<string>)
    requires startPort == None || startPort == Some("")
    requires endPort == None || endPort == Some("")
    ensures var ports := ResolvePorts(startPort, endPort, Some(""));
      |ports| == 65535 && ports[0] == 1 && ports[65534] == 65535
  {
  }

  /** `map(str, ports)`. */
  function PortStrings(ports: seq<nat>): (strs: seq<string>)
    ensures |strs| == |ports|
  {
    if ports == [] then [] else [NatToString(ports[0])] + PortStrings(ports[1..])
  }

  /** `', '.join(map(str, ports))`. */
  function PortList(ports: seq<nat>): (list: string)
    ensures list == "" <==> ports == []
  {
    Join(PortStrings(ports), ", ")
  }

  const SummaryLead := "Scanning "
  const SummaryMiddle := " on ports: "
  const SummaryEnd := "..."

  /** The line printed before any probe runs. */
  function Summary(host: string, ports: seq<nat>): string {
    SummaryLead + host + SummaryMiddle + PortList(ports) + SummaryEnd
  }

  /** Given the host, the summary line determines the ports to be scanned. */
  lemma SummaryDeterminesPorts(host: string, ports: seq<nat>)
    ensures ReadSummary(host, Summary(host, ports)) == Some(ports)
  {
    var head, list := SummaryLead + host + SummaryMiddle, PortList(ports);
    ReadPortListOfPortList(ports);
    assert Summary(host, ports) == head + list + SummaryEnd;
    assert (head + list + SummaryEnd)[..|head|] == head;
    assert (head + list + SummaryEnd)[|head + list|..] == SummaryEnd;
    assert (head + list + SummaryEnd)[|head|..|head + list|] == list;
  }

  /** Reads the port list back from a summary line for `host`. */
  function ReadSummary(host: string, line: string): Option<seq<nat>> {
    var head := SummaryLead + host + SummaryMiddle;
    if |line| >= |head| + |SummaryEnd| && line[..|head|] == head && line[|line| - |SummaryEnd|..] == SummaryEnd
    then Some(ReadPortList(line[|head|..|line| - |SummaryEnd|]))
    else None
  }

  /** Drops one leading blank, as left by the `", "` separator. */
  function ReadToken(token: string): string {
    if |token| > 0 && token[0] == ' ' then token[1..] else token
  }

  function ReadTokens(tokens: seq<string>): (r: seq<string>)
    ensures |r| == |tokens|
  {
    if tokens == [] then [] else [ReadToken(tokens[0])] + ReadTokens(tokens[1..])
  }

  /** Reads the port numbers back from the list in a summary line. */
  function ReadPortList(list: string): seq<nat> {
    DigitTokens(ReadTokens(Split(list, ',')))
  }

  /** Reading the tokens of `head, x` gives `head` and then the tokens of `x`. */
  lemma ReadTokensAfterSeparator(head: string, x: string)
    requires ',' !in head && (head == [] || head[0] != ' ')
    requires x != [] && x[0] != ' '
    ensures ReadTokens(Split(head + [','] + (" " + x), ',')) == [head] + ReadTokens(Split(x, ','))
  {
    SplitAround(head, ',', " " + x);
    SplitWithoutSeparator(head, ',');
    assert (" " + x)[1..] == x;
    var rest := Split(x, ',');
    assert Split(" " + x, ',') == [" " + rest[0]] + rest[1..];
    assert ReadToken(rest[0]) == rest[0];
    assert ReadToken(" " + rest[0]) == rest[0];
    assert ReadTokens([" " + rest[0]] + rest[1..]) == ReadTokens(rest) by {
      assert ReadTokens(rest) == [ReadToken(rest[0])] + ReadTokens(rest[1..]);
      assert ([" " + rest[0]] + rest[1..])[1..] == rest[1..];
    }
    assert ReadTokens([head] + Split(" " + x, ',')) == [head] + ReadTokens(rest) by {
      assert ([head] + Split(" " + x, ','))[1..] == Split(" " + x, ',');
    }
  }

  /** The summary line's port list determines the scanned port sequence. */
  lemma {:induction false} ReadPortListOfPortList(ports: seq<nat>)
    ensures ReadPortList(PortList(ports)) == ports
  {
    if |ports| == 1 {
      var s := NatToString(ports[0]);
      assert PortList(ports) == s;
      SplitWithoutSeparator(s, ',');
      DecimalValueOfNatToString(ports[0]);
    } else if |ports| > 1 {
      var head := NatToString(ports[0]);
      var x := PortList(ports[1..]);
      assert PortStrings(ports)[1..] == PortStrings(ports[1..]);
      assert PortList(ports) == head + [','] + (" " + x);
      // x begins with the first digit of the next port, so its first token has no leading blank
      assert x[0] == NatToString(ports[1])[0];
      ReadTokensAfterSeparator(head, x);
      ReadPortListOfPortList(ports[1..]);
      DecimalValueOfNatToString(ports[0]);
      DigitTokensAppend([head], ReadTokens(Split(x, ',')));
    } else {
      assert PortList(ports) == "";
    }
  }

  /**
   * What one `connect_ex` call reports: a status code, or a raised socket
   * error.  For a port above 65535 it only says whether the host lookup
   * failed (see `Overflows`).
   */
  datatype ConnectResult = Status(code: int) | SocketError(message: string)

  /** The three-way classification of one probe. */
  datatype ProbeOutcome = Open | Closed | Failed(message: string)

  /** Status 0 is open, any other status is closed, a raised error is reported with its message. */
  function Classify(result: ConnectResult): (outcome: ProbeOutcome)
    ensures outcome == Open <==> result == Status(0)
    ensures outcome == Closed <==> result.Status? && result.code != 0
    ensures outcome.Failed? <==> result.SocketError?
    ensures outcome.Failed? ==> outcome.message == result.message
  {
    match result
    case Status(code) => if code == 0 then Open else Closed
    case SocketError(message) => Failed(message)
  }

  const PortPrefix := "Port "
  const OpenSuffix := " is open"
  const ClosedSuffix := " is closed"
  const ErrorPrefix := "Error connecting to port "
  const ErrorSeparator := ": "

  /** The line printed for one probed port. */
  function ResultLine(port: nat, outcome: ProbeOutcome): string {
    match outcome
    case Open => PortPrefix + NatToString(port) + OpenSuffix
    case Closed => PortPrefix + NatToString(port) + ClosedSuffix
    case Failed(message) => ErrorPrefix + NatToString(port) + ErrorSeparator + message
  }

  /** A result line can be read back, port and outcome, so the printed lines are unambiguous. */
  lemma ResultLineParses(port: nat, outcome: ProbeOutcome)
    ensures ParseResultLine(ResultLine(port, outcome)) == Some((port, outcome))
  {
    match outcome
    case Open => ParseOpenLine(port);
    case Closed => ParseClosedLine(port);
    case Failed(message) => ParseErrorLine(port, message);
  }

  /** The length of the longest all-digit prefix. */
  function DigitSpan(s: string): (k: nat)
    ensures k <= |s| && AllDigits(s[..k])
    ensures k < |s| ==> !IsDigit(s[k])
  {
    if s == [] || !IsDigit(s[0]) then 0
    else
      var k := 1 + DigitSpan(s[1..]);
      assert s[..k] == [s[0]] + s[1..][..k - 1];
      k
  }

  /** Recovers the port and the outcome from a printed result line. */
  function ParseResultLine(line: string): Option<(nat, ProbeOutcome)> {
    if |line| >= |ErrorPrefix| && line[..|ErrorPrefix|] == ErrorPrefix then
      var rest := line[|ErrorPrefix|..];
      var k := DigitSpan(rest);
      if 0 < k && |rest| >= k + 2 && rest[k..k + 2] == ErrorSeparator then
        Some((DecimalValue(rest[..k]), Failed(rest[k + 2..])))
      else None
    else if |line| >= |PortPrefix| && line[..|PortPrefix|] == PortPrefix then
      var rest := line[|PortPrefix|..];
      var k := DigitSpan(rest);
      if 0 < k && rest[k..] == OpenSuffix then Some((DecimalValue(rest[..k]), Open))
      else if 0 < k && rest[k..] == ClosedSuffix then Some((DecimalValue(rest[..k]), Closed))
      else None
    else None
  }

  /** A run of digits followed by a non-digit is exactly the longest digit prefix. */
  lemma {:induction false} DigitSpanOfDigits(digits: string, tail: string)
    requires AllDigits(digits)
    requires tail != [] && !IsDigit(tail[0])
    ensures DigitSpan(digits + tail) == |digits|
  {
    if digits == [] {
      assert digits + tail == tail;
    } else {
      assert (digits + tail)[0] == digits[0];
      assert (digits + tail)[1..] == digits[1..] + tail;
      DigitSpanOfDigits(digits[1..], tail);
    }
  }

  /** A number's digits followed by a non-digit `tail`: the line after `prefix` reads back as that number and `tail`. */
  lemma ReadNumberAfter(prefix: string, n: nat, tail: string)
    requires tail != [] && !IsDigit(tail[0])
    ensures var line := prefix + NatToString(n) + tail;
      var rest := line[|prefix|..];
      && line[..|prefix|] == prefix
      && rest == NatToString(n) + tail
      && DigitSpan(rest) == |NatToString(n)|
      && DecimalValue(rest[..|NatToString(n)|]) == n
      && rest[|NatToString(n)|..] == tail
  {
    var d := NatToString(n);
    var line := prefix + d + tail;
    assert line == prefix + (d + tail);
    DigitSpanOfDigits(d, tail);
    DecimalValueOfNatToString(n);
    assert (d + tail)[..|d|] == d;
  }

  lemma ParseOpenLine(port: nat)
    ensures ParseResultLine(PortPrefix + NatToString(port) + OpenSuffix) == Some((port, Open))
  {
    ReadNumberAfter(PortPrefix, port, OpenSuffix);
    var line := PortPrefix + NatToString(port) + OpenSuffix;
    assert line[0] == 'P';
    assert |line| >= |ErrorPrefix| ==> line[..|ErrorPrefix|][0] == 'P';
  }

  lemma ParseClosedLine(port: nat)
    ensures ParseResultLine(PortPrefix + NatToString(port) + ClosedSuffix) == Some((port, Closed))
  {
    ReadNumberAfter(PortPrefix, port, ClosedSuffix);
    var line := PortPrefix + NatToString(port) + ClosedSuffix;
    assert line[0] == 'P';
    assert |line| >= |ErrorPrefix| ==> line[..|ErrorPrefix|][0] == 'P';
    assert |OpenSuffix| != |ClosedSuffix|;
  }

  lemma ParseErrorLine(port: nat, message: string)
    ensures ParseResultLine(ErrorPrefix + NatToString(port) + ErrorSeparator + message) == Some((port, Failed(message)))
  {
    var d := NatToString(port);
    ReadNumberAfter(ErrorPrefix, port, ErrorSeparator + message);
    assert ErrorPrefix + d + ErrorSeparator + message == ErrorPrefix + d + (ErrorSeparator + message);
    assert (ErrorSeparator + message)[..2] == ErrorSeparator;
  }

  /** The largest port number a socket address accepts. */
  const MaxPort: nat := 65535

  /** The largest port the address conversion reads into its C `int` before it looks the host up. */
  const IntMax: nat := 0x7FFF_FFFF

  /**
   * Whether probing `port` raises `OverflowError`, which the handler does not
   * catch.  A port above 2^31 - 1 overflows while the address is converted,
   * before the host is looked up.  A port from 65536 to 2^31 - 1 is range
   * checked only after the lookup: when the lookup fails, `connect_ex` raises
   * `socket.gaierror` instead, a `socket.error` that the handler reports.  At
   * such a port the oracle's answer stands for the lookup: a socket error is
   * the lookup's error, and a status means the host resolved.
   */
  predicate Overflows(host: string, port: nat, connect: (string, nat) -> ConnectResult) {
    port > IntMax || (port > MaxPort && connect(host, port).Status?)
  }

  /** How many ports are probed: those before the first port whose probe overflows. */
  function ProbedCount(host: string, ports: seq<nat>, connect: (string, nat) -> ConnectResult): (k: nat)
    ensures k <= |ports|
    ensures forall i :: 0 <= i < k ==> !Overflows(host, ports[i], connect)
    ensures k < |ports| ==> Overflows(host, ports[k], connect)
  {
    if ports == [] || Overflows(host, ports[0], connect) then 0 else 1 + ProbedCount(host, ports[1..], connect)
  }

  /** On a host that resolves, a range that runs past 65535 is probed up to 65535 and then aborts. */
  lemma RangePastMaxPortStops(host: string, start: nat, end: nat, connect: (string, nat) -> ConnectResult)
    requires start <= MaxPort < end
    requires connect(host, MaxPort + 1).Status?
    ensures ProbedCount(host, PortRange(start, end), connect) == MaxPort + 1 - start
  {
    var ports := PortRange(start, end);
    assert ports[MaxPort + 1 - start] == MaxPort + 1;
  }

  /** A listed port above 65535 aborts the scan before anything is probed, unless the host lookup fails first. */
  lemma ListedPortPastMaxPortStops(host: string, n: nat, connect: (string, nat) -> ConnectResult)
    requires n > IntMax || (n > MaxPort && connect(host, n).Status?)
    ensures ProbedCount(host, ParseSpecific(NatToString(n)), connect) == 0
  {
    ParseNumber(n);
  }

  /**
   * On a host whose lookup fails, every port up to 2^31 - 1 is probed and
   * reported, those above 65535 included: nothing overflows.
   */
  lemma {:induction false} UnresolvedHostProbesEveryPort(host: string, ports: seq<nat>, connect: (string, nat) -> ConnectResult)
    requires forall i :: 0 <= i < |ports| ==> ports[i] <= IntMax && connect(host, ports[i]).SocketError?
    ensures ProbedCount(host, ports, connect) == |ports|
  {
    if ports != [] {
      UnresolvedHostProbesEveryPort(host, ports[1..], connect);
    }
  }

  /** How the probe loop ended: after the last port, or at a port whose `OverflowError` is not caught. */
  datatype ScanEnd = Completed | PortOverflow(port: nat)

  /** One probe: the `try` block of one turn, and the line it prints. */
  method Probe(host: string, port: nat, connect: (string, nat) -> ConnectResult) returns (line: string)
    ensures line == ResultLine(port, Classify(connect(host, port)))
  {
    match connect(host, port) {
      case Status(result) =>
        if result == 0 {
          line := PortPrefix + NatToString(port) + OpenSuffix;
        } else {
          line := PortPrefix + NatToString(port) + ClosedSuffix;
        }
      case SocketError(e) =>
        line := ErrorPrefix + NatToString(port) + ErrorSeparator + e;
    }
  }

  /** The lines the probes of `ports` print, one per port, in port order. */
  function ProbeLines(host: string, ports: seq<nat>, connect: (string, nat) -> ConnectResult): (lines: seq<string>)
    ensures |lines| == |ports|
  {
    if ports == [] then []
    else
      var last := ports[|ports| - 1];
      ProbeLines(host, ports[..|ports| - 1], connect) + [ResultLine(last, Classify(connect(host, last)))]
  }

  /** Line `i` of the probe output reports port `i`'s outcome. */
  lemma {:induction false} ProbeLinesAt(host: string, ports: seq<nat>, connect: (string, nat) -> ConnectResult, i: nat)
    requires i < |ports|
    ensures ProbeLines(host, ports, connect)[i] == ResultLine(ports[i], Classify(connect(host, ports[i])))
  {
    if i < |ports| - 1 {
      ProbeLinesAt(host, ports[..|ports| - 1], connect, i);
    }
  }

  /**
   * The probe loop: the summary line first, then one line per port, in port
   * order.  A raised socket error is reported on that port's line and the
   * loop goes on with the next port; a port that `Overflows` raises
   * `OverflowError`, which the handler does not catch, and ends the scan.
   */
  method Scan(host: string, ports: seq<nat>, connect: (string, nat) -> ConnectResult)
    returns (lines: seq<string>, end: ScanEnd)
    ensures var k := ProbedCount(host, ports, connect);
      && lines == [Summary(host, ports)] + ProbeLines(host, ports[..k], connect)
      && end == if k < |ports| then PortOverflow(ports[k]) else Completed
  {
    var summary := Summary(host, ports);
    var probed: seq<string> := [];
    ghost var k := ProbedCount(host, ports, connect);
    for i := 0 to |ports|
      invariant i <= k
      invariant probed == ProbeLines(host, ports[..i], connect)
    {
      var port := ports[i];
      if Overflows(host, port, connect) {
        assert i == k;
        return [summary] + probed, PortOverflow(port);
      }
      assert i < k;
      var line := Probe(host, port, connect);
      assert ports[..i + 1][..i] == ports[..i];
      probed := probed + [line];
    }
    assert ports[..|ports|] == ports;
    lines, end := [summary] + probed, Completed;
  }

  /** The whole scanner: resolve the host and the ports, then probe them in order. */
  method Run(targetHost: string, startPort: Option<string>, endPort: Option<string>, specificPorts: Option<string>,
             connect: (string, nat) -> ConnectResult)
    returns (lines: seq<string>, end: ScanEnd)
    ensures var host, ports := ResolveHost(targetHost), ResolvePorts(startPort, endPort, specificPorts);
      var k := ProbedCount(host, ports, connect);
      && lines == [Summary(host, ports)] + ProbeLines(host, ports[..k], connect)
      && end == if k < |ports| then PortOverflow(ports[k]) else Completed
  {
    var host := ResolveHost(targetHost);
    var ports := ResolvePorts(startPort, endPort, specificPorts);
    lines, end := Scan(host, ports, connect);
  }
}
