# Security-automation scripts: a verified model

This project models three small Python security-automation scripts in Dafny and proves
properties about them:

- **The port scanner** (`port_scanner`). It resolves the target host and the ports to probe
  from the operator's raw answers: a blank host, a comma-separated list of specific ports, or a
  start/end range with defaults 1 and 65535. It prints a summary line, then probes the ports in
  order and prints one line per port: open, closed, or the socket error's message. A port above
  65535 on a host that resolves raises an uncaught `OverflowError` and ends the scan.
- **The echo pair** (`start_server`, `connect_to_server`).
  - The listener binds and listens. It then accepts one client at a time, reads one chunk of at
    most 1024 bytes, decodes it as UTF-8 and echoes it back.
  - An empty chunk, an accept timeout or any other fault ends the whole accept loop.
  - The client connects and sends a fixed HTTP/1.1 `GET` request. It accumulates the response
    until the peer closes, and a fault at any step is caught and reported.
- **The PCI-DSS configuration audit** (`is_windows`, `is_linux`, eight `check_*` functions,
  `create_ticket_in_ats`).
  - Each check decides Compliant or Non-Compliant from the text its command or configuration
    file yields. It reports Not Applicable where Windows has no such check, and
    "Unknown OS or Unsupported" on any other OS.
  - The ticket step keeps the non-compliant entries and raises a ticket exactly when there is one.

Sockets, subprocesses and files are replaced by what they report:
- the scanner's `connect_ex` is an oracle `connect(host, port)` that returns a status code or
  raises a socket error;
- the listener consumes a finite trace of accept events;
- the client consumes a finite trace of reads;
- the audit receives the OS name and the inspected texts as a `Host` record.

The modules follow the scripts:

| module | file | models |
|---|---|---|
| `Text` | `Text.dfy` | `isdigit`, `int`, `str`, `split`, `join` and `in` on strings |
| `PortScanner` | `PortScanner.dfy` | `MidTermExamPart2.py` |
| `Utf8` | `Utf8.dfy` | strict UTF-8 validity, which decides whether `bytes.decode()` raises |
| `Echo` | `Echo.dfy` | `MIdTermExamPart1.py` |
| `Compliance` | `Compliance.dfy` | `FinalProject.py` |

`Common` holds `Option` and the `byte` type.

### Behaviour of the code worth knowing

- Explicit port lists have no range check. `0` and `70000` are both parsed
  (`PortScanner.ParseNumber`), although the range mode's defaults span the valid ports 1 to 65535.
- `connect_ex` converts the address before connecting: it reads the port into a C `int`, then
  looks the host up, then checks the port against 0..65535.
  - A port above 2^31 - 1, or a port above 65535 on a host that resolves, raises
    `OverflowError`. The handler catches only `socket.error`, so the scan ends there: the
    summary line and the lines of the ports before it are printed, nothing after
    (`PortScanner.Overflows`, `PortScanner.Scan`, `PortOverflow`). On such a host a range whose
    end is above 65535 stops after port 65535 (`PortScanner.RangePastMaxPortStops`).
  - On a host whose lookup fails, a port from 65536 to 2^31 - 1 raises `socket.gaierror`
    first. That is a `socket.error`, so its error line is printed and the scan goes on
    (`PortScanner.UnresolvedHostProbesEveryPort`).
- `bind` and `listen` sit outside the `try`, so a bind or listen fault propagates to the caller
  instead of being printed (`Echo.StartServer`, `BindRaised`).
- An explicit list that is empty is falsy, so the range mode with its defaults is used: all of
  1..65535 is scanned (`PortScanner.EmptyListScansAllPorts`).
- On Linux the file-integrity and logging checks test the boolean `True` for membership in a
  string. That raises `TypeError`, so on Linux the audit never completes
  (`Compliance.RunAudit`).
- On an unsupported OS every entry is "Unknown OS or Unsupported". No entry is Non-Compliant, so
  the run ends with "All checks are compliant" (`Compliance.UnsupportedOsCreatesNoTicket`).

## Model

| member | source | states |
|---|---|---|
| Text.DecimalValue | MidTermExamPart2.py:16 | `int(s)` of a digit string is zero exactly when every digit is `0` |
| Text.NatToString | MidTermExamPart2.py:22 | `str(n)` is a non-empty digit string with no leading zero |
| Text.DecimalValueOfNatToString | MidTermExamPart2.py:16 | `int(str(n)) == n`; Python agrees for numbers of at most 4300 digits, and beyond that `int` raises (see "## Left out") |
| Text.Split | MidTermExamPart2.py:16 | `split` yields at least one piece |
| Text.SplitPiecesAvoidSeparator | MidTermExamPart2.py:16 | no piece of `split(sep)` contains `sep` |
| Text.SplitWithoutSeparator | MidTermExamPart2.py:16 | text without the separator splits into itself alone |
| Text.SplitAround | MidTermExamPart2.py:16 | splitting `a + sep + b` is splitting `a`, then splitting `b` |
| Text.SplitFirst | MIdTermExamPart1.py:50 | a separator-free piece before the separator is split off as the first piece |
| Text.Join | MidTermExamPart2.py:22 | the joined text is as long as the pieces plus one separator between each two, and starts with the first piece |
| Text.Contains | FinalProject.py:30 | a pattern longer than the text is never contained; a prefix of the text always is |
| Text.ContainsIff | FinalProject.py:30 | `sub in s` holds exactly when `sub` occurs at some position of `s` |
| PortScanner.ResolveHost | MidTermExamPart2.py:14 | a blank host becomes `localhost`; any other host is kept as typed |
| PortScanner.DigitTokens | MidTermExamPart2.py:16 | filtering tokens yields at most one port per token |
| PortScanner.DigitTokensAppend | MidTermExamPart2.py:16 | the comprehension is compositional: tokens of `a + b` give the ports of `a`, then those of `b` |
| PortScanner.ParseSpecific | MidTermExamPart2.py:16 | at most one port per comma-separated token; a list without a comma yields its value when it is all digits and nothing otherwise |
| PortScanner.ParseSpecificAround | MidTermExamPart2.py:16 | the tokens on either side of a comma are parsed independently and in order |
| PortScanner.ParseNumber | MidTermExamPart2.py:16 | the decimal form of a number of at most 4300 digits parses to that number: no range check, so 0 and 70000 are kept (the model extends this to longer numbers, see "## Left out") |
| PortScanner.ParseMarkedNumber | MidTermExamPart2.py:16 | a number behind a blank, a sign or any other non-digit is dropped: tokens are not stripped and signs are not read |
| PortScanner.ParseTrailingComma | MidTermExamPart2.py:16 | a trailing comma changes nothing |
| PortScanner.ParseMixedList | MidTermExamPart2.py:16 | non-numeric tokens are dropped and the numbers keep their order |
| PortScanner.ResolveBound | MidTermExamPart2.py:18-19 | an absent, blank or non-digit bound takes its default; a digit bound takes its value |
| PortScanner.PortRange | MidTermExamPart2.py:20 | `range(start, end + 1)`: `end - start + 1` consecutive ports from `start`, none when `start > end` |
| PortScanner.ResolvePorts | MidTermExamPart2.py:15-20 | a non-empty list selects the parsed list; otherwise the range between the resolved bounds |
| PortScanner.EmptyListScansAllPorts | MidTermExamPart2.py:15-20 | an empty list with blank bounds scans all 65535 ports from 1 to 65535 |
| PortScanner.PortStrings | MidTermExamPart2.py:22 | `map(str, ports)` keeps one string per port |
| PortScanner.PortList | MidTermExamPart2.py:22 | the joined list is empty exactly when there are no ports |
| PortScanner.ReadTokens | MidTermExamPart2.py:22 | reader helper for the summary line's round trip (the script never reads its output back): one read token per printed token |
| PortScanner.ReadPortListOfPortList | MidTermExamPart2.py:22 | the summary's `', '.join(map(str, ports))` determines the scanned ports: reading it back gives them |
| PortScanner.SummaryDeterminesPorts | MidTermExamPart2.py:22 | given the host, the whole summary line determines the ports to be scanned |
| PortScanner.Classify | MidTermExamPart2.py:27-34 | status 0 is open, any other status is closed, a raised error is reported with its message (each an iff) |
| PortScanner.ResultLineParses | MidTermExamPart2.py:29-34 | every result line is unambiguous: it determines the port and the outcome |
| PortScanner.DigitSpan | MidTermExamPart2.py:30-34 | reader helper for the result lines' round trip (the script never reads its output back): the longest all-digit prefix of a printed port field |
| PortScanner.DigitSpanOfDigits | MidTermExamPart2.py:30-34 | reader helper for the result lines' round trip: digits followed by a non-digit form exactly the longest digit prefix |
| PortScanner.ReadNumberAfter | MidTermExamPart2.py:30-34 | a port printed after a prefix and before a non-digit reads back as that port |
| PortScanner.ParseOpenLine | MidTermExamPart2.py:30 | the open line reads back as its port and `Open` |
| PortScanner.ParseClosedLine | MidTermExamPart2.py:32 | the closed line reads back as its port and `Closed` |
| PortScanner.ParseErrorLine | MidTermExamPart2.py:34 | the error line reads back as its port and the error message, whatever the message holds |
| PortScanner.ProbedCount | MidTermExamPart2.py:24-28 | the ports probed are those before the first port whose `connect_ex` raises `OverflowError`: above 2^31 - 1, or above 65535 on a host that resolves |
| PortScanner.RangePastMaxPortStops | MidTermExamPart2.py:20-28 | on a host that resolves, a range that runs past 65535 probes every port up to 65535 and then aborts |
| PortScanner.ListedPortPastMaxPortStops | MidTermExamPart2.py:16-28 | a listed port that overflows (above 2^31 - 1, or above 65535 on a host that resolves) aborts the scan before any probe |
| PortScanner.UnresolvedHostProbesEveryPort | MidTermExamPart2.py:24-34 | on a host whose lookup fails, no port up to 2^31 - 1 overflows: the `gaierror` is caught and every port is probed and reported |
| PortScanner.Probe | MidTermExamPart2.py:27-34 | one probe prints the result line of the port's classified outcome |
| PortScanner.ProbeLinesAt | MidTermExamPart2.py:24-34 | line `i` of the probe output reports port `i` with its classified outcome |
| PortScanner.Scan | MidTermExamPart2.py:22-34 | the summary line first, then one result line per port in order, up to the first port whose probe overflows; a socket error (a failed lookup included) does not stop the loop, an overflow does and is reported as the end |
| PortScanner.Run | MidTermExamPart2.py:10-34 | the whole scanner: resolved host and ports, then the lines and end that `Scan` promises |
| Utf8.LeadingLength | MIdTermExamPart1.py:32 | the length of a well-formed UTF-8 sequence at the front, at most 4 and within the input |
| Utf8.IsValid | MIdTermExamPart1.py:32 | ASCII bytes always decode |
| Utf8.LeadingLengthOfPrefix | MIdTermExamPart1.py:32 | the first character's sequence does not depend on what follows it |
| Utf8.ValidAppend | MIdTermExamPart1.py:32 | the concatenation of two decodable byte strings decodes |
| Utf8.CutCharacterIsInvalid | MIdTermExamPart1.py:32 | four fixed byte strings: `C3 A9` decodes, while `C3` alone, `FF` and the overlong `C0 80` do not |
| Utf8.EncodeScalar | MIdTermExamPart1.py:32 | the encoding of a scalar value (RFC 3629, section 3) is one well-formed sequence of 1 to 4 bytes |
| Utf8.EncodeIsValid | MIdTermExamPart1.py:32 | every encoding of a sequence of scalar values decodes |
| Utf8.DecodeScalar | MIdTermExamPart1.py:32 | a well-formed leading sequence encodes a scalar value, and re-encoding it gives the same bytes |
| Utf8.Decode | MIdTermExamPart1.py:32 | every decodable byte string is the encoding of a sequence of scalar values; with `EncodeIsValid`, the decoder accepts exactly the encodings |
| Echo.EchoOf | MIdTermExamPart1.py:33 | the echo goes to the connection's own peer and carries exactly the received bytes |
| Echo.StopOf | MIdTermExamPart1.py:29-37 | every event that does not continue the loop names a definite reason to stop |
| Echo.Step | MIdTermExamPart1.py:26-37 | one turn of the accept loop continues exactly when the connection is well-behaved, and then echoes its bytes; otherwise it stops for the reason `StopOf` gives and echoes nothing |
| Echo.Serve | MIdTermExamPart1.py:25-37 | the loop is still accepting at the end exactly when every event let it go on, and it sends at most one reply per event |
| Echo.HandleAccept | MIdTermExamPart1.py:26-37 | the loop body prints, sends and stops exactly as `Step` says |
| Echo.ServeCharacterisation | MIdTermExamPart1.py:25-37 | the listener echoes exactly the leading run of well-behaved connections, each its own bytes, and the first other event decides how it stops |
| Echo.ServeLogEnds | MIdTermExamPart1.py:34-37 | a run stopped by a timeout or a fault ends its log with that timeout or error message |
| Echo.StopsAt | MIdTermExamPart1.py:25-37 | after served connections, the first event that does not continue decides the stop, and every served connection got its echo |
| Echo.TimeoutStopsServer | MIdTermExamPart1.py:34-35 | an accept timeout ends the loop however many clients were served before it |
| Echo.EmptyChunkStopsServer | MIdTermExamPart1.py:30-31 | an empty first chunk ends the whole accept loop, not only that connection, and nothing is echoed to it |
| Echo.UndecodableChunkStopsServer | MIdTermExamPart1.py:32 | a chunk that does not decode ends the loop before it is echoed; earlier clients keep their echoes |
| Echo.PingIsEchoed | MIdTermExamPart1.py:26-35 | a client sending `ping`, followed by a timeout: the listener logs the connection and the data, echoes `ping` and then times out |
| Echo.StartServer | MIdTermExamPart1.py:13-37 | a bind fault propagates; otherwise the printed log is the listening line followed by the accept loop's log, with the loop's echoes and stop reason |
| Echo.Request | MIdTermExamPart1.py:50 | for a host without a line feed, the request splits at LF into exactly the request line, the `Host` header and `Connection: close`, each ended by CR, and the blank line |
| Echo.ChunksOf | MIdTermExamPart1.py:55-58 | one chunk per successful read |
| Echo.Drain | MIdTermExamPart1.py:53-58 | the read loop is still reading at the end exactly when every read returned bytes, and then holds all of them concatenated in order |
| Echo.DrainIsConcatenation | MIdTermExamPart1.py:53-58 | the response is every chunk read before the first empty read, concatenated in order |
| Echo.DrainReportsFault | MIdTermExamPart1.py:54-63 | a read fault before the peer closes discards the bytes read and reports the fault |
| Echo.ReceiveAll | MIdTermExamPart1.py:53-58 | the accumulation loop ends as the read-loop specification says: the concatenated response, the fault, or the bytes read so far when the trace ends |
| Echo.ConnectToServer | MIdTermExamPart1.py:39-63 | a connect fault is reported alone; otherwise it prints "connected", sends the request, and then reports the send fault or the read loop's outcome |
| Compliance.IsWindows | FinalProject.py:19-21 | `os.name == 'nt'`; the contract adds only that such a name is not `posix` |
| Compliance.IsLinux | FinalProject.py:22-24 | `os.name == 'posix'`; the contract adds only that such a name is not `nt` |
| Compliance.Decide | FinalProject.py:30-32 | Compliant when the condition holds and Non-Compliant otherwise (both directions) |
| Compliance.AnyLineContains | FinalProject.py:55 | `any(token in line for line in lines)` holds exactly when some line contains the token |
| Compliance.CheckTlsVersion | FinalProject.py:26-40 | Windows: compliant iff the cipher-suite listing contains "1.2". Linux: the same on the `openssl` output. Otherwise unsupported. Never raises; keyed by its own label |
| Compliance.CheckPasswordPolicy | FinalProject.py:43-59 | Windows: compliant iff `net accounts` says "Minimum password length is 12". Linux: iff some PAM line contains "minlen=12". Otherwise unsupported. Never raises; keyed by its own label |
| Compliance.CheckFileIntegrity | FinalProject.py:61-74 | Windows: not applicable. Linux: raises the bool-in-str `TypeError`, and only there. Otherwise unsupported |
| Compliance.CheckMfa | FinalProject.py:76-89 | Windows: not applicable. Linux: compliant iff some PAM auth line names `pam_google_authenticator.so`. Otherwise unsupported. Never raises |
| Compliance.CheckFirewall | FinalProject.py:91-106 | compliant iff the `netsh` output (Windows) or `iptables` output (Linux) contains "DROP". Otherwise unsupported. Never raises |
| Compliance.CheckSshSecurity | FinalProject.py:108-121 | Windows: not applicable. Linux: compliant iff some `sshd_config` line contains "PermitRootLogin no". Otherwise unsupported. Never raises |
| Compliance.CheckDiskEncryption | FinalProject.py:123-135 | Windows: not applicable. Linux: compliant iff the `lsblk` output contains "crypt". Otherwise unsupported. Never raises |
| Compliance.CheckLogging | FinalProject.py:137-149 | Windows: not applicable. Linux: raises the bool-in-str `TypeError`, and only there. Otherwise unsupported |
| Compliance.CommentedSshLineCounts | FinalProject.py:117 | a commented-out `#PermitRootLogin no` still makes the SSH check compliant (substring test) |
| Compliance.NonCompliantItems | FinalProject.py:154 | keeps exactly the entries whose verdict map has Non-Compliant among its values, unchanged |
| Compliance.CreateTicket | FinalProject.py:151-171 | a ticket is created exactly when some entry is non-compliant, with the fixed title, priority and status, listing exactly the non-compliant entries |
| Compliance.Checks | FinalProject.py:175-184 | eight checks; each that returns keys its verdict map by the label the report files it under; only the file-integrity and logging checks raise, exactly on Linux, with the bool-in-str `TypeError` |
| Compliance.Collect | FinalProject.py:175-184 | building the report aborts exactly when some check raises; a completed report has exactly the given keys |
| Compliance.CollectFirstRaise | FinalProject.py:175-184 | an aborted report carries the error of the first check that raised, and every check before it returned |
| Compliance.CollectLastWins | FinalProject.py:175-184 | as in a dict display, each key of a completed report maps to the verdict of the last check given under it |
| Compliance.CollectReport | FinalProject.py:175-184 | with distinct keys, each key of a completed report maps to its own check's verdict map |
| Compliance.RunAudit | FinalProject.py:173-184 | the audit aborts exactly on Linux, with the bool-in-str `TypeError`; otherwise each label maps to its own check's verdict map |
| Compliance.ReportNonCompliantIff | FinalProject.py:154-156 | a completed report has a non-compliant entry exactly when some check returned Non-Compliant |
| Compliance.ReportedValues | FinalProject.py:31-32 | a one-entry verdict map's values are exactly its verdict |
| Compliance.LabelsDistinct | FinalProject.py:175-184 | the eight keys are different, so no entry overwrites another |
| Compliance.DecidedFlags | FinalProject.py:30-32 | a check deciding on a condition flags non-compliance exactly when the condition fails |
| Compliance.QuietVerdict | FinalProject.py:63-65 | a check reporting Not Applicable or Unsupported never flags non-compliance |
| Compliance.TicketIffSomeCheckFails | FinalProject.py:173-194 | when no check raises, a ticket is created exactly when some check is non-compliant |
| Compliance.SomeOfEightFlags | FinalProject.py:175-184 | some of the eight checks is non-compliant exactly when one of them, named by position, is |
| Compliance.WindowsFailingChecks | FinalProject.py:26-149 | on Windows no check raises, and some check is non-compliant exactly when the TLS, password or firewall output lacks its token |
| Compliance.WindowsTicketIff | FinalProject.py:173-194 | on Windows the audit completes, and a ticket is created exactly when the TLS, password or firewall output lacks its token |
| Compliance.UnsupportedOsCreatesNoTicket | FinalProject.py:173-194 | on an unsupported OS the audit completes and no ticket is created |

## Left out

- Real sockets, name resolution and the one-second connect timeout are not modelled.
  - The scanner's probe is the `connect` oracle. At a port above 65535 its answer stands for the host lookup: a socket error is the lookup's `gaierror`, a status means the host resolved and the port overflows. Its `OverflowError` is modelled by the scan's `PortOverflow` end.
  - The listener's accept results are a trace: a timeout is an `AcceptTimeout` event.
  - The client's reads are a trace.
- `with` blocks and socket closing are not modelled. Closing has no effect on what is printed or sent.
- Interactive prompting (`input()`) and the `strip().lower()` mode dispatch of the `__main__` blocks are not modelled; the modelled functions take the answers as parameters.
- The default arguments of `start_server` (`localhost`, 65432) and `connect_to_server` (`scanme.org`, 80) are not constants of the model: host and port are parameters of `Echo.StartServer` and `Echo.ConnectToServer`. The default timeout of 15 seconds is `Echo.ServerTimeout`.
- Printed text is modelled as exact strings only for the scanner. The listener and the client log structured entries. The decoded text of a chunk and the response's `decode('utf-8', errors='replace')` are not rendered.
- Echo.StartServer: when the trace ends while the loop is still accepting, the run stops with `TraceEnded`. The script would block in `accept` instead.
- Echo.ReceiveAll: when the trace ends before an empty read, the result is `StillOpen` with the bytes read so far. The script would block in `recv` instead.
- `sendall` is modelled as sending the whole chunk or raising. Partial sends before a fault are not modelled.
- The accepted connection's own timeout behaviour is not modelled. The listener's one `recv` either returns a chunk or raises.
- Compliance: running the commands is not modelled. The `aide` and `logrotate` runs that precede the raising membership tests are not modelled either. Their output is discarded by the raise.
- Compliance: a missing command or configuration file (which would raise `FileNotFoundError`) is not modelled. Each check receives the command output or file lines as a parameter.
- Compliance: writing the JSON report and `ats_ticket.json` is not modelled. The ticket's description text, a JSON dump of the entries, is represented by the entries themselves.
- Compliance: the unused requirement values `True` for MFA and disk encryption are not modelled. Those checks use their own literal tokens.
- PortScanner.Run: `isdigit` is modelled for ASCII digits only, and every other character counts as a non-digit. Python's `isdigit` also accepts other characters. For Unicode decimal digits such as `٣`, `int` parses the token and the port is kept. For characters such as `²`, `int` raises `ValueError`, which ends the scanner before the summary line is printed. The model drops both kinds of token. A token of ASCII digits longer than 4300 characters also makes `int` raise `ValueError` at line 16, or at lines 18-19 for a start or end bound, before the summary line is printed: that is Python's default limit on integer string conversion (`sys.int_info.default_max_str_digits`, in CPython 3.11 and later and in the 3.7 to 3.10 security releases since September 2022). The model has no such limit and parses the token, so for it `Run` prints the summary and goes on to probe or overflow.
- PortScanner.Scan: a host that contains a NUL character, or a non-ASCII host that the IDNA codec rejects, makes `connect_ex` raise `TypeError` or `UnicodeError` at the first probe. Neither is a `socket.error`, so the script ends there; the model has no such host and treats every host as a text the oracle answers for.
- PortScanner.ParseSpecific: a digit token longer than 4300 characters is parsed to its value; Python's `int` raises `ValueError` for it instead (see the `PortScanner.Run` line above).
- PortScanner.ResolveBound: a digit bound longer than 4300 characters is parsed to its value; Python's `int` raises `ValueError` for it instead (see the `PortScanner.Run` line above).
