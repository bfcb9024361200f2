/**
 * The PCI-DSS configuration audit: eight checks, each a decision over the
 * operating-system kind and the text it inspects (command output or
 * configuration-file lines, passed in), and the ticket filter that keeps the
 * non-compliant entries.  Running the commands, reading the files and writing
 * the JSON report and ticket are not part of this model.
 */
module Compliance {
  import opened Text

  /** Python's `os.name` on Windows and on Linux. */
  const WindowsName := "nt"
  const LinuxName := "posix"

  /** The script runs on Windows; then it is not on Linux, so each check takes at most one branch. */
  predicate IsWindows(osName: string): (windows: bool)
    ensures windows ==> osName != LinuxName
  {
    assert WindowsName[0] != LinuxName[0];
    osName == WindowsName
  }

  /** The script runs on Linux (any POSIX system); then it is not on Windows. */
  predicate IsLinux(osName: string): (linux: bool)
    ensures linux ==> osName != WindowsName
  {
    assert WindowsName[0] != LinuxName[0];
    osName == LinuxName
  }

  const Compliant := "Compliant"
  const NonCompliant := "Non-Compliant"
  const NotApplicable := "Not Applicable"
  const Unsupported := "Unknown OS or Unsupported"

  const TlsLabel := "TLS Version"
  const PasswordLabel := "Password Policy"
  const FileIntegrityLabel := "File Integrity"
  const MfaLabel := "MFA"
  const FirewallLabel := "Firewall"
  const SshLabel := "SSH Security"
  const DiskLabel := "Disk Encryption"
  const LoggingLabel := "Logging"

  /** The tokens the checks look for, as the requirement table spells them. */
  const TlsToken := "1.2"
  const WindowsPasswordToken := "Minimum password length is 12"
  const LinuxPasswordToken := "minlen=12"
  const MfaToken := "pam_google_authenticator.so"
  const FirewallToken := "DROP"
  const SshToken := "PermitRootLogin no"
  const DiskToken := "crypt"

  /** Testing a `bool` for membership in a `str` raises this `TypeError`. */
  const BoolInStrError := "'in <string>' requires string as left operand, not bool"

  /** A check returns its one-entry verdict map, or raises. */
  datatype CheckResult = Verdict(entry: map<string, string>) | Raised(error: string)

  /** The check returned exactly one entry, under `key`, with value `v`. */
  predicate Reports(r: CheckResult, key: string, v: string) {
    r == Verdict(map[key := v])
  }

  /** Compliant when the condition holds, Non-Compliant otherwise. */
  function Decide(key: string, ok: bool): (r: CheckResult)
    ensures Reports(r, key, Compliant) <==> ok
    ensures Reports(r, key, NonCompliant) <==> !ok
  {
    var r := Verdict(map[key := if ok then Compliant else NonCompliant]);
    assert Compliant[0] != NonCompliant[0];
    assert Reports(r, key, Compliant) ==> r.entry[key] == Compliant;
    assert Reports(r, key, NonCompliant) ==> r.entry[key] == NonCompliant;
    r
  }

  /** Some line contains `token` (Python's `any(token in line for line in lines)`). */
  function AnyLineContains(lines: seq<string>, token: string): (found: bool)
    ensures found <==> exists i :: 0 <= i < |lines| && Contains(lines[i], token)
  {
    if lines == [] then false
    else
      assert forall i :: 1 <= i < |lines| ==> lines[i] == lines[1..][i - 1];
      Contains(lines[0], token) || AnyLineContains(lines[1..], token)
  }

  function CheckTlsVersion(osName: string, cipherSuites: string, opensslOutput: string): (r: CheckResult)
    ensures IsWindows(osName) ==>
      (Reports(r, TlsLabel, Compliant) <==> Contains(cipherSuites, TlsToken)) &&
      (Reports(r, TlsLabel, NonCompliant) <==> !Contains(cipherSuites, TlsToken))
    ensures IsLinux(osName) ==>
      (Reports(r, TlsLabel, Compliant) <==> Contains(opensslOutput, TlsToken)) &&
      (Reports(r, TlsLabel, NonCompliant) <==> !Contains(opensslOutput, TlsToken))
    ensures !IsWindows(osName) && !IsLinux(osName) ==> Reports(r, TlsLabel, Unsupported)
    ensures r.Verdict? && r.entry.Keys == {TlsLabel}
  {
    if IsWindows(osName) then Decide(TlsLabel, Contains(cipherSuites, TlsToken))
    else if IsLinux(osName) then Decide(TlsLabel, Contains(opensslOutput, TlsToken))
    else Verdict(map[TlsLabel := Unsupported])
  }

  function CheckPasswordPolicy(osName: string, netAccounts: string, commonPassword: seq<string>): (r: CheckResult)
    ensures IsWindows(osName) ==>
      (Reports(r, PasswordLabel, Compliant) <==> Contains(netAccounts, WindowsPasswordToken)) &&
      (Reports(r, PasswordLabel, NonCompliant) <==> !Contains(netAccounts, WindowsPasswordToken))
    ensures IsLinux(osName) ==>
      (Reports(r, PasswordLabel, Compliant) <==> AnyLineContains(commonPassword, LinuxPasswordToken)) &&
      (Reports(r, PasswordLabel, NonCompliant) <==> !AnyLineContains(commonPassword, LinuxPasswordToken))
    ensures !IsWindows(osName) && !IsLinux(osName) ==> Reports(r, PasswordLabel, Unsupported)
    ensures r.Verdict? && r.entry.Keys == {PasswordLabel}
  {
    if IsWindows(osName) then Decide(PasswordLabel, Contains(netAccounts, WindowsPasswordToken))
    else if IsLinux(osName) then Decide(PasswordLabel, AnyLineContains(commonPassword, LinuxPasswordToken))
    else Verdict(map[PasswordLabel := Unsupported])
  }

  /** On Linux the check tests a `bool` for membership in the AIDE output, which raises. */
  function CheckFileIntegrity(osName: string): (r: CheckResult)
    ensures IsWindows(osName) ==> Reports(r, FileIntegrityLabel, NotApplicable)
    ensures IsLinux(osName) ==> r == Raised(BoolInStrError)
    ensures !IsWindows(osName) && !IsLinux(osName) ==> Reports(r, FileIntegrityLabel, Unsupported)
    ensures r.Verdict? ==> r.entry.Keys == {FileIntegrityLabel}
    ensures r.Raised? <==> IsLinux(osName)
  {
    if IsWindows(osName) then Verdict(map[FileIntegrityLabel := NotApplicable])
    else if IsLinux(osName) then Raised(BoolInStrError)
    else Verdict(map[FileIntegrityLabel := Unsupported])
  }

  function CheckMfa(osName: string, commonAuth: seq<string>): (r: CheckResult)
    ensures IsWindows(osName) ==> Reports(r, MfaLabel, NotApplicable)
    ensures IsLinux(osName) ==>
      (Reports(r, MfaLabel, Compliant) <==> AnyLineContains(commonAuth, MfaToken)) &&
      (Reports(r, MfaLabel, NonCompliant) <==> !AnyLineContains(commonAuth, MfaToken))
    ensures !IsWindows(osName) && !IsLinux(osName) ==> Reports(r, MfaLabel, Unsupported)
    ensures r.Verdict? && r.entry.Keys == {MfaLabel}
  {
    if IsWindows(osName) then Verdict(map[MfaLabel := NotApplicable])
    else if IsLinux(osName) then Decide(MfaLabel, AnyLineContains(commonAuth, MfaToken))
    else Verdict(map[MfaLabel := Unsupported])
  }

  function CheckFirewall(osName: string, netshOutput: string, iptablesOutput: string): (r: CheckResult)
    ensures IsWindows(osName) ==>
      (Reports(r, FirewallLabel, Compliant) <==> Contains(netshOutput, FirewallToken)) &&
      (Reports(r, FirewallLabel, NonCompliant) <==> !Contains(netshOutput, FirewallToken))
    ensures IsLinux(osName) ==>
      (Reports(r, FirewallLabel, Compliant) <==> Contains(iptablesOutput, FirewallToken)) &&
      (Reports(r, FirewallLabel, NonCompliant) <==> !Contains(iptablesOutput, FirewallToken))
    ensures !IsWindows(osName) && !IsLinux(osName) ==> Reports(r, FirewallLabel, Unsupported)
    ensures r.Verdict? && r.entry.Keys == {FirewallLabel}
  {
    if IsWindows(osName) then Decide(FirewallLabel, Contains(netshOutput, FirewallToken))
    else if IsLinux(osName) then Decide(FirewallLabel, Contains(iptablesOutput, FirewallToken))
    else Verdict(map[FirewallLabel := Unsupported])
  }

  function CheckSshSecurity(osName: string, sshdConfig: seq<string>): (r: CheckResult)
    ensures IsWindows(osName) ==> Reports(r, SshLabel, NotApplicable)
    ensures IsLinux(osName) ==>
      (Reports(r, SshLabel, Compliant) <==> AnyLineContains(sshdConfig, SshToken)) &&
      (Reports(r, SshLabel, NonCompliant) <==> !AnyLineContains(sshdConfig, SshToken))
    ensures !IsWindows(osName) && !IsLinux(osName) ==> Reports(r, SshLabel, Unsupported)
    ensures r.Verdict? && r.entry.Keys == {SshLabel}
  {
    if IsWindows(osName) then Verdict(map[SshLabel := NotApplicable])
    else if IsLinux(osName) then Decide(SshLabel, AnyLineContains(sshdConfig, SshToken))
    else Verdict(map[SshLabel := Unsupported])
  }

  function CheckDiskEncryption(osName: string, lsblkOutput: string): (r: CheckResult)
    ensures IsWindows(osName) ==> Reports(r, DiskLabel, NotApplicable)
    ensures IsLinux(osName) ==>
      (Reports(r, DiskLabel, Compliant) <==> Contains(lsblkOutput, DiskToken)) &&
      (Reports(r, DiskLabel, NonCompliant) <==> !Contains(lsblkOutput, DiskToken))
    ensures !IsWindows(osName) && !IsLinux(osName) ==> Reports(r, DiskLabel, Unsupported)
    ensures r.Verdict? && r.entry.Keys == {DiskLabel}
  {
    if IsWindows(osName) then Verdict(map[DiskLabel := NotApplicable])
    else if IsLinux(osName) then Decide(DiskLabel, Contains(lsblkOutput, DiskToken))
    else Verdict(map[DiskLabel := Unsupported])
  }

  /** On Linux the check tests a `bool` for membership in the logrotate output, which raises. */
  function CheckLogging(osName: string): (r: CheckResult)
    ensures IsWindows(osName) ==> Reports(r, LoggingLabel, NotApplicable)
    ensures IsLinux(osName) ==> r == Raised(BoolInStrError)
    ensures !IsWindows(osName) && !IsLinux(osName) ==> Reports(r, LoggingLabel, Unsupported)
    ensures r.Verdict? ==> r.entry.Keys == {LoggingLabel}
    ensures r.Raised? <==> IsLinux(osName)
  {
    if IsWindows(osName) then Verdict(map[LoggingLabel := NotApplicable])
    else if IsLinux(osName) then Raised(BoolInStrError)
    else Verdict(map[LoggingLabel := Unsupported])
  }

  /** A commented-out `PermitRootLogin no` still satisfies the SSH check. */
  lemma CommentedSshLineCounts()
    ensures Reports(CheckSshSecurity(LinuxName, ["#PermitRootLogin no"]), SshLabel, Compliant)
  {
    var line := "#PermitRootLogin no";
    assert line[1..1 + |SshToken|] == SshToken;
    assert OccursAt(line, SshToken, 1);
    ContainsIff(line, SshToken);
    assert [line][0] == line;
  }

  /** The report: check key to the check's verdict map. */
  type Results = map<string, map<string, string>>

  /**
   * The entries whose verdict map has `Non-Compliant` among its values,
   * unchanged; every other entry is dropped.
   */
  function NonCompliantItems(results: Results): (items: Results)
    ensures forall k :: k in items <==> k in results && NonCompliant in results[k].Values
    ensures forall k :: k in items ==> items[k] == results[k]
  {
    map k | k in results && NonCompliant in results[k].Values :: results[k]
  }

  const TicketTitle := "PCI-DSS Non-Compliance Detected"
  const TicketPriority := "High"
  const TicketStatus := "Open"

  /** The ticket's fields; the JSON rendering of `items` in its description is not modelled. */
  datatype Ticket = Ticket(title: string, items: Results, priority: string, status: string)

  datatype TicketDecision = TicketCreated(ticket: Ticket) | AllCompliant

  /** A ticket is raised exactly when some entry is non-compliant, and it lists exactly those entries. */
  function CreateTicket(results: Results): (d: TicketDecision)
    ensures d.TicketCreated? <==> exists k :: k in results && NonCompliant in results[k].Values
    ensures d.TicketCreated? ==>
      d.ticket == Ticket(TicketTitle, NonCompliantItems(results), TicketPriority, TicketStatus)
  {
    var items := NonCompliantItems(results);
    if items != map[] then TicketCreated(Ticket(TicketTitle, items, TicketPriority, TicketStatus))
    else
      assert forall k :: k !in items;
      AllCompliant
  }

  /** What the inspected commands print and the inspected files hold. */
  datatype Host = Host(
    osName: string,
    tlsCipherSuites: string,
    opensslOutput: string,
    netAccounts: string,
    commonPassword: seq<string>,
    commonAuth: seq<string>,
    netshFirewall: string,
    iptables: string,
    sshdConfig: seq<string>,
    lsblk: string)

  const Labels := [TlsLabel, PasswordLabel, FileIntegrityLabel, MfaLabel, FirewallLabel, SshLabel, DiskLabel, LoggingLabel]

  /**
   * The eight checks, in the order the report is built.  Each check that
   * returns keys its verdict map by its own label, the key the report files
   * it under; only the file-integrity and logging checks raise, and only on
   * Linux.
   */
  function Checks(h: Host): (checks: seq<CheckResult>)
    ensures |checks| == |Labels|
    ensures forall i :: 0 <= i < |checks| && checks[i].Verdict? ==> checks[i].entry.Keys == {Labels[i]}
    ensures forall i :: 0 <= i < |checks| ==> (checks[i].Raised? <==> IsLinux(h.osName) && (i == 2 || i == 7))
    ensures forall i :: 0 <= i < |checks| && checks[i].Raised? ==> checks[i].error == BoolInStrError
  {
    [ CheckTlsVersion(h.osName, h.tlsCipherSuites, h.opensslOutput),
      CheckPasswordPolicy(h.osName, h.netAccounts, h.commonPassword),
      CheckFileIntegrity(h.osName),
      CheckMfa(h.osName, h.commonAuth),
      CheckFirewall(h.osName, h.netshFirewall, h.iptables),
      CheckSshSecurity(h.osName, h.sshdConfig),
      CheckDiskEncryption(h.osName, h.lsblk),
      CheckLogging(h.osName) ]
  }

  /** The audit either completes with a report or is ended by the first check that raises. */
  datatype Audit = Report(results: Results) | Aborted(error: string)

  /**
   * Builds the report as a dict display evaluates: in order, the first
   * raising check aborts the whole audit, and a key given twice keeps the
   * later value.
   */
  function Collect(keys: seq<string>, checks: seq<CheckResult>): (a: Audit)
    requires |keys| == |checks|
    ensures a.Aborted? <==> exists i :: 0 <= i < |checks| && checks[i].Raised?
    ensures a.Report? ==> a.results.Keys == set k | k in keys
  {
    if checks == [] then Report(map[])
    else if checks[0].Raised? then Aborted(checks[0].error)
    else match Collect(keys[1..], checks[1..])
      case Aborted(e) => Aborted(e)
      case Report(m) =>
        assert forall i :: 1 <= i < |checks| ==> checks[i] == checks[1..][i - 1];
        assert keys == [keys[0]] + keys[1..];
        if keys[0] in m then Report(m) else Report(m[keys[0] := checks[0].entry])
  }

  /** An aborted audit reports the error of the first check that raised; every check before it returned. */
  lemma {:induction false} CollectFirstRaise(keys: seq<string>, checks: seq<CheckResult>)
    requires |keys| == |checks|
    ensures Collect(keys, checks).Aborted? ==>
      exists i :: 0 <= i < |checks| && checks[i] == Raised(Collect(keys, checks).error)
        && forall j :: 0 <= j < i ==> checks[j].Verdict?
  {
    if checks != [] && checks[0].Verdict? {
      CollectFirstRaise(keys[1..], checks[1..]);
      var a := Collect(keys, checks);
      if a.Aborted? {
        var i :| 0 <= i < |checks[1..]| && checks[1..][i] == Raised(a.error)
          && forall j :: 0 <= j < i ==> checks[1..][j].Verdict?;
        assert checks[i + 1] == Raised(a.error);
        assert forall j :: 0 <= j < i + 1 ==> checks[j].Verdict? by {
          forall j | 0 <= j < i + 1 ensures checks[j].Verdict? {
            if j > 0 {
              assert checks[1..][j - 1] == checks[j];
            }
          }
        }
      }
    }
  }

  /**
   * The audit's report, as the script builds it before deciding on a ticket:
   * on Linux the file-integrity check raises its `TypeError` and ends the
   * script; elsewhere each label maps to its check's verdict map.
   */
  function RunAudit(h: Host): (a: Audit)
    ensures a.Aborted? <==> IsLinux(h.osName)
    ensures a.Aborted? ==> a.error == BoolInStrError
    ensures a.Report? ==> forall i :: 0 <= i < |Labels| ==> Labels[i] in a.results && a.results[Labels[i]] == Checks(h)[i].entry
  {
    var checks := Checks(h);
    assert IsLinux(h.osName) ==> checks[2].Raised?;
    LabelsDistinct();
    CollectFirstRaise(Labels, checks);
    CollectReport(Labels, checks);
    Collect(Labels, checks)
  }

  predicate DistinctKeys(keys: seq<string>) {
    forall i, j :: 0 <= i < j < |keys| ==> keys[i] != keys[j]
  }

  /** Position `i` holds the last occurrence of its key. */
  predicate LastOccurrence(keys: seq<string>, i: nat)
    requires i < |keys|
  {
    forall j :: i < j < |keys| ==> keys[j] != keys[i]
  }

  /** In a completed report, each key maps to the verdict of the last check given under it. */
  lemma {:induction false} CollectLastWins(keys: seq<string>, checks: seq<CheckResult>)
    requires |keys| == |checks|
    ensures Collect(keys, checks).Report? ==>
      forall i :: 0 <= i < |keys| && LastOccurrence(keys, i) ==> Collect(keys, checks).results[keys[i]] == checks[i].entry
  {
    if checks != [] && checks[0].Verdict? {
      CollectLastWins(keys[1..], checks[1..]);
      var a := Collect(keys, checks);
      if a.Report? {
        var m := Collect(keys[1..], checks[1..]).results;
        forall i | 0 <= i < |keys| && LastOccurrence(keys, i)
          ensures a.results[keys[i]] == checks[i].entry
        {
          if i > 0 {
            assert keys[1..][i - 1] == keys[i] && checks[1..][i - 1] == checks[i];
            assert LastOccurrence(keys[1..], i - 1);
          }
        }
      }
    }
  }

  /** When no check raises and the keys are distinct, the report maps each check's key to that check's verdict map. */
  lemma CollectReport(keys: seq<string>, checks: seq<CheckResult>)
    requires |keys| == |checks| && DistinctKeys(keys)
    ensures Collect(keys, checks).Report? ==>
      forall i :: 0 <= i < |keys| ==> keys[i] in Collect(keys, checks).results && Collect(keys, checks).results[keys[i]] == checks[i].entry
  {
    CollectLastWins(keys, checks);
    if Collect(keys, checks).Report? {
      forall i | 0 <= i < |keys|
        ensures keys[i] in Collect(keys, checks).results
      {
        assert keys[i] in set k | k in keys;
      }
    }
  }

  /** Some check of the completed report is non-compliant. */
  lemma ReportNonCompliantIff(keys: seq<string>, checks: seq<CheckResult>)
    requires |keys| == |checks| && DistinctKeys(keys)
    requires forall i :: 0 <= i < |checks| ==> checks[i].Verdict?
    ensures Collect(keys, checks).Report?
    ensures var results := Collect(keys, checks).results;
      (exists k :: k in results && NonCompliant in results[k].Values) <==>
      (exists i :: 0 <= i < |checks| && NonCompliant in checks[i].entry.Values)
  {
    CollectReport(keys, checks);
    var results := Collect(keys, checks).results;
    if exists k :: k in results && NonCompliant in results[k].Values {
      var k :| k in results && NonCompliant in results[k].Values;
      assert k in set k | k in keys;
      var i :| 0 <= i < |keys| && keys[i] == k;
      assert NonCompliant in checks[i].entry.Values;
    }
    if exists i :: 0 <= i < |checks| && NonCompliant in checks[i].entry.Values {
      var i :| 0 <= i < |checks| && NonCompliant in checks[i].entry.Values;
      assert keys[i] in results;
    }
  }

  /** The value a one-entry verdict map holds. */
  lemma ReportedValues(r: CheckResult, key: string, v: string)
    requires Reports(r, key, v)
    ensures r.entry.Values == {v}
  {
    assert r.entry[key] == v;
  }

  /** The eight keys are different, so no entry of the report overwrites another. */
  lemma LabelsDistinct()
    ensures DistinctKeys(Labels)
  {
    assert FileIntegrityLabel[2] != FirewallLabel[2];
    assert PasswordLabel[0] != DiskLabel[0];
  }

  /** A check whose verdict map holds Non-Compliant. */
  predicate FlagsNonCompliance(r: CheckResult) {
    r.Verdict? && NonCompliant in r.entry.Values
  }

  /** When no check raises, a ticket is created exactly when some check is non-compliant. */
  lemma TicketIffSomeCheckFails(h: Host)
    requires forall i :: 0 <= i < |Checks(h)| ==> Checks(h)[i].Verdict?
    ensures RunAudit(h).Report?
    ensures CreateTicket(RunAudit(h).results).TicketCreated? <==>
      exists i :: 0 <= i < |Checks(h)| && FlagsNonCompliance(Checks(h)[i])
  {
    LabelsDistinct();
    ReportNonCompliantIff(Labels, Checks(h));
  }

  /** A check deciding on `ok` flags non-compliance exactly when `ok` fails. */
  lemma DecidedFlags(r: CheckResult, key: string, ok: bool)
    requires Reports(r, key, Compliant) <==> ok
    requires Reports(r, key, NonCompliant) <==> !ok
    ensures r.Verdict? && (FlagsNonCompliance(r) <==> !ok)
  {
    if ok {
      ReportedValues(r, key, Compliant);
      assert NonCompliant[0] != Compliant[0];
    } else {
      ReportedValues(r, key, NonCompliant);
    }
  }

  /** A check reporting any other value never flags non-compliance. */
  lemma QuietVerdict(r: CheckResult, key: string, v: string)
    requires Reports(r, key, v) && v != NonCompliant
    ensures r.Verdict? && !FlagsNonCompliance(r)
  {
    ReportedValues(r, key, v);
  }

  /** Eight checks none of which raises or flags non-compliance. */
  lemma NoneOfEightFlags(checks: seq<CheckResult>)
    requires |checks| == 8
    requires checks[0].Verdict? && !FlagsNonCompliance(checks[0])
    requires checks[1].Verdict? && !FlagsNonCompliance(checks[1])
    requires checks[2].Verdict? && !FlagsNonCompliance(checks[2])
    requires checks[3].Verdict? && !FlagsNonCompliance(checks[3])
    requires checks[4].Verdict? && !FlagsNonCompliance(checks[4])
    requires checks[5].Verdict? && !FlagsNonCompliance(checks[5])
    requires checks[6].Verdict? && !FlagsNonCompliance(checks[6])
    requires checks[7].Verdict? && !FlagsNonCompliance(checks[7])
    ensures forall i :: 0 <= i < |checks| ==> checks[i].Verdict? && !FlagsNonCompliance(checks[i])
  {
  }

  /** Some of eight checks flags non-compliance exactly when one of them, named by position, does. */
  lemma SomeOfEightFlags(checks: seq<CheckResult>)
    requires |checks| == 8
    ensures (exists i :: 0 <= i < |checks| && FlagsNonCompliance(checks[i])) <==>
      FlagsNonCompliance(checks[0]) || FlagsNonCompliance(checks[1]) ||
      FlagsNonCompliance(checks[2]) || FlagsNonCompliance(checks[3]) ||
      FlagsNonCompliance(checks[4]) || FlagsNonCompliance(checks[5]) ||
      FlagsNonCompliance(checks[6]) || FlagsNonCompliance(checks[7])
  {
    if exists i :: 0 <= i < |checks| && FlagsNonCompliance(checks[i]) {
      var i :| 0 <= i < |checks| && FlagsNonCompliance(checks[i]);
      assert i in {0, 1, 2, 3, 4, 5, 6, 7};
    }
  }

  /** On Windows only the TLS, password and firewall checks can be non-compliant. */
  lemma WindowsFailingChecks(h: Host)
    requires IsWindows(h.osName)
    ensures forall i :: 0 <= i < |Checks(h)| ==> Checks(h)[i].Verdict?
    ensures (exists i :: 0 <= i < |Checks(h)| && FlagsNonCompliance(Checks(h)[i])) <==>
      !Contains(h.tlsCipherSuites, TlsToken) || !Contains(h.netAccounts, WindowsPasswordToken) ||
      !Contains(h.netshFirewall, FirewallToken)
  {
    var checks := Checks(h);
    var tls, password, firewall :=
      Contains(h.tlsCipherSuites, TlsToken), Contains(h.netAccounts, WindowsPasswordToken),
      Contains(h.netshFirewall, FirewallToken);
    assert NotApplicable != NonCompliant by {
      assert NonCompliant[2] != NotApplicable[2];
    }
    DecidedFlags(checks[0], TlsLabel, tls);
    DecidedFlags(checks[1], PasswordLabel, password);
    QuietVerdict(checks[2], FileIntegrityLabel, NotApplicable);
    QuietVerdict(checks[3], MfaLabel, NotApplicable);
    DecidedFlags(checks[4], FirewallLabel, firewall);
    QuietVerdict(checks[5], SshLabel, NotApplicable);
    QuietVerdict(checks[6], DiskLabel, NotApplicable);
    QuietVerdict(checks[7], LoggingLabel, NotApplicable);
    SomeOfEightFlags(checks);
  }

  /**
   * On Windows the audit completes, and a ticket is created exactly when the
   * TLS, password or firewall output lacks its token; the other five checks
   * are not applicable there.
   */
  lemma WindowsTicketIff(h: Host)
    requires IsWindows(h.osName)
    ensures RunAudit(h).Report?
    ensures CreateTicket(RunAudit(h).results).TicketCreated? <==>
      !Contains(h.tlsCipherSuites, TlsToken) || !Contains(h.netAccounts, WindowsPasswordToken) ||
      !Contains(h.netshFirewall, FirewallToken)
  {
    WindowsFailingChecks(h);
    TicketIffSomeCheckFails(h);
  }

  /** On an unsupported OS every entry is "Unknown OS or Unsupported", so no ticket is created. */
  lemma UnsupportedOsCreatesNoTicket(h: Host)
    requires !IsWindows(h.osName) && !IsLinux(h.osName)
    ensures RunAudit(h).Report?
    ensures CreateTicket(RunAudit(h).results) == AllCompliant
  {
    var checks := Checks(h);
    assert Unsupported != NonCompliant by {
      assert NonCompliant[0] != Unsupported[0];
    }
    QuietVerdict(checks[0], TlsLabel, Unsupported);
    QuietVerdict(checks[1], PasswordLabel, Unsupported);
    QuietVerdict(checks[2], FileIntegrityLabel, Unsupported);
    QuietVerdict(checks[3], MfaLabel, Unsupported);
    QuietVerdict(checks[4], FirewallLabel, Unsupported);
    QuietVerdict(checks[5], SshLabel, Unsupported);
    QuietVerdict(checks[6], DiskLabel, Unsupported);
    QuietVerdict(checks[7], LoggingLabel, Unsupported);
    NoneOfEightFlags(checks);
    TicketIffSomeCheckFails(h);
  }
}
