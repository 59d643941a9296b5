/**
 * The device poll of `MainWindow.detect_device`: the `ideviceinfo` output is read
 * as `key: value` lines into a map, `idevice_id -l` may override the
 * `UniqueDeviceID` entry, and every failure degrades to the empty map.
 * The two commands are not run here; their results are inputs.
 */
module DeviceInfo {

  import opened Wrappers
  import opened Text

  /** What `run_cmd` gave back: an exit code with standard output, or an exception. */
  datatype CmdResult = Exited(code: int, stdout: string) | Raised

  /** One `key: value` pair read from a line. */
  datatype Entry = Entry(key: string, value: string)

  /** The placeholder the GUI shows for an unknown value. */
  const Placeholder: string := "—"

  /** The key that `idevice_id -l` overrides. */
  const UdidKey: string := "UniqueDeviceID"

  /**
   * The entry a line contributes: none unless it contains `": "`; otherwise the
   * stripped text before the first `": "` and the stripped rest.
   */
  function ParseLine(line: string): (r: Option<Entry>)
    ensures r.None? <==> forall j :: !SepAt(line, j)
  {
    match FindSep(line)
    case None => None
    case Some(i) => Some(Entry(Strip(line[..i]), Strip(line[i + 2..])))
  }

  /** A line is split at the FIRST `": "` it contains, as `split(": ", 1)` does. */
  lemma ParseLineSplitsAtFirst(line: string, i: nat)
    requires SepAt(line, i) && forall j | 0 <= j < i :: !SepAt(line, j)
    ensures ParseLine(line) == Some(Entry(Strip(line[..i]), Strip(line[i + 2..])))
  {
  }

  /** Line `line` contributes an entry for key `k`. */
  predicate Contributes(line: string, k: string) {
    ParseLine(line).Some? && ParseLine(line).value.key == k
  }

  /** The map the loop over `lines` builds: each entry written in turn, later ones overwriting. */
  function ParsedInfo(lines: seq<string>): (info: map<string, string>)
    decreases |lines|
    ensures |info| <= |lines|
  {
    if lines == [] then map[]
    else
      var before := ParsedInfo(lines[..|lines| - 1]);
      match ParseLine(lines[|lines| - 1])
      case None => before
      case Some(e) => before[e.key := e.value]
  }

  /** Some line of `lines` contributes an entry for key `k`. */
  ghost predicate SomeLineContributes(lines: seq<string>, k: string) {
    exists i | 0 <= i < |lines| :: Contributes(lines[i], k)
  }

  lemma SomeLineSplit(lines: seq<string>, k: string)
    requires lines != []
    ensures SomeLineContributes(lines, k) <==>
      SomeLineContributes(lines[..|lines| - 1], k) || Contributes(lines[|lines| - 1], k)
  {
    var n := |lines| - 1;
    var init := lines[..n];
    if SomeLineContributes(init, k) {
      var i :| 0 <= i < |init| && Contributes(init[i], k);
      assert lines[i] == init[i];
    }
    if Contributes(lines[n], k) {
      assert 0 <= n < |lines|;
    }
    if SomeLineContributes(lines, k) && !Contributes(lines[n], k) {
      var i :| 0 <= i < |lines| && Contributes(lines[i], k);
      assert i != n;
      assert init[i] == lines[i];
    }
  }

  /** A key is in the parsed map exactly when some line contributes it. */
  lemma {:induction false} ParsedKeys(lines: seq<string>, k: string)
    ensures k in ParsedInfo(lines) <==> SomeLineContributes(lines, k)
  {
    if lines != [] {
      ParsedKeys(lines[..|lines| - 1], k);
      SomeLineSplit(lines, k);
    }
  }

  /**
   * A later duplicate key overwrites an earlier one: the value of `k` is the one
   * read from the LAST line that contributes `k`.
   */
  lemma {:induction false} ParsedLastWins(lines: seq<string>, i: nat, k: string)
    requires i < |lines| && Contributes(lines[i], k)
    requires forall j | i < j < |lines| :: !Contributes(lines[j], k)
    ensures k in ParsedInfo(lines)
    ensures ParsedInfo(lines)[k] == ParseLine(lines[i]).value.value
  {
    var init := lines[..|lines| - 1];
    if i < |lines| - 1 {
      forall j | i < j < |init| ensures !Contributes(init[j], k) {
        assert init[j] == lines[j];
      }
      assert init[i] == lines[i];
      ParsedLastWins(init, i, k);
    }
  }

  /** Parsing one more line applies that line's entry, if any, to the map so far. */
  lemma ParsedStep(lines: seq<string>, n: nat)
    requires n < |lines|
    ensures ParsedInfo(lines[..n + 1]) ==
      match ParseLine(lines[n])
      case None => ParsedInfo(lines[..n])
      case Some(e) => ParsedInfo(lines[..n])[e.key := e.value]
  {
    assert lines[..n + 1][..n] == lines[..n];
  }

  /** A line without `": "` never changes the map, wherever it stands. */
  lemma {:induction false} ParsedSkipsPlainLines(lines: seq<string>, plain: string)
    requires forall j :: !SepAt(plain, j)
    ensures ParsedInfo(lines + [plain]) == ParsedInfo(lines)
  {
    assert (lines + [plain])[..|lines|] == lines;
  }

  /**
   * The loop at the heart of `detect_device`: walk the lines of the `ideviceinfo`
   * output and write each `key: value` pair into `info`.
   */
  method ParseDeviceInfo(out: string) returns (info: map<string, string>)
    ensures info == ParsedInfo(SplitLines(out))
  {
    var lines := SplitLines(out);
    info := map[];
    var n := 0;
    while n < |lines|
      invariant 0 <= n <= |lines|
      invariant info == ParsedInfo(lines[..n])
    {
      var line := lines[n];
      var sep := FindSep(line);
      if sep.Some? {
        var k := Strip(line[..sep.value]);
        var v := Strip(line[sep.value + 2..]);
        info := info[k := v];
      }
      ParsedStep(lines, n);
      n := n + 1;
    }
    assert lines[..n] == lines;
  }

  /** The `UniqueDeviceID` value taken from `idevice_id -l`: its stripped output, or the placeholder. */
  function UdidFrom(out: string): (u: string)
    ensures u != []
    ensures Strip(out) != [] ==> u == Strip(out)
    ensures Strip(out) == [] ==> u == Placeholder
  {
    if Strip(out) == [] then Placeholder else Strip(out)
  }

  /**
   * The snapshot one poll publishes, given what the two commands return.
   * `idCmd` is consulted only when `ideviceinfo` exited with 0, as only then is
   * `idevice_id -l` run.
   */
  function PolledSnapshot(infoCmd: CmdResult, idCmd: CmdResult): (snapshot: map<string, string>)
    ensures snapshot != map[] ==> infoCmd.Exited? && infoCmd.code == 0 && idCmd.Exited?
    ensures infoCmd.Exited? && infoCmd.code == 0 && idCmd.Exited? && idCmd.code == 0 ==> UdidKey in snapshot
  {
    match infoCmd
    case Raised => map[]
    case Exited(code, out) =>
      if code != 0 then map[]
      else
        match idCmd
        case Raised => map[]
        case Exited(idCode, idOut) =>
          var info := ParsedInfo(SplitLines(out));
          if idCode == 0 then info[UdidKey := UdidFrom(idOut)] else info
  }

  /**
   * Every failure publishes exactly the empty map, never a partial one: `ideviceinfo`
   * raising or exiting non-zero, or `idevice_id` raising after the parse.
   */
  lemma PollFailureIsEmpty(infoCmd: CmdResult, idCmd: CmdResult)
    requires infoCmd.Raised? || infoCmd.code != 0 || idCmd.Raised?
    ensures PolledSnapshot(infoCmd, idCmd) == map[]
  {
  }

  /**
   * When both commands exit with 0, `UniqueDeviceID` is the stripped `idevice_id`
   * output (the placeholder when that is empty) and every other key is exactly
   * the parsed `ideviceinfo` output.
   */
  lemma PollWithUdid(out: string, idOut: string)
    ensures var snapshot := PolledSnapshot(Exited(0, out), Exited(0, idOut));
      && snapshot[UdidKey] == (if Strip(idOut) == [] then Placeholder else Strip(idOut))
      && snapshot.Keys == ParsedInfo(SplitLines(out)).Keys + {UdidKey}
      && forall k | k in snapshot && k != UdidKey :: snapshot[k] == ParsedInfo(SplitLines(out))[k]
  {
  }

  /** When `idevice_id` exits non-zero the parsed `ideviceinfo` map is published unchanged. */
  lemma PollWithoutUdid(out: string, idCode: int, idOut: string)
    requires idCode != 0
    ensures PolledSnapshot(Exited(0, out), Exited(idCode, idOut)) == ParsedInfo(SplitLines(out))
  {
  }
}
