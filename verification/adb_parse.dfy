/** The output parsers of `AdbManager`: the text printed by `adb devices`,
    `ls -la`, `find -printf` and `stat -c`, turned into records. Each parser
    takes the command's exit status and standard output; running the
    command is not modelled. Python's `int(...)` raising `ValueError` is an
    `Err`. */
module AdbParse {
  import opened Wrappers
  import opened Text
  import opened Records

  // ---------------------------------------------------------------- devices

  const DevicesHeader: string := "List of devices attached"

  /** A line `get_devices` keeps: not blank, and holding a tab followed by `device`. */
  predicate Online(line: string) {
    Strip(line) != "" && Contains(line, "\tdevice")
  }

  /** The serial of a line: the text before its first tab. */
  function Serial(line: string): string {
    Split(line, '\t')[0]
  }

  /** The serials of the kept lines, in order. */
  function Serials(lines: seq<string>): (serials: seq<string>)
    ensures |serials| <= |lines|
    ensures forall i :: 0 <= i < |serials| ==> '\t' !in serials[i]
    decreases |lines|
  {
    if |lines| == 0 then []
    else (if Online(lines[0]) then [Serial(lines[0])] else []) + Serials(lines[1..])
  }

  /** `get_devices`: a non-zero exit status raises; otherwise the first line
      of the stripped output (the header) is dropped and the serials of the
      kept lines are returned in order, each free of tabs. */
  function ParseDevices(rc: int, stdout: string, stderr: string): (r: Result<seq<string>>)
    ensures r.Err? <==> rc != 0
    ensures r.Ok? ==> |r.value| < |Split(Strip(stdout), '\n')|
    ensures r.Ok? ==> forall i :: 0 <= i < |r.value| ==> '\t' !in r.value[i]
  {
    if rc != 0 then Err("adb devices failed: " + stderr)
    else Ok(Serials(Split(Strip(stdout), '\n')[1..]))
  }

  /** The line `adb devices` prints for an attached, authorised device. */
  function DeviceLine(serial: string): string {
    serial + "\tdevice"
  }

  function DeviceLines(serials: seq<string>): (lines: seq<string>)
    ensures |lines| == |serials|
    ensures forall i :: 0 <= i < |serials| ==> lines[i] == DeviceLine(serials[i])
  {
    if |serials| == 0 then [] else [DeviceLine(serials[0])] + DeviceLines(serials[1..])
  }

  /** What `adb devices` prints for the given serials. */
  function DevicesOutput(serials: seq<string>): string {
    Join([DevicesHeader] + DeviceLines(serials), '\n') + "\n\n"
  }

  /** Parsing what `adb devices` prints gives every serial back, in order,
      whatever characters other than tab and newline it holds. */
  lemma DevicesRoundTrip(serials: seq<string>, stderr: string)
    requires forall i :: 0 <= i < |serials| ==> '\t' !in serials[i] && '\n' !in serials[i]
    ensures ParseDevices(0, DevicesOutput(serials), stderr) == Ok(serials)
  {
    var lines := DeviceLines(serials);
    var all := [DevicesHeader] + lines;
    assert !IsSpace(all[|all| - 1][|all[|all| - 1]| - 1]);
    assert '\n' !in DevicesHeader;
    SplitStrippedLines(all, "\n\n");
    assert all[1..] == lines;
    SerialsOfLines(serials);
  }

  lemma {:induction false} SerialsOfLines(serials: seq<string>)
    requires forall i :: 0 <= i < |serials| ==> '\t' !in serials[i]
    ensures Serials(DeviceLines(serials)) == serials
    decreases |serials|
  {
    if |serials| > 0 {
      var lines := DeviceLines(serials);
      DeviceLineKept(serials[0]);
      assert lines[1..] == DeviceLines(serials[1..]);
      SerialsOfLines(serials[1..]);
    }
  }

  /** A device line is kept, and its serial is the one printed. */
  lemma DeviceLineKept(s: string)
    requires '\t' !in s
    ensures Online(DeviceLine(s)) && Serial(DeviceLine(s)) == s
  {
    var line := DeviceLine(s);
    ContainsSuffix(s, "\tdevice");
    StripEmpty(line);
    assert !IsSpace(line[|line| - 1]);
    assert line == s + ['\t'] + "device";
    SplitHead(s, '\t', "device");
  }

  /** A line of `adb devices`: a serial and the device's state, `device`
      for an attached, authorised device and `offline`, `unauthorized`,
      `no permissions`, `recovery` and so on otherwise. */
  datatype Attached = Attached(serial: string, state: string)

  /** A line `adb devices` can print: neither column holds a tab or a
      newline, and the state is non-empty with no surrounding whitespace. */
  predicate PrintableAttached(a: Attached) {
    && '\t' !in a.serial && '\n' !in a.serial && '\t' !in a.state && '\n' !in a.state
    && |a.state| > 0 && IsStripped(a.state)
  }

  function AttachedLine(a: Attached): string {
    a.serial + "\t" + a.state
  }

  function AttachedLines(devs: seq<Attached>): (lines: seq<string>)
    ensures |lines| == |devs|
    ensures forall i :: 0 <= i < |devs| ==> lines[i] == AttachedLine(devs[i])
  {
    if |devs| == 0 then [] else [AttachedLine(devs[0])] + AttachedLines(devs[1..])
  }

  /** What `adb devices` prints for the given devices, whatever their states. */
  function AttachedOutput(devs: seq<Attached>): string {
    Join([DevicesHeader] + AttachedLines(devs), '\n') + "\n\n"
  }

  /** The serials of the devices in the `device` state, in order. */
  function Ready(devs: seq<Attached>): seq<string>
    decreases |devs|
  {
    if |devs| == 0 then []
    else (if StartsWith(devs[0].state, "device") then [devs[0].serial] else []) + Ready(devs[1..])
  }

  /** `get_devices` reports exactly the devices in the `device` state, in
      order: offline, unauthorised and other devices are dropped. */
  lemma {:induction false} AttachedRoundTrip(devs: seq<Attached>, stderr: string)
    requires forall i :: 0 <= i < |devs| ==> PrintableAttached(devs[i])
    ensures ParseDevices(0, AttachedOutput(devs), stderr) == Ok(Ready(devs))
  {
    AttachedParts(devs);
    ReadyOfLines(devs);
  }

  /** The lines after the header are the device lines. */
  lemma {:induction false} AttachedParts(devs: seq<Attached>)
    requires forall i :: 0 <= i < |devs| ==> PrintableAttached(devs[i])
    ensures |Split(Strip(AttachedOutput(devs)), '\n')| > 0
    ensures Split(Strip(AttachedOutput(devs)), '\n')[1..] == AttachedLines(devs)
  {
    var all := [DevicesHeader] + AttachedLines(devs);
    AttachedText(devs);
    SplitStrippedLines(all, "\n\n");
    assert all[1..] == AttachedLines(devs);
  }

  lemma {:induction false} AttachedText(devs: seq<Attached>)
    requires forall i :: 0 <= i < |devs| ==> PrintableAttached(devs[i])
    ensures TextLines([DevicesHeader] + AttachedLines(devs))
  {
    AttachedNoNewline(devs);
    AttachedLastEnd(devs);
    UnderHeader(AttachedLines(devs));
  }

  lemma {:induction false} AttachedLastEnd(devs: seq<Attached>)
    requires forall i :: 0 <= i < |devs| ==> PrintableAttached(devs[i])
    ensures var lines := AttachedLines(devs);
      |lines| > 0 ==> |lines[|lines| - 1]| > 0 && !IsSpace(lines[|lines| - 1][|lines[|lines| - 1]| - 1])
  {
    if |devs| > 0 {
      AttachedLineEnd(devs[|devs| - 1]);
    }
  }

  /** The header followed by newline-free lines, the last ending in a
      non-space character, is a text of lines. */
  lemma {:induction false} UnderHeader(lines: seq<string>)
    requires forall i :: 0 <= i < |lines| ==> '\n' !in lines[i]
    requires |lines| > 0 ==> |lines[|lines| - 1]| > 0 && !IsSpace(lines[|lines| - 1][|lines[|lines| - 1]| - 1])
    ensures TextLines([DevicesHeader] + lines)
  {
    var all := [DevicesHeader] + lines;
    HeaderLine();
    forall i | 0 <= i < |all| ensures '\n' !in all[i] {
      if i > 0 {
        assert all[i] == lines[i - 1];
      }
    }
  }

  lemma HeaderLine()
    ensures TextLines([DevicesHeader])
  {
    assert '\n' !in DevicesHeader;
  }

  lemma AttachedLineEnd(a: Attached)
    requires PrintableAttached(a)
    ensures |AttachedLine(a)| > 0 && !IsSpace(AttachedLine(a)[|AttachedLine(a)| - 1])
  {
    assert AttachedLine(a)[|AttachedLine(a)| - 1] == a.state[|a.state| - 1];
  }

  lemma {:induction false} AttachedNoNewline(devs: seq<Attached>)
    requires forall i :: 0 <= i < |devs| ==> PrintableAttached(devs[i])
    ensures forall i :: 0 <= i < |AttachedLines(devs)| ==> '\n' !in AttachedLines(devs)[i]
  {
    forall i | 0 <= i < |devs| ensures '\n' !in AttachedLines(devs)[i] {
      assert AttachedLines(devs)[i] == devs[i].serial + "\t" + devs[i].state;
    }
  }

  lemma {:induction false} ReadyOfLines(devs: seq<Attached>)
    requires forall i :: 0 <= i < |devs| ==> PrintableAttached(devs[i])
    ensures Serials(AttachedLines(devs)) == Ready(devs)
    decreases |devs|
  {
    if |devs| > 0 {
      var lines := AttachedLines(devs);
      AttachedLineKept(devs[0]);
      assert lines[1..] == AttachedLines(devs[1..]);
      ReadyOfLines(devs[1..]);
    }
  }

  /** A printed line is kept exactly when the state starts with `device`,
      and its serial is the one printed. */
  lemma AttachedLineKept(a: Attached)
    requires PrintableAttached(a)
    ensures Online(AttachedLine(a)) <==> StartsWith(a.state, "device")
    ensures Serial(AttachedLine(a)) == a.serial
  {
    var line := AttachedLine(a);
    assert line == a.serial + ['\t'] + a.state;
    StripEmpty(line);
    assert !IsSpace(line[|line| - 1]);
    ContainsAtMark(a.serial, '\t', a.state, "device");
    assert ['\t'] + "device" == "\tdevice";
    SplitHead(a.serial, '\t', a.state);
  }

  // ------------------------------------------------------------ directories

  /** One line of `ls -la`: blank lines and lines with fewer than eight
      whitespace-separated columns (at most seven splits) give nothing, and
      so do the `.` and `..` entries. The name is the eighth column, with
      any inner spaces; a directory is one whose permissions start with
      `d`; the size is the fifth column when it is all digits and 0
      otherwise; the time is the sixth and seventh columns joined by a
      space, read by `parseMinute` (which gives `None` when they do not
      parse as `YYYY-MM-DD HH:MM`). */
  function ParseLsLine(line: string, parseMinute: string -> Option<int>): (e: Option<DirEntry>)
    ensures e.Some? ==> e.value.name != "." && e.value.name != ".."
    ensures e.Some? ==> |e.value.name| > 0 && !IsSpace(e.value.name[0])
    ensures Strip(line) == "" || |SplitWs(line, 7)| < 8 ==> e.None?
    ensures e.Some? ==> |SplitWs(line, 7)| >= 8 && e.value.name == SplitWs(line, 7)[|SplitWs(line, 7)| - 1]
    ensures e.Some? && !IsDigits(SplitWs(line, 7)[4]) ==> e.value.size == 0
    ensures e.Some? && IsDigits(SplitWs(line, 7)[4]) ==> e.value.size == DigitsValue(SplitWs(line, 7)[4])
  {
    if Strip(line) == "" then None
    else
      var parts := SplitWs(line, 7);
      if |parts| < 8 then None
      else
        var name := parts[|parts| - 1];
        if name == "." || name == ".." then None
        else
          var dateText := parts[5] + " " + parts[6];
          var size := if IsDigits(parts[4]) then DigitsValue(parts[4]) else 0;
          Some(DirEntry(name, StartsWith(parts[0], "d"), size, dateText, parseMinute(dateText)))
  }

  /** The entries of the listed lines, in order. */
  function LsEntries(lines: seq<string>, parseMinute: string -> Option<int>): (es: seq<DirEntry>)
    ensures |es| <= |lines|
    ensures forall i :: 0 <= i < |es| ==> es[i].name != "." && es[i].name != ".." && |es[i].name| > 0
    decreases |lines|
  {
    if |lines| == 0 then []
    else
      match ParseLsLine(lines[0], parseMinute)
      case None => LsEntries(lines[1..], parseMinute)
      case Some(e) => [e] + LsEntries(lines[1..], parseMinute)
  }

  /** `list_directory`: nothing when the command fails; otherwise one entry
      per listed file or directory, never `.` or `..`, never more entries
      than output lines. */
  function ListDirectory(rc: int, stdout: string, parseMinute: string -> Option<int>): (es: seq<DirEntry>)
    ensures rc != 0 ==> es == []
    ensures |es| <= |Split(Strip(stdout), '\n')|
    ensures forall i :: 0 <= i < |es| ==> es[i].name != "." && es[i].name != ".." && |es[i].name| > 0
  {
    if rc != 0 then [] else LsEntries(Split(Strip(stdout), '\n'), parseMinute)
  }

  /** One row of an `ls -la` listing. */
  datatype LsRow = LsRow(perm: string, links: string, owner: string, group: string, size: nat,
                         date: string, time: string, name: string)

  /** A row `ls` can print: seven space-free columns, and a name that
      neither starts nor ends with whitespace and holds no newline. */
  predicate PrintableRow(r: LsRow) {
    && (forall k :: 0 <= k < 7 ==> |Columns(r)[k]| > 0 && NoSpace(Columns(r)[k]))
    && |r.name| > 0 && IsStripped(r.name) && '\n' !in r.name
  }

  function Columns(r: LsRow): seq<string> {
    [r.perm, r.links, r.owner, r.group, ShowNat(r.size), r.date, r.time]
  }

  /** The line `ls -la` prints for a row. */
  function LsLine(r: LsRow): string {
    JoinSpaced(Columns(r), r.name)
  }

  function LsLines(rows: seq<LsRow>): (lines: seq<string>)
    ensures |lines| == |rows|
    ensures forall i :: 0 <= i < |rows| ==> lines[i] == LsLine(rows[i])
  {
    if |rows| == 0 then [] else [LsLine(rows[0])] + LsLines(rows[1..])
  }

  /** What `ls -la` prints: a `total` line, then one line per row. */
  function LsOutput(total: nat, rows: seq<LsRow>): string {
    Join(["total " + ShowNat(total)] + LsLines(rows), '\n') + "\n"
  }

  /** The entry a listed row stands for. */
  function RowEntry(r: LsRow, parseMinute: string -> Option<int>): DirEntry {
    DirEntry(r.name, StartsWith(r.perm, "d"), r.size, r.date + " " + r.time, parseMinute(r.date + " " + r.time))
  }

  /** The rows other than `.` and `..`, as entries. */
  function Listed(rows: seq<LsRow>, parseMinute: string -> Option<int>): seq<DirEntry>
    decreases |rows|
  {
    if |rows| == 0 then []
    else if rows[0].name == "." || rows[0].name == ".." then Listed(rows[1..], parseMinute)
    else [RowEntry(rows[0], parseMinute)] + Listed(rows[1..], parseMinute)
  }

  /** Parsing a printed listing gives back every row but `.` and `..`, in
      order, with names that keep their inner spaces. */
  lemma ListingRoundTrip(total: nat, rows: seq<LsRow>, parseMinute: string -> Option<int>)
    requires forall i :: 0 <= i < |rows| ==> PrintableRow(rows[i])
    ensures ListDirectory(0, LsOutput(total, rows), parseMinute) == Listed(rows, parseMinute)
  {
    var all := ["total " + ShowNat(total)] + LsLines(rows);
    ListingLines(total, rows);
    assert AllSpace("\n");
    SplitStrippedLines(all, "\n");
    HeaderSkipped(total, parseMinute);
    assert all[1..] == LsLines(rows);
    RowsParsed(rows, parseMinute);
  }

  /** The lines of a printed listing are single lines, and the text starts
      and ends with a non-space character. */
  lemma ListingLines(total: nat, rows: seq<LsRow>)
    requires forall i :: 0 <= i < |rows| ==> PrintableRow(rows[i])
    ensures TextLines(["total " + ShowNat(total)] + LsLines(rows))
  {
    var all := ["total " + ShowNat(total)] + LsLines(rows);
    HeaderShape(total);
    forall i | 0 <= i < |all| ensures |all[i]| > 0 && '\n' !in all[i] && !IsSpace(all[i][|all[i]| - 1]) {
      if i > 0 {
        LsLineShape(rows[i - 1]);
      }
    }
  }

  /** The `total` line is one line that starts and ends with a non-space. */
  lemma HeaderShape(total: nat)
    ensures var h := "total " + ShowNat(total);
      |h| > 0 && '\n' !in h && !IsSpace(h[0]) && !IsSpace(h[|h| - 1])
  {
    var n := ShowNat(total);
    DigitsNoSpace(n);
    assert ("total " + n)[|"total " + n| - 1] == n[|n| - 1];
    assert '\n' !in n;
  }

  /** A printed row is a non-empty line with no newline, starting and ending
      with a non-space character. */
  lemma LsLineShape(r: LsRow)
    requires PrintableRow(r)
    ensures var l := LsLine(r);
      |l| > 0 && '\n' !in l && !IsSpace(l[0]) && !IsSpace(l[|l| - 1])
  {
    var cs := Columns(r);
    assert forall k :: 0 <= k < |cs| ==> |cs[k]| > 0 && NoSpace(cs[k]);
    JoinSpacedStart(cs, r.name);
    JoinSpacedShape(cs, r.name);
  }

  lemma {:induction false} JoinSpacedShape(words: seq<string>, rest: string)
    requires forall k :: 0 <= k < |words| ==> NoSpace(words[k])
    requires |rest| > 0 && '\n' !in rest
    ensures var l := JoinSpaced(words, rest);
      |l| > 0 && '\n' !in l && l[|l| - 1] == rest[|rest| - 1]
    decreases |words|
  {
    if |words| > 0 {
      JoinSpacedShape(words[1..], rest);
      assert NoSpace(words[0]);
    }
  }

  /** `"total N".split(maxsplit=7)` has two pieces. */
  lemma HeaderWords(total: nat)
    ensures |SplitWs("total " + ShowNat(total), 7)| == 2
  {
    var n := ShowNat(total);
    DigitsNoSpace(n);
    assert NoSpace("total");
    assert "total " + n == "total" + " " + n;
    SplitWsWord("total", n, 7);
    assert LStrip(n) == n;
    assert TakeWord(n) == n;
    assert n[|n|..] == "";
    assert SplitWs(n, 6) == [n] + SplitWs("", 5);
    assert LStrip("") == "";
  }

  /** The `total` line gives no entry. */
  lemma HeaderSkipped(total: nat, parseMinute: string -> Option<int>)
    ensures ParseLsLine("total " + ShowNat(total), parseMinute).None?
  {
    HeaderWords(total);
  }

  lemma {:induction false} RowsParsed(rows: seq<LsRow>, parseMinute: string -> Option<int>)
    requires forall i :: 0 <= i < |rows| ==> PrintableRow(rows[i])
    ensures LsEntries(LsLines(rows), parseMinute) == Listed(rows, parseMinute)
    decreases |rows|
  {
    if |rows| > 0 {
      var lines := LsLines(rows);
      RowParsed(rows[0], parseMinute);
      assert lines[1..] == LsLines(rows[1..]);
      RowsParsed(rows[1..], parseMinute);
    }
  }

  /** The columns of a printed row, split at most seven times, are the
      seven columns and the name. */
  lemma RowColumns(r: LsRow)
    requires PrintableRow(r)
    ensures Strip(LsLine(r)) != ""
    ensures SplitWs(LsLine(r), 7) == Columns(r) + [r.name]
  {
    var cs := Columns(r);
    assert forall k :: 0 <= k < |cs| ==> |cs[k]| > 0 && NoSpace(cs[k]);
    LsLineShape(r);
    StripEmpty(LsLine(r));
    SplitWsJoined(cs, r.name);
  }

  /** A printed row parses to its entry, or to nothing when it is `.` or `..`. */
  lemma RowParsed(r: LsRow, parseMinute: string -> Option<int>)
    requires PrintableRow(r)
    ensures ParseLsLine(LsLine(r), parseMinute)
         == if r.name == "." || r.name == ".." then None else Some(RowEntry(r, parseMinute))
  {
    RowColumns(r);
    var parts := Columns(r) + [r.name];
    assert parts[4] == ShowNat(r.size) && parts[7] == r.name;
    assert parts[0] == r.perm && parts[5] == r.date && parts[6] == r.time;
    ShowNatValue(r.size);
  }

  // ---------------------------------------------------------------- find

  /** One record of `list_files_recursive`. */
  datatype RemoteFile = RemoteFile(relPath: string, size: int, mtime: int)

  /** One line of `find -printf '%P\t%s\t%T@\n'`: blank lines and lines with
      fewer than three tab-separated fields give nothing; otherwise the
      size must parse as an integer and the time as a number (`parseSeconds`
      stands for `int(float(...))`), or the call raises. */
  function ParseFindLine(line: string, parseSeconds: string -> Option<int>): (r: Result<Option<RemoteFile>>)
    ensures r.Ok? && r.value.Some? ==> '\t' !in r.value.value.relPath
    ensures Strip(line) == "" || |Split(line, '\t')| < 3 ==> r == Ok(None)
    ensures r.Err? <==> Strip(line) != "" && |Split(line, '\t')| >= 3
                        && (ParseInt(Split(line, '\t')[1]).None? || parseSeconds(Split(line, '\t')[2]).None?)
  {
    if Strip(line) == "" then Ok(None)
    else
      var parts := Split(line, '\t');
      if |parts| < 3 then Ok(None)
      else
        match ParseInt(parts[1])
        case None => Err("invalid literal for int(): " + parts[1])
        case Some(size) =>
          match parseSeconds(parts[2])
          case None => Err("could not convert string to float: " + parts[2])
          case Some(mtime) => Ok(Some(RemoteFile(parts[0], size, mtime)))
  }

  /** The records of the listed lines, in order; the first bad line raises. */
  function FindEntries(lines: seq<string>, parseSeconds: string -> Option<int>): (r: Result<seq<RemoteFile>>)
    ensures r.Ok? ==> |r.value| <= |lines|
    ensures r.Ok? ==> forall i :: 0 <= i < |r.value| ==> '\t' !in r.value[i].relPath
    decreases |lines|
  {
    if |lines| == 0 then Ok([])
    else
      match ParseFindLine(lines[0], parseSeconds)
      case Err(m) => Err(m)
      case Ok(e) =>
        match FindEntries(lines[1..], parseSeconds)
        case Err(m) => Err(m)
        case Ok(rest) => Ok((if e.Some? then [e.value] else []) + rest)
  }

  /** `list_files_recursive`: nothing when the command fails or prints only
      whitespace; otherwise one record per complete line. */
  function ListFilesRecursive(rc: int, stdout: string, parseSeconds: string -> Option<int>): (r: Result<seq<RemoteFile>>)
    ensures rc != 0 || AllSpace(stdout) ==> r == Ok([])
    ensures r.Ok? ==> forall i :: 0 <= i < |r.value| ==> '\t' !in r.value[i].relPath
  {
    StripEmpty(stdout);
    if rc == 0 && Strip(stdout) != "" then FindEntries(Split(Strip(stdout), '\n'), parseSeconds)
    else Ok([])
  }

  /** One file as `find` reports it: its path below the root, its size and
      its time stamp text. */
  datatype FindRow = FindRow(relPath: string, size: nat, stamp: string)

  predicate PrintableFind(r: FindRow, parseSeconds: string -> Option<int>) {
    && |r.relPath| > 0 && !IsSpace(r.relPath[0]) && '\t' !in r.relPath && '\n' !in r.relPath
    && |r.stamp| > 0 && !IsSpace(r.stamp[|r.stamp| - 1]) && '\t' !in r.stamp && '\n' !in r.stamp
    && parseSeconds(r.stamp).Some?
  }

  function FindLine(r: FindRow): string {
    Join([r.relPath, ShowNat(r.size), r.stamp], '\t')
  }

  function FindLines(rows: seq<FindRow>): (lines: seq<string>)
    ensures |lines| == |rows|
    ensures forall i :: 0 <= i < |rows| ==> lines[i] == FindLine(rows[i])
  {
    if |rows| == 0 then [] else [FindLine(rows[0])] + FindLines(rows[1..])
  }

  function FindOutput(rows: seq<FindRow>): string {
    Join(FindLines(rows), '\n') + "\n"
  }

  /** The records a `find` listing stands for. */
  function FoundFiles(rows: seq<FindRow>, parseSeconds: string -> Option<int>): (fs: seq<RemoteFile>)
    ensures |fs| == |rows|
    ensures forall i :: 0 <= i < |rows| ==> fs[i] == FoundFile(rows[i], parseSeconds)
  {
    if |rows| == 0 then [] else [FoundFile(rows[0], parseSeconds)] + FoundFiles(rows[1..], parseSeconds)
  }

  /** The record a printed `find` line stands for. */
  function FoundFile(r: FindRow, parseSeconds: string -> Option<int>): RemoteFile {
    RemoteFile(r.relPath, r.size, parseSeconds(r.stamp).GetOr(0))
  }

  /** Parsing what `find` prints gives every file back, in order, with its
      path, size and parsed time. */
  lemma FindRoundTrip(rows: seq<FindRow>, parseSeconds: string -> Option<int>)
    requires forall i :: 0 <= i < |rows| ==> PrintableFind(rows[i], parseSeconds)
    ensures ListFilesRecursive(0, FindOutput(rows), parseSeconds)
         == Ok(FoundFiles(rows, parseSeconds))
  {
    if |rows| == 0 {
      assert FindOutput(rows) == "\n";
      assert AllSpace("\n");
    } else {
      FindOutputSplit(rows, parseSeconds);
      FindRowsParsed(rows, parseSeconds);
    }
  }

  /** A non-empty `find` listing is not blank, and its stripped lines are
      the printed lines. */
  lemma FindOutputSplit(rows: seq<FindRow>, parseSeconds: string -> Option<int>)
    requires |rows| > 0
    requires forall i :: 0 <= i < |rows| ==> PrintableFind(rows[i], parseSeconds)
    ensures Strip(FindOutput(rows)) != ""
    ensures Split(Strip(FindOutput(rows)), '\n') == FindLines(rows)
  {
    var lines := FindLines(rows);
    FindOutputLines(rows, parseSeconds);
    assert AllSpace("\n");
    SplitStrippedLines(lines, "\n");
    StripEmpty(FindOutput(rows));
    assert FindOutput(rows)[0] == lines[0][0] by { JoinEnds(lines, '\n'); }
  }

  /** The lines of a printed `find` listing are single lines, and the text
      starts and ends with a non-space character. */
  lemma FindOutputLines(rows: seq<FindRow>, parseSeconds: string -> Option<int>)
    requires |rows| > 0
    requires forall i :: 0 <= i < |rows| ==> PrintableFind(rows[i], parseSeconds)
    ensures TextLines(FindLines(rows))
  {
    var lines := FindLines(rows);
    forall i | 0 <= i < |lines|
      ensures |lines[i]| > 0 && '\n' !in lines[i] && !IsSpace(lines[i][0]) && !IsSpace(lines[i][|lines[i]| - 1])
    {
      FindLineShape(rows[i]);
    }
  }

  lemma FindLineShape(r: FindRow)
    requires |r.relPath| > 0 && '\n' !in r.relPath
    requires |r.stamp| > 0 && '\n' !in r.stamp
    ensures var l := FindLine(r);
      |l| > 0 && '\n' !in l && l[0] == r.relPath[0] && l[|l| - 1] == r.stamp[|r.stamp| - 1]
  {
    var n := ShowNat(r.size);
    DigitsNoSpace(n);
    assert '\n' !in n;
    var parts := [r.relPath, n, r.stamp];
    assert Join([n, r.stamp], '\t') == n + ['\t'] + r.stamp by {
      assert [n, r.stamp][1..] == [r.stamp];
    }
    assert Join(parts, '\t') == r.relPath + ['\t'] + Join([n, r.stamp], '\t') by {
      assert parts[1..] == [n, r.stamp];
    }
  }

  lemma {:induction false} FindRowsParsed(rows: seq<FindRow>, parseSeconds: string -> Option<int>)
    requires forall i :: 0 <= i < |rows| ==> PrintableFind(rows[i], parseSeconds)
    ensures FindEntries(FindLines(rows), parseSeconds) == Ok(FoundFiles(rows, parseSeconds))
    decreases |rows|
  {
    if |rows| > 0 {
      var lines := FindLines(rows);
      FindLineParsed(rows[0], parseSeconds);
      assert lines[1..] == FindLines(rows[1..]);
      FindRowsParsed(rows[1..], parseSeconds);
      assert FoundFiles(rows, parseSeconds) == [FoundFile(rows[0], parseSeconds)] + FoundFiles(rows[1..], parseSeconds);
    }
  }

  /** A printed `find` line parses to its record. */
  lemma FindLineParsed(r: FindRow, parseSeconds: string -> Option<int>)
    requires PrintableFind(r, parseSeconds)
    ensures ParseFindLine(FindLine(r), parseSeconds) == Ok(Some(FoundFile(r, parseSeconds)))
  {
    FindLineShape(r);
    StripEmpty(FindLine(r));
    var n := ShowNat(r.size);
    DigitsNoSpace(n);
    assert '\t' !in n;
    SplitJoin([r.relPath, n, r.stamp], '\t');
    ShowNatValue(r.size);
  }

  // ---------------------------------------------------------------- stat

  /** What `get_file_info` reports about one path. */
  datatype FileStat = FileStat(isDir: bool, size: int, mtime: int)

  /** `get_file_info` as written: nothing on a failed command or fewer than
      three words; otherwise the first word is taken as the file type and
      the second and third as size and time, each of which must parse as an
      integer or the call raises. */
  function GetFileInfo(rc: int, stdout: string): (r: Result<Option<FileStat>>)
    ensures rc != 0 ==> r == Ok(None)
    ensures r.Ok? && r.value.Some? ==> |Words(Strip(stdout))| >= 3
    ensures rc == 0 && |Words(Strip(stdout))| < 3 ==> r == Ok(None)
    ensures r.Err? <==> rc == 0 && |Words(Strip(stdout))| >= 3
                        && (ParseInt(Words(Strip(stdout))[1]).None? || ParseInt(Words(Strip(stdout))[2]).None?)
  {
    if rc != 0 then Ok(None)
    else
      var parts := Words(Strip(stdout));
      if |parts| < 3 then Ok(None)
      else
        match ParseInt(parts[1])
        case None => Err("invalid literal for int(): " + parts[1])
        case Some(size) =>
          match ParseInt(parts[2])
          case None => Err("invalid literal for int(): " + parts[2])
          case Some(mtime) => Ok(Some(FileStat(Contains(parts[0], "directory"), size, mtime)))
  }

  /** `get_file_info` with the file type read as every word but the last
      two, so that multi-word types such as `regular file` parse. */
  function GetFileInfoFixed(rc: int, stdout: string): (r: Result<Option<FileStat>>)
    ensures rc != 0 ==> r == Ok(None)
    ensures r.Ok? && r.value.Some? ==> |Words(Strip(stdout))| >= 3
    ensures rc == 0 && |Words(Strip(stdout))| < 3 ==> r == Ok(None)
    ensures var w := Words(Strip(stdout));
      r.Err? <==> rc == 0 && |w| >= 3 && (ParseInt(w[|w| - 2]).None? || ParseInt(w[|w| - 1]).None?)
  {
    if rc != 0 then Ok(None)
    else
      var parts := Words(Strip(stdout));
      if |parts| < 3 then Ok(None)
      else
        var n := |parts|;
        match ParseInt(parts[n - 2])
        case None => Err("invalid literal for int(): " + parts[n - 2])
        case Some(size) =>
          match ParseInt(parts[n - 1])
          case None => Err("invalid literal for int(): " + parts[n - 1])
          case Some(mtime) => Ok(Some(FileStat(Contains(Join(parts[..n - 2], ' '), "directory"), size, mtime)))
  }

  /** What `stat -c '%F %s %Y'` prints: the type's words, the size and the
      modification time, separated by spaces. */
  function StatOutput(typeWords: seq<string>, size: nat, mtime: nat): string {
    Join(typeWords + [ShowNat(size), ShowNat(mtime)], ' ') + "\n"
  }

  /** The words of a `stat` output are the type's words, then size and time. */
  lemma StatWords(typeWords: seq<string>, size: nat, mtime: nat)
    requires |typeWords| >= 1
    requires forall i :: 0 <= i < |typeWords| ==> |typeWords[i]| > 0 && NoSpace(typeWords[i])
    ensures Words(Strip(StatOutput(typeWords, size, mtime))) == typeWords + [ShowNat(size), ShowNat(mtime)]
  {
    var parts := typeWords + [ShowNat(size), ShowNat(mtime)];
    DigitsNoSpace(ShowNat(size));
    DigitsNoSpace(ShowNat(mtime));
    var x := Join(parts, ' ');
    JoinEnds(parts, ' ');
    StripPadded("", x, "\n");
    assert "" + x + "\n" == StatOutput(typeWords, size, mtime);
    WordsOfJoin(parts);
  }

  lemma DigitsNoSpace(s: string)
    requires IsDigits(s)
    ensures |s| > 0 && NoSpace(s)
  {
    forall k | 0 <= k < |s| ensures !IsSpace(s[k]) {
      assert IsDigit(s[k]);
    }
  }

  /** The corrected parser reads back what `stat` prints for any file type,
      one word or several, and calls it a directory exactly when the type
      text mentions `directory`. */
  lemma StatRoundTrip(typeWords: seq<string>, size: nat, mtime: nat)
    requires |typeWords| >= 1
    requires forall i :: 0 <= i < |typeWords| ==> |typeWords[i]| > 0 && NoSpace(typeWords[i])
    ensures GetFileInfoFixed(0, StatOutput(typeWords, size, mtime))
         == Ok(Some(FileStat(Contains(Join(typeWords, ' '), "directory"), size, mtime)))
  {
    StatWords(typeWords, size, mtime);
    var parts := typeWords + [ShowNat(size), ShowNat(mtime)];
    assert parts[..|parts| - 2] == typeWords;
    ShowNatValue(size);
    ShowNatValue(mtime);
  }

  /** As written, the parser raises on every regular file: `stat` prints the
      type as the two words `regular file`, so the second word, `file`, is
      read as the size. */
  lemma StatRegularFileRaises(size: nat, mtime: nat)
    ensures GetFileInfo(0, StatOutput(["regular", "file"], size, mtime)).Err?
  {
    assert NoSpace("regular") && NoSpace("file");
    StatWords(["regular", "file"], size, mtime);
    StripStripped("file");
    assert !IsDigit("file"[0]);
  }

  /** For a one-word type such as `directory` the two parsers agree. */
  lemma StatOneWordAgrees(kind: string, size: nat, mtime: nat)
    requires |kind| > 0 && NoSpace(kind)
    ensures GetFileInfo(0, StatOutput([kind], size, mtime)) == GetFileInfoFixed(0, StatOutput([kind], size, mtime))
    ensures GetFileInfo(0, StatOutput(["directory"], size, mtime)) == Ok(Some(FileStat(true, size, mtime)))
  {
    StatWords([kind], size, mtime);
    ShowNatValue(size);
    ShowNatValue(mtime);
    assert NoSpace("directory");
    StatWords(["directory"], size, mtime);
    ContainsSuffix("", "directory");
    assert "" + "directory" == "directory";
  }
}
