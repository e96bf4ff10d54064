/** Reading the loop device of a file out of `losetup -j` output. */
module Losetup {
  import opened Prelude

  /** One attached loop device. When its backing file is removed the kernel marks it as gone. */
  datatype LoopEntry = LoopEntry(device: string, info: string, backing: string, gone: bool)
  {
    /** The backing file as `losetup` prints it. */
    function Shown(): string {
      backing + if gone then " (deleted)" else ""
    }
  }

  // ---------------------------------------------------------------- the text functions of the standard library

  function DropCarriageReturn(line: string): string {
    if line != "" && line[|line| - 1] == '\r' then line[..|line| - 1] else line
  }

  /** The longest line, with its newline, that the scanner's buffer holds. */
  const MAX_TOKEN: nat := 64 * 1024

  /**
    * `bufio.Scanner` over lines: the lines without their ends; text after the last newline is a
    * line unless empty. A line that does not fit ends the scan.
    */
  function ScanLines(s: string): seq<string> {
    if s == "" then []
    else
      var n := UpTo('\n', s);
      if n >= MAX_TOKEN then [] else
      [DropCarriageReturn(s[..n])] + if n == |s| then [] else ScanLines(s[n + 1..])
  }

  predicate HasSuffix(s: string, suffix: string) {
    |suffix| <= |s| && s[|s| - |suffix|..] == suffix
  }

  predicate IsSpace(c: char) {
    c == ' ' || ('\t' <= c <= '\r') || c == '\U{0085}' || c == '\U{00A0}'
  }

  function TrimSpace(s: string): string {
    if s == "" then ""
    else if IsSpace(s[0]) then TrimSpace(s[1..])
    else if IsSpace(s[|s| - 1]) then TrimSpace(s[..|s| - 1])
    else s
  }

  // ---------------------------------------------------------------- the parser

  /** The first line that ends with the bracketed path. */
  function FirstLine(lines: seq<string>, path: string): string {
    if lines == [] then ""
    else if HasSuffix(lines[0], "(" + path + ")") then lines[0]
    else FirstLine(lines[1..], path)
  }

  /** None is the "device not found" error. */
  function DeviceIn(line: string): Option<string> {
    if line == "" then None
    else
      var device := TrimSpace(line[..UpTo(':', line)]);
      if device == "" then None else Some(device)
  }

  method ParseLosetupOutputForDevice(output: string, path: string) returns (device: Option<string>)
    ensures device == DeviceIn(FirstLine(ScanLines(output), path))
  {
    if output == "" {
      return None;
    }
    var matched := "";
    var lines := ScanLines(output);
    var n := 0;
    while n < |lines|
      invariant 0 <= n <= |lines| && matched == ""
      invariant FirstLine(lines[n..], path) == FirstLine(lines, path)
    {
      if HasSuffix(lines[n], "(" + path + ")") {
        matched := lines[n];
        break;
      }
      assert lines[n..][1..] == lines[n + 1..];
      n := n + 1;
    }
    if matched == "" {
      return None;
    }
    var name := TrimSpace(matched[..UpTo(':', matched)]);
    return if name == "" then None else Some(name);
  }

  // ---------------------------------------------------------------- printing and reading back

  function LineOf(e: LoopEntry): string {
    e.device + ": " + e.info + " (" + e.Shown() + ")"
  }

  function Print(es: seq<LoopEntry>): string {
    if es == [] then "" else LineOf(es[0]) + "\n" + Print(es[1..])
  }

  /**
    * Device names without colon, bracket or white space; no newline or opening bracket in the
    * information; no newline in the backing path, and no bracket before a slash.
    */
  predicate Printable(e: LoopEntry) {
    && e.device != "" && (forall c :: c in e.device ==> c != ':' && c != '(' && !IsSpace(c))
    && (forall c :: c in e.info ==> c != '\n' && c != '(')
    && '\n' !in e.Shown() && NoBracketSlash(e.Shown())
  }

  predicate NoBracketSlash(s: string) {
    forall i :: 0 <= i < |s| - 1 && s[i] == '(' ==> s[i + 1] != '/'
  }

  predicate Absolute(path: string) {
    path != "" && path[0] == '/'
  }

  predicate Short(e: LoopEntry) {
    |LineOf(e)| < MAX_TOKEN
  }

  /** The entries before the first whose line does not fit. */
  function Fitting(es: seq<LoopEntry>): (r: seq<LoopEntry>)
    ensures forall e :: e in r ==> e in es
    ensures (forall e :: e in es ==> Short(e)) ==> r == es
  {
    if es == [] || !Short(es[0]) then [] else [es[0]] + Fitting(es[1..])
  }

  function LinesOf(es: seq<LoopEntry>): (lines: seq<string>)
    ensures |lines| == |es|
  {
    if es == [] then [] else [LineOf(es[0])] + LinesOf(es[1..])
  }

  lemma LineHasNoNewline(e: LoopEntry)
    requires Printable(e)
    ensures '\n' !in LineOf(e) && LineOf(e) != "" && DropCarriageReturn(LineOf(e)) == LineOf(e)
  {
    var line := LineOf(e);
    assert line[|line| - 1] == ')';
    assert forall c :: c in line ==>
      c in e.device || c in ": " || c in e.info || c in " (" || c in e.Shown() || c in ")";
  }

  lemma ScanFirstLine(line: string, rest: string)
    requires '\n' !in line && DropCarriageReturn(line) == line
    ensures ScanLines(line + "\n" + rest) == if |line| >= MAX_TOKEN then [] else [line] + ScanLines(rest)
  {
    var s := line + ("\n" + rest);
    assert line + "\n" + rest == s;
    UpToOf('\n', line, "\n" + rest);
    assert s[..|line|] == line && s[|line| + 1..] == rest;
  }

  lemma {:induction false} ScanPrinted(es: seq<LoopEntry>)
    requires forall i :: 0 <= i < |es| ==> Printable(es[i])
    ensures ScanLines(Print(es)) == LinesOf(Fitting(es))
  {
    if es != [] {
      LineHasNoNewline(es[0]);
      ScanFirstLine(LineOf(es[0]), Print(es[1..]));
      ScanPrinted(es[1..]);
      FittingFirst(es);
    }
  }

  lemma FittingFirst(es: seq<LoopEntry>)
    requires es != []
    ensures LinesOf(Fitting(es)) == if Short(es[0]) then [LineOf(es[0])] + LinesOf(Fitting(es[1..])) else []
  {
    assert Short(es[0]) ==> Fitting(es)[0] == es[0] && Fitting(es)[1..] == Fitting(es[1..]);
  }

  lemma HeadHasNoBracket(e: LoopEntry)
    requires Printable(e)
    ensures '(' !in e.device + ": " + e.info + " "
  {
    var head := e.device + ": " + e.info + " ";
    assert forall c :: c in head ==> c in e.device || c in ": " || c in e.info || c in " ";
  }

  /** The only bracket before a slash in a line is the one that opens the backing path. */
  lemma OneBracketSlash(e: LoopEntry, at: nat)
    requires Printable(e) && at + 1 < |LineOf(e)| && LineOf(e)[at] == '(' && LineOf(e)[at + 1] == '/'
    ensures at == |e.device + ": " + e.info + " "|
  {
    var head, tail := e.device + ": " + e.info + " ", e.Shown() + ")";
    HeadHasNoBracket(e);
    var line := LineOf(e);
    assert line == head + ("(" + tail);
    assert NoBracketSlash(tail);
    assert forall i :: 0 <= i < |head| ==> line[i] == head[i] && line[i] in head;
    assert forall i :: |head| < i < |line| ==> line[i] == tail[i - |head| - 1];
  }

  /** A line ends with a bracketed absolute path if and only if that path is the backing file it shows. */
  lemma LineNamesPath(e: LoopEntry, path: string)
    requires Printable(e) && Absolute(path)
    ensures HasSuffix(LineOf(e), "(" + path + ")") <==> e.Shown() == path
  {
    var head := e.device + ": " + e.info + " ";
    var line, suffix, tail := LineOf(e), "(" + path + ")", "(" + e.Shown() + ")";
    assert line == head + tail;
    assert line[|head|..] == tail;
    if HasSuffix(line, suffix) {
      var at := |line| - |suffix|;
      assert line[at] == line[at..][0] == '(' && line[at + 1] == line[at..][1] == '/';
      OneBracketSlash(e, at);
      assert tail == suffix;
      assert e.Shown() == tail[1..|tail| - 1] == suffix[1..|suffix| - 1] == path;
    }
  }

  lemma {:induction false} TrimKeeps(s: string)
    requires forall c :: c in s ==> !IsSpace(c)
    ensures TrimSpace(s) == s
  {
  }

  lemma DeviceInLine(e: LoopEntry)
    requires Printable(e)
    ensures DeviceIn(LineOf(e)) == Some(e.device)
  {
    var rest := ": " + e.info + " (" + e.Shown() + ")";
    assert LineOf(e) == e.device + rest;
    UpToOf(':', e.device, rest);
    assert LineOf(e)[..|e.device|] == e.device;
    TrimKeeps(e.device);
  }

  /** The device of the first entry that shows the path. */
  function DeviceOf(es: seq<LoopEntry>, path: string): (d: Option<string>)
    ensures d.Some? ==> exists i :: 0 <= i < |es| && es[i].Shown() == path && es[i].device == d.value
    ensures d.None? ==> forall i :: 0 <= i < |es| ==> es[i].Shown() != path
  {
    if es == [] then None
    else if es[0].Shown() == path then Some(es[0].device)
    else DeviceOf(es[1..], path)
  }

  lemma {:induction false} FirstPrintedLine(es: seq<LoopEntry>, path: string)
    requires Absolute(path) && forall i :: 0 <= i < |es| ==> Printable(es[i])
    ensures DeviceIn(FirstLine(LinesOf(es), path)) == DeviceOf(es, path)
  {
    if es != [] {
      LineNamesPath(es[0], path);
      if es[0].Shown() == path {
        DeviceInLine(es[0]);
      } else {
        FirstPrintedLine(es[1..], path);
      }
    }
  }

  /**
    * Reading printed output gives the device of the first entry that shows exactly this path, or
    * "device not found", among the entries before the first whose line does not fit.
    */
  lemma ReadingUndoesPrinting(es: seq<LoopEntry>, path: string)
    requires Absolute(path) && forall i :: 0 <= i < |es| ==> Printable(es[i])
    ensures DeviceIn(FirstLine(ScanLines(Print(es)), path)) == DeviceOf(Fitting(es), path)
  {
    ScanPrinted(es);
    var read := Fitting(es);
    assert forall i :: 0 <= i < |read| ==> read[i] in read && read[i] in es && Printable(read[i]);
    FirstPrintedLine(read, path);
  }

  predicate AllSpace(s: string) {
    forall i :: 0 <= i < |s| ==> IsSpace(s[i])
  }

  /** What trimming keeps lies between white space, and neither begins nor ends with any. */
  lemma {:induction false} TrimExactly(s: string) returns (i: nat, j: nat)
    ensures i <= j <= |s| && TrimSpace(s) == s[i..j]
    ensures AllSpace(s[..i]) && AllSpace(s[j..])
    ensures i < j ==> !IsSpace(s[i]) && !IsSpace(s[j - 1])
    decreases |s|
  {
    i, j := 0, |s|;
    if s != "" && IsSpace(s[0]) {
      i, j := TrimExactly(s[1..]);
      TrimFront(s, i, j);
      i, j := i + 1, j + 1;
    } else if s != "" && IsSpace(s[|s| - 1]) {
      var n := |s| - 1;
      i, j := TrimExactly(s[..n]);
      TrimBack(s, i, j);
    } else {
      assert s[0..|s|] == s;
    }
  }

  lemma TrimFront(s: string, i: nat, j: nat)
    requires s != "" && IsSpace(s[0]) && i <= j <= |s| - 1 && AllSpace(s[1..][..i]) && AllSpace(s[1..][j..])
    ensures s[1..][i..j] == s[i + 1..j + 1] && AllSpace(s[..i + 1]) && AllSpace(s[j + 1..])
  {
    assert s[..i + 1] == [s[0]] + s[1..][..i];
    assert s[j + 1..] == s[1..][j..];
  }

  lemma TrimBack(s: string, i: nat, j: nat)
    requires s != "" && IsSpace(s[|s| - 1]) && i <= j <= |s| - 1
    requires AllSpace(s[..|s| - 1][..i]) && AllSpace(s[..|s| - 1][j..])
    ensures s[..|s| - 1][i..j] == s[i..j] && AllSpace(s[..i]) && AllSpace(s[j..])
  {
    assert s[..i] == s[..|s| - 1][..i];
    assert s[j..] == s[..|s| - 1][j..] + [s[|s| - 1]];
  }

  /** A line whose text before the first colon is only white space, and no other, names no device. */
  lemma NoDeviceExactly(line: string)
    ensures DeviceIn(line).None? <==> AllSpace(line[..UpTo(':', line)])
    ensures DeviceIn(line).Some? ==> DeviceIn(line).value != ""
  {
    var name := line[..UpTo(':', line)];
    var i, j := TrimExactly(name);
    if i == j {
      assert name == name[..i] + name[j..];
    }
  }
}
