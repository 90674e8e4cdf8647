/**
 A comparison's file list and its cache on disk (snapper/Comparison.cc). The list saved for one order
 of two snapshots serves both, and a file that was cut off anywhere is never taken for a list.
 */
module Comparison {
  import opened Wrappers
  import opened FileStatus
  import opened Trees
  import opened Files
  import Compare
  import LineIO
  import Order
  import Text

  const VERSION := "0.13.1"
  const HEADER := "snapper-" + VERSION + "-" + "list" + "-" + "1" + "-" + "begin"
  const FOOTER := "snapper-" + VERSION + "-" + "list" + "-" + "1" + "-" + "end"

  // The list of a comparison

  function Devices(t1: Tree, t2: Tree): Compare.Devices {
    Compare.Devices(t1.info.dev, t2.info.dev)
  }

  function DiffOf(t1: Tree, t2: Tree, p: Path): Option<Status> {
    Compare.DiffAt(Devices(t1, t2), t1, t2, [], p)
  }

  /** files is what a comparison of the two snapshots lists. */
  ghost predicate Lists(t1: Tree, t2: Tree, files: seq<File>) {
    && Order.StrictlySorted(files, NameOf)
    && (forall f | f in files ::
          !f.undo && f.name == Join(PathOf(f.name)) && DiffOf(t1, t2, PathOf(f.name)) == Some(f.status))
    && (forall p: Path | DiffOf(t1, t2, p).Some? ::
          PathOf(Join(p)) == p && File(Join(p), DiffOf(t1, t2, p).value, false) in files)
  }

  /** There is only one such list. */
  lemma {:induction false} ListsUnique(t1: Tree, t2: Tree, f: seq<File>, g: seq<File>)
    requires Lists(t1, t2, f) && Lists(t1, t2, g)
    ensures f == g
  {
    forall x ensures x in f <==> x in g {
      if x in f { assert File(Join(PathOf(x.name)), x.status, false) in g; }
      if x in g { assert File(Join(PathOf(x.name)), x.status, false) in f; }
    }
    Order.StrictlySortedUnique(f, g, NameOf);
  }

  lemma {:induction false} ReportedIsThere(d: Compare.Devices, t1: Tree, t2: Tree, base: Path, rel: Path)
    requires Valid(t1) && Valid(t2) && Compare.DiffAt(d, t1, t2, base, rel).Some?
    ensures At(t1, rel).Some? || At(t2, rel).Some?
    decreases |rel|
  {
    var c1, c2 := Child(t1, rel[0]), Child(t2, rel[0]);
    if c1.Some? && c2.Some? && |rel| > 1 && !Compare.Changes(c1.value.info, c2.value.info).kind {
      ChildValid(t1, rel[0]);
      ChildValid(t2, rel[0]);
      ReportedIsThere(d, c1.value, c2.value, base + [rel[0]], rel[1..]);
    }
  }

  /** Names of reported paths stand for these paths only. */
  lemma {:induction false} ReportedName(t1: Tree, t2: Tree, p: Path)
    requires Valid(t1) && Valid(t2) && DiffOf(t1, t2, p).Some?
    ensures GoodPath(p) && PathOf(Join(p)) == p
  {
    ReportedIsThere(Devices(t1, t2), t1, t2, [], p);
    var q, n := p[..|p| - 1], p[|p| - 1];
    assert p == q + [n];
    if At(t1, p).Some? { ParentIsDir(t1, q, n); } else { ParentIsDir(t2, q, n); }
    PathOfJoin(p);
  }

  function FileOf(e: Compare.Entry): File { File(Join(e.path), e.status, false) }

  function FilesOf(out: seq<Compare.Entry>): seq<File> {
    seq(|out|, i requires 0 <= i < |out| => FileOf(out[i]))
  }

  lemma {:induction false} EntryReported(t1: Tree, t2: Tree, out: seq<Compare.Entry>, i: nat)
    requires Valid(t1) && Valid(t2) && Compare.Exact(out, Compare.Difference(Devices(t1, t2), t1, t2, []), [])
    requires i < |out|
    ensures DiffOf(t1, t2, out[i].path) == Some(out[i].status) && PathOf(FilesOf(out)[i].name) == out[i].path
  {
    assert out[i] in out;
    assert Compare.Sound(out[i], Compare.Difference(Devices(t1, t2), t1, t2, []), []);
    assert out[i].path[0..] == out[i].path;
    ReportedName(t1, t2, out[i].path);
  }

  lemma {:induction false} ReportedListed(t1: Tree, t2: Tree, out: seq<Compare.Entry>, p: Path)
    requires Valid(t1) && Valid(t2) && Compare.Exact(out, Compare.Difference(Devices(t1, t2), t1, t2, []), [])
    requires DiffOf(t1, t2, p).Some?
    ensures PathOf(Join(p)) == p && File(Join(p), DiffOf(t1, t2, p).value, false) in FilesOf(out)
  {
    ReportedName(t1, t2, p);
    var l := Compare.Difference(Devices(t1, t2), t1, t2, []);
    assert l(p) == DiffOf(t1, t2, p) && p != [];
    assert Compare.Entry([] + p, l(p).value) in out;
    assert [] + p == p;
    var i :| 0 <= i < |out| && out[i] == Compare.Entry(p, DiffOf(t1, t2, p).value);
    assert FilesOf(out)[i] == File(Join(p), DiffOf(t1, t2, p).value, false);
  }

  lemma {:induction false} FilesOfExact(t1: Tree, t2: Tree, out: seq<Compare.Entry>)
    requires Valid(t1) && Valid(t2) && Compare.Exact(out, Compare.Difference(Devices(t1, t2), t1, t2, []), [])
    ensures Lists(t1, t2, Order.SortBy(FilesOf(out), NameOf))
  {
    var files := FilesOf(out);
    forall i, j | 0 <= i < j < |files| ensures NameOf(files[i]) != NameOf(files[j]) {
      EntryReported(t1, t2, out, i);
      EntryReported(t1, t2, out, j);
      assert out[i].path != out[j].path;
    }
    Order.SortByStrict(files, NameOf);
    forall f | f in files
      ensures !f.undo && f.name == Join(PathOf(f.name)) && DiffOf(t1, t2, PathOf(f.name)) == Some(f.status)
    {
      var i :| 0 <= i < |files| && files[i] == f;
      EntryReported(t1, t2, out, i);
    }
    forall p: Path | DiffOf(t1, t2, p).Some?
      ensures PathOf(Join(p)) == p && File(Join(p), DiffOf(t1, t2, p).value, false) in files
    {
      ReportedListed(t1, t2, out, p);
    }
  }

  /** A fresh comparison. */
  method Create(t1: Tree, t2: Tree) returns (files: seq<File>)
    requires Valid(t1) && Valid(t2)
    ensures Lists(t1, t2, files)
  {
    var out := Compare.CmpDirs(t1, t2);
    FilesOfExact(t1, t2, out);
    files := Order.SortBy(FilesOf(out), NameOf);
  }

  // Both directions

  function Turned(f: File, invert: bool): File {
    if invert then f.(status := InvertStatus(f.status)) else f
  }

  function TurnedAll(files: seq<File>, invert: bool): seq<File> {
    seq(|files|, i requires 0 <= i < |files| => Turned(files[i], invert))
  }

  /** The list of the comparison the other way round is the list with every status inverted. */
  lemma {:induction false} ListsInverted(t1: Tree, t2: Tree, files: seq<File>)
    requires Valid(t1) && Valid(t2) && Lists(t1, t2, files)
    ensures Lists(t2, t1, TurnedAll(files, true))
  {
    var turned := TurnedAll(files, true);
    forall i, j | 0 <= i < j < |turned| ensures Order.Less(NameOf(turned[i]), NameOf(turned[j])) {
      assert Order.Less(NameOf(files[i]), NameOf(files[j]));
    }
    forall f | f in turned
      ensures !f.undo && f.name == Join(PathOf(f.name)) && DiffOf(t2, t1, PathOf(f.name)) == Some(f.status)
    {
      var i :| 0 <= i < |turned| && turned[i] == f;
      assert files[i] in files;
      Compare.DiffAntisymmetric(Devices(t1, t2), t1, t2, [], PathOf(f.name));
    }
    forall p: Path | DiffOf(t2, t1, p).Some?
      ensures PathOf(Join(p)) == p && File(Join(p), DiffOf(t2, t1, p).value, false) in turned
    {
      Compare.DiffAntisymmetric(Devices(t1, t2), t1, t2, [], p);
      var f := File(Join(p), DiffOf(t1, t2, p).value, false);
      assert f in files;
      var i :| 0 <= i < |files| && files[i] == f;
      assert turned[i] == File(Join(p), DiffOf(t2, t1, p).value, false);
    }
  }

  // The text form

  function Span(s: string, c: char -> bool): (r: nat)
    ensures r <= |s|
  {
    if s == "" || !c(s[0]) then 0 else 1 + Span(s[1..], c)
  }

  /** In a bracket expression of an extended regular expression the backslash stands for itself. */
  function IsDigitOrDot(c: char): bool { Text.IsDigit(c) || c == '.' || c == '\\' }
  function IsLower(c: char): bool { 'a' <= c <= 'z' }

  /** A non-empty run of a class followed by a hyphen: the run and the rest. */
  function Field(s: string, c: char -> bool): (r: Option<(string, string)>)
    ensures r.Some? ==> |r.value.1| < |s|
  {
    var k := Span(s, c);
    if 0 < k < |s| && s[k] == '-' then Some((s[..k], s[k + 1..])) else None
  }

  /** The line snapper-VERSION-FORMAT-NUMBER-LAST, split into its format and number. */
  function Mark(line: string, last: string): Option<(string, string)> {
    if |line| < 8 || line[..8] != "snapper-" then None
    else match Field(line[8..], IsDigitOrDot)
      case None => None
      case Some((_, rest1)) =>
        match Field(rest1, IsLower)
        case None => None
        case Some((format, rest2)) =>
          match Field(rest2, Text.IsDigit)
          case None => None
          case Some((number, rest3)) => if rest3 == last then Some((format, number)) else None
  }

  /** Whether the first line is a header; a header of another format or version is an error. */
  function CheckHeader(line: string): Result<bool> {
    match Mark(line, "begin")
    case None => Ok(false)
    case Some((format, number)) => if format == "list" && number == "1" then Ok(true) else Err
  }

  function CheckFooter(line: string): bool {
    Mark(line, "end").Some?
  }

  function IsNotSpace(c: char): bool { c != ' ' }

  /** A line of the list; an error without a separating space. */
  function ParseLine(line: string, invert: bool): Result<File> {
    var pos := Span(line, IsNotSpace);
    if pos == |line| then Err
    else Ok(Turned(File(line[pos + 1..], StringToStatus(line[..pos]), false), invert))
  }

  function ParseLines(lines: seq<string>, invert: bool): Result<seq<File>> {
    if lines == [] then Ok([])
    else match (ParseLine(lines[0], invert), ParseLines(lines[1..], invert))
      case (Ok(file), Ok(files)) => Ok([file] + files)
      case _ => Err
  }

  /** The lines up to the footer, which has to be there. */
  function ParseUpToFooter(lines: seq<string>, invert: bool): Result<seq<File>> {
    if lines == [] then Err
    else if CheckFooter(lines[0]) then Ok([])
    else match (ParseLine(lines[0], invert), ParseUpToFooter(lines[1..], invert))
      case (Ok(file), Ok(files)) => Ok([file] + files)
      case _ => Err
  }

  /** The list in a file: between a header and a footer, or, in older files, without either. */
  function Parse(lines: seq<string>, invert: bool): Result<seq<File>> {
    if lines == [] then Ok([])
    else match CheckHeader(lines[0])
      case Err => Err
      case Ok(true) => ParseUpToFooter(lines[1..], invert)
      case Ok(false) => ParseLines(lines, invert)
  }

  function Sort(r: Result<seq<File>>): Result<seq<File>> {
    match r
    case Err => Err
    case Ok(files) => Ok(Order.SortBy(files, NameOf))
  }

  /** What is left to happen in the middle of reading a list. */
  function Continue(files: seq<File>, first: bool, hasHeader: bool, rest: seq<string>,
                    invert: bool): Result<seq<File>> {
    match (if first then Parse(rest, invert)
           else if hasHeader then ParseUpToFooter(rest, invert) else ParseLines(rest, invert))
    case Err => Err
    case Ok(more) => Ok(files + more)
  }

  /** What one line does to the reading of a list. */
  datatype Outcome = More(files: seq<File>, hasHeader: bool) | Footer | Failed

  method TakeLine(files: seq<File>, first: bool, hasHeader: bool, line: string, invert: bool, ghost rest: seq<string>)
    returns (o: Outcome)
    requires first ==> !hasHeader
    ensures match o
      case More(files', h) => (h || !hasHeader) &&
        Continue(files, first, hasHeader, [line] + rest, invert) == Continue(files', false, h, rest, invert)
      case Footer => hasHeader && Continue(files, first, hasHeader, [line] + rest, invert) == Ok(files)
      case Failed => Continue(files, first, hasHeader, [line] + rest, invert) == Err
  {
    assert ([line] + rest)[0] == line && ([line] + rest)[1..] == rest;
    if first {
      var header := CheckHeader(line);
      if header.Err? { return Failed; }
      if header.value { return More(files, true); }
    } else if hasHeader && CheckFooter(line) {
      assert files + [] == files;
      return Footer;
    }
    var file := ParseLine(line, invert);
    if file.Err? { return Failed; }
    OneMore(files, file.value);
    return More(files + [file.value], hasHeader);
  }

  /** Reads a saved list. */
  method Load(text: string, invert: bool, size: nat) returns (r: Result<seq<File>>)
    requires size > 0
    ensures r == Sort(Parse(LineIO.Lines(text), invert))
    ensures r.Ok? ==> Order.Sorted(r.value, NameOf)
  {
    var reader := new LineIO.Reader(text, size);
    var files: seq<File> := [];
    var hasHeader, hasFooter, first := false, false, true;
    ghost var goal := Parse(LineIO.Lines(text), invert);
    ContinueFromStart(LineIO.Lines(text), invert);
    while !hasFooter
      invariant reader.Valid() && fresh(reader) && fresh(reader.buffer)
      invariant (first ==> !hasHeader) && (hasFooter ==> hasHeader)
      invariant if hasFooter then goal == Ok(files)
                else Continue(files, first, hasHeader, LineIO.Lines(reader.Remaining()), invert) == goal
      decreases !hasFooter, |reader.Remaining()|
    {
      var ok, line := reader.ReadLine();
      if !ok { break; }
      var o := TakeLine(files, first, hasHeader, line, invert, LineIO.Lines(reader.Remaining()));
      match o
      case Failed => return Err;
      case Footer => hasFooter := true;
      case More(more, h) => files, hasHeader := more, h;
      first := false;
    }
    if hasHeader && !hasFooter { return Err; }
    assert files + [] == files;
    Order.SortBySorts(files, NameOf);
    return Ok(Order.SortBy(files, NameOf));
  }

  lemma {:induction false} ContinueFromStart(lines: seq<string>, invert: bool)
    ensures Continue([], true, false, lines, invert) == Parse(lines, invert)
  {
    if Parse(lines, invert).Ok? { assert [] + Parse(lines, invert).value == Parse(lines, invert).value; }
  }

  lemma {:induction false} OneMore(files: seq<File>, file: File)
    ensures forall more: seq<File> :: files + ([file] + more) == (files + [file]) + more
  {
  }

  // Saving and loading

  function LineOf(f: File): string {
    StatusToString(f.status) + " " + f.name
  }

  function DataLines(files: seq<File>): seq<string> {
    seq(|files|, i requires 0 <= i < |files| => LineOf(files[i]))
  }

  function SavedLines(files: seq<File>): seq<string> {
    [HEADER] + DataLines(files) + [FOOTER]
  }

  /** Writes a list under a header and a footer, turned round if it is kept for the other order. */
  method Save(files: seq<File>, invert: bool, size: nat) returns (text: string)
    requires size > 0
    ensures text == LineIO.Unlines(SavedLines(TurnedAll(files, invert)))
  {
    var lines := [HEADER];
    for i := 0 to |files|
      invariant lines == [HEADER] + DataLines(TurnedAll(files, invert))[..i]
    {
      var file := Turned(files[i], invert);
      lines := lines + [StatusToString(file.status) + " " + file.name];
    }
    assert lines + [FOOTER] == SavedLines(TurnedAll(files, invert));
    lines := lines + [FOOTER];
    text := LineIO.WriteLines(lines, size);
  }

  lemma {:induction false} SpanOf(a: string, b: string, c: char -> bool)
    requires (forall i | 0 <= i < |a| :: c(a[i])) && (b != "" ==> !c(b[0]))
    ensures Span(a + b, c) == |a|
  {
    if a == "" {
      assert a + b == b;
    } else {
      assert (a + b)[1..] == a[1..] + b;
      SpanOf(a[1..], b, c);
    }
  }

  lemma {:induction false} FieldOf(a: string, rest: string, c: char -> bool)
    requires a != "" && (forall i | 0 <= i < |a| :: c(a[i])) && !c('-')
    ensures Field(a + "-" + rest, c) == Some((a, rest))
  {
    var s := a + "-" + rest;
    assert s == a + ("-" + rest);
    SpanOf(a, "-" + rest, c);
    assert s[..|a|] == a && s[|a| + 1..] == rest;
  }

  lemma {:induction false} MarkOf(version: string, format: string, number: string, last: string)
    requires version != "" && forall i | 0 <= i < |version| :: IsDigitOrDot(version[i])
    requires format != "" && forall i | 0 <= i < |format| :: IsLower(format[i])
    requires number != "" && forall i | 0 <= i < |number| :: Text.IsDigit(number[i])
    ensures Mark("snapper-" + version + "-" + format + "-" + number + "-" + last, last) == Some((format, number))
  {
    var rest2 := number + "-" + last;
    var rest1 := format + "-" + rest2;
    var rest0 := version + "-" + rest1;
    var line := "snapper-" + version + "-" + format + "-" + number + "-" + last;
    assert line == "snapper-" + rest0;
    assert line[..8] == "snapper-" && line[8..] == rest0;
    FieldOf(version, rest1, IsDigitOrDot);
    FieldOf(format, rest2, IsLower);
    FieldOf(number, last, Text.IsDigit);
  }

  lemma {:induction false} SpanIs(s: string, c: char -> bool)
    ensures var k := Span(s, c); (forall i | 0 <= i < k :: c(s[i])) && (k < |s| ==> !c(s[k]))
  {
    if s != "" && c(s[0]) { SpanIs(s[1..], c); }
  }

  lemma {:induction false} FieldIs(s: string, c: char -> bool)
    requires Field(s, c).Some?
    ensures var (a, rest) := Field(s, c).value; a != "" && s == a + "-" + rest && forall i | 0 <= i < |a| :: c(a[i])
  {
    SpanIs(s, c);
  }

  /** Nothing else is taken for a header or footer. */
  lemma {:induction false} MarkIs(line: string, last: string) returns (version: string)
    requires Mark(line, last).Some?
    ensures var (format, number) := Mark(line, last).value;
      && line == "snapper-" + version + "-" + format + "-" + number + "-" + last
      && version != "" && (forall i | 0 <= i < |version| :: IsDigitOrDot(version[i]))
      && format != "" && (forall i | 0 <= i < |format| :: IsLower(format[i]))
      && number != "" && (forall i | 0 <= i < |number| :: Text.IsDigit(number[i]))
  {
    hide Field;
    var rest0 := line[8..];
    var (v, rest1) := Field(rest0, IsDigitOrDot).value;
    var (format, rest2) := Field(rest1, IsLower).value;
    var (number, rest3) := Field(rest2, Text.IsDigit).value;
    FieldIs(rest0, IsDigitOrDot);
    FieldIs(rest1, IsLower);
    FieldIs(rest2, Text.IsDigit);
    version := v;
    assert line == line[..8] + rest0;
  }

  lemma {:induction false} HeaderAndFooter()
    ensures CheckHeader(HEADER) == Ok(true) && CheckFooter(FOOTER)
  {
    MarkOf(VERSION, "list", "1", "begin");
    MarkOf(VERSION, "list", "1", "end");
  }

  lemma {:induction false} HeaderLetters()
    ensures '\n' !in HEADER && ' ' !in HEADER
  {
    assert '\n' !in "snapper-" && '\n' !in VERSION && '\n' !in "-" && '\n' !in "list" && '\n' !in "1"
           && '\n' !in "begin";
    assert ' ' !in "snapper-" && ' ' !in VERSION && ' ' !in "-" && ' ' !in "list" && ' ' !in "1" && ' ' !in "begin";
  }

  lemma {:induction false} FooterLetters()
    ensures '\n' !in FOOTER && ' ' !in FOOTER
    ensures |FOOTER| > 0 && 'd' !in FOOTER[..|FOOTER| - 1]
  {
    assert '\n' !in "snapper-" && '\n' !in VERSION && '\n' !in "-" && '\n' !in "list" && '\n' !in "1" && '\n' !in "end";
    assert ' ' !in "snapper-" && ' ' !in VERSION && ' ' !in "-" && ' ' !in "list" && ' ' !in "1" && ' ' !in "end";
    assert FOOTER[..|FOOTER| - 1] == "snapper-" + VERSION + "-" + "list" + "-" + "1" + "-" + "en";
    assert 'd' !in "snapper-" && 'd' !in VERSION && 'd' !in "-" && 'd' !in "list" && 'd' !in "1" && 'd' !in "en";
  }

  /** A footer ends in its last word. */
  lemma {:induction false} FooterEnds(line: string)
    requires CheckFooter(line)
    ensures |line| >= 1 && line[|line| - 1] == 'd' && line[0] == 's'
  {
    var rest0 := line[8..];
    var rest1 := Field(rest0, IsDigitOrDot).value.1;
    var rest2 := Field(rest1, IsLower).value.1;
    var rest3 := Field(rest2, Text.IsDigit).value.1;
    assert rest3 == "end";
    assert rest2[|rest2| - 1] == rest3[2] && rest1[|rest1| - 1] == rest2[|rest2| - 1];
    assert rest0[|rest0| - 1] == rest1[|rest1| - 1] && line[|line| - 1] == rest0[|rest0| - 1];
    assert line[..8][0] == 's';
  }

  /** A line of the list is no footer, and gives its file back, turned if asked. */
  lemma {:induction false} DataLine(f: File, invert: bool)
    requires !f.undo
    ensures LineOf(f) != "" && !CheckFooter(LineOf(f)) && CheckHeader(LineOf(f)) == Ok(false)
    ensures Writable(f.status) ==> ParseLine(LineOf(f), invert) == Ok(Turned(f, invert))
  {
    var line, status := LineOf(f), StatusToString(f.status);
    StatusTextLetters(f.status);
    assert line[0] == status[0] && (|line| >= 8 ==> line[..8][0] == line[0]);
    assert line == status + (" " + f.name);
    SpanOf(status, " " + f.name, IsNotSpace);
    assert line[..6] == status && line[7..] == f.name;
    StatusTextRoundTrip(f.status);
  }

  ghost predicate AllWritable(files: seq<File>) {
    forall i | 0 <= i < |files| :: Writable(files[i].status) && !files[i].undo
  }

  lemma {:induction false} OneLineRead(f: File, rest: seq<string>, invert: bool)
    requires Writable(f.status) && !f.undo
    ensures ParseUpToFooter([LineOf(f)] + rest, invert) ==
            Text.Joined([Turned(f, invert)], ParseUpToFooter(rest, invert))
  {
    DataLine(f, invert);
    assert ([LineOf(f)] + rest)[1..] == rest;
  }

  lemma {:induction false} ListCons(files: seq<File>, invert: bool)
    requires files != []
    ensures DataLines(files) == [LineOf(files[0])] + DataLines(files[1..])
    ensures TurnedAll(files, invert) == [Turned(files[0], invert)] + TurnedAll(files[1..], invert)
  {
  }

  /** Lines of a list are read back one by one, whatever follows them. */
  lemma {:induction false} DataLinesRead(files: seq<File>, rest: seq<string>, invert: bool)
    requires AllWritable(files)
    ensures ParseUpToFooter(DataLines(files) + rest, invert) ==
            Text.Joined(TurnedAll(files, invert), ParseUpToFooter(rest, invert))
  {
    if files == [] {
      assert DataLines(files) + rest == rest && TurnedAll(files, invert) == [];
      Text.JoinedEmpty(ParseUpToFooter(rest, invert));
    } else {
      DataLinesRead(files[1..], rest, invert);
      OneLineRead(files[0], DataLines(files[1..]) + rest, invert);
      ListCons(files, invert);
      Text.Associative([LineOf(files[0])], DataLines(files[1..]), rest);
      Text.JoinedTwice([Turned(files[0], invert)], TurnedAll(files[1..], invert), ParseUpToFooter(rest, invert));
    }
  }

  /** A saved list is read back line by line, and nothing after its footer is looked at. */
  lemma {:induction false} SavedLinesRead(files: seq<File>, invert: bool, after: seq<string>)
    requires AllWritable(files)
    ensures Parse(SavedLines(files) + after, invert) == Ok(TurnedAll(files, invert))
  {
    HeaderRead(DataLines(files) + ([FOOTER] + after), invert);
    assert SavedLines(files) + after == [HEADER] + (DataLines(files) + ([FOOTER] + after));
    DataLinesRead(files, [FOOTER] + after, invert);
    FooterRead(after, invert);
    assert TurnedAll(files, invert) + [] == TurnedAll(files, invert);
  }

  lemma {:induction false} HeaderRead(rest: seq<string>, invert: bool)
    ensures Parse([HEADER] + rest, invert) == ParseUpToFooter(rest, invert)
  {
    HeaderAndFooter();
    assert ([HEADER] + rest)[1..] == rest;
  }

  lemma {:induction false} FooterRead(after: seq<string>, invert: bool)
    ensures ParseUpToFooter([FOOTER] + after, invert) == Ok([])
  {
    HeaderAndFooter();
  }

  /** A list with a header of another format or number is refused, whatever follows. */
  lemma {:induction false} ForeignRefused(version: string, format: string, number: string, rest: seq<string>,
                                          invert: bool)
    requires version != "" && forall i | 0 <= i < |version| :: IsDigitOrDot(version[i])
    requires format != "" && forall i | 0 <= i < |format| :: IsLower(format[i])
    requires number != "" && forall i | 0 <= i < |number| :: Text.IsDigit(number[i])
    requires !(format == "list" && number == "1")
    ensures var header := "snapper-" + version + "-" + format + "-" + number + "-" + "begin";
            Parse([header] + rest, invert).Err?
  {
    MarkOf(version, format, number, "begin");
  }

  /** Lists of older versions, without header and footer, are read too. */
  lemma {:induction false} OldLinesRead(files: seq<File>, invert: bool)
    requires AllWritable(files)
    ensures ParseLines(DataLines(files), invert) == Ok(TurnedAll(files, invert))
    ensures Parse(DataLines(files), invert) == Ok(TurnedAll(files, invert))
  {
    if files != [] {
      OldLinesRead(files[1..], invert);
      ListCons(files, invert);
      assert TurnedAll(files, invert)[0] == Turned(files[0], invert);
      OneOldLineRead(files[0], DataLines(files[1..]), invert);
    }
  }

  lemma {:induction false} OneOldLineRead(f: File, rest: seq<string>, invert: bool)
    requires Writable(f.status) && !f.undo
    ensures ParseLines([LineOf(f)] + rest, invert) == Text.Joined([Turned(f, invert)], ParseLines(rest, invert))
    ensures Parse([LineOf(f)] + rest, invert) == ParseLines([LineOf(f)] + rest, invert)
  {
    DataLine(f, invert);
    assert ([LineOf(f)] + rest)[1..] == rest;
  }

  // What the cache is worth

  ghost predicate NoNewlineInNames(files: seq<File>) {
    forall i | 0 <= i < |files| :: '\n' !in files[i].name
  }

  function TextOf(files: seq<File>): string {
    LineIO.Unlines(SavedLines(files))
  }

  function Loaded(text: string, invert: bool): Result<seq<File>> {
    Sort(Parse(LineIO.Lines(text), invert))
  }

  lemma {:induction false} SavedLinesNoNewlines(files: seq<File>)
    requires NoNewlineInNames(files)
    ensures LineIO.NoNewlines(SavedLines(files))
  {
    HeaderLetters();
    FooterLetters();
    var lines := SavedLines(files);
    forall i | 0 <= i < |lines| ensures '\n' !in lines[i] {
      if 0 < i <= |files| {
        assert lines[i] == LineOf(files[i - 1]);
        StatusTextLetters(files[i - 1].status);
      }
    }
  }

  lemma {:induction false} SortingSorted(files: seq<File>)
    requires Order.StrictlySorted(files, NameOf)
    ensures Order.SortBy(files, NameOf) == files
  {
    forall i, j | 0 <= i < j < |files| ensures NameOf(files[i]) != NameOf(files[j]) {
      assert Order.Less(NameOf(files[i]), NameOf(files[j]));
      Order.Trichotomy(files[i].name, files[j].name);
    }
    Order.SortByStrict(files, NameOf);
    Order.StrictlySortedUnique(Order.SortBy(files, NameOf), files, NameOf);
  }

  lemma {:induction false} TurnedSorted(files: seq<File>, invert: bool)
    requires Order.StrictlySorted(files, NameOf)
    ensures Order.StrictlySorted(TurnedAll(files, invert), NameOf)
  {
    var turned := TurnedAll(files, invert);
    forall i, j | 0 <= i < j < |turned| ensures Order.Less(NameOf(turned[i]), NameOf(turned[j])) {
      assert Order.Less(NameOf(files[i]), NameOf(files[j]));
    }
  }

  lemma {:induction false} LoadedBack(files: seq<File>, invert: bool)
    requires Order.StrictlySorted(files, NameOf) && AllWritable(files) && NoNewlineInNames(files)
    ensures Loaded(TextOf(files), invert) == Ok(TurnedAll(files, invert))
  {
    SavedLinesNoNewlines(files);
    LineIO.LinesRoundTrip(SavedLines(files));
    SavedLinesRead(files, invert, []);
    assert SavedLines(files) + [] == SavedLines(files);
    TurnedSorted(files, invert);
    SortingSorted(TurnedAll(files, invert));
  }

  lemma {:induction false} ParsedNames(lines: seq<string>, invert: bool, upToFooter: bool)
    requires LineIO.NoNewlines(lines)
    ensures var r := if upToFooter then ParseUpToFooter(lines, invert) else ParseLines(lines, invert);
      r.Ok? ==> NoNewlineInNames(r.value)
    decreases |lines|
  {
    if lines != [] {
      ParsedNames(lines[1..], invert, upToFooter);
    }
  }

  lemma {:induction false} ParseNames(lines: seq<string>, invert: bool)
    requires LineIO.NoNewlines(lines)
    ensures Parse(lines, invert).Ok? ==> NoNewlineInNames(Parse(lines, invert).value)
  {
    ParsedNames(lines, invert, false);
    if lines != [] { ParsedNames(lines[1..], invert, true); }
  }

  /** A sorted list with writable statuses survives the cache exactly when no name holds a newline. */
  lemma {:induction false} CacheRoundTrip(files: seq<File>)
    requires Order.StrictlySorted(files, NameOf) && AllWritable(files)
    ensures Loaded(TextOf(files), false) == Ok(files) <==> NoNewlineInNames(files)
  {
    if NoNewlineInNames(files) {
      LoadedBack(files, false);
      assert TurnedAll(files, false) == files;
    } else if Loaded(TextOf(files), false) == Ok(files) {
      var lines := LineIO.Lines(TextOf(files));
      LineIO.LinesHaveNoNewlines(TextOf(files));
      ParseNames(lines, false);
      var parsed := Parse(lines, false).value;
      assert multiset(files) == multiset(parsed);
      var i :| 0 <= i < |files| && '\n' in files[i].name;
      Order.SameElement(files, parsed, files[i]);
      NameInList(parsed, files[i]);
    }
  }

  lemma {:induction false} NameInList(files: seq<File>, f: File)
    requires NoNewlineInNames(files) && f in files
    ensures '\n' !in f.name
  {
  }

  lemma {:induction false} ListedWritable(t1: Tree, t2: Tree, files: seq<File>)
    requires Lists(t1, t2, files)
    ensures AllWritable(files)
  {
    forall i | 0 <= i < |files| ensures Writable(files[i].status) && !files[i].undo {
      assert files[i] in files;
      Compare.DiffWritable(Devices(t1, t2), t1, t2, [], PathOf(files[i].name));
    }
  }

  lemma {:induction false} TurnedTwice(files: seq<File>, a: bool, b: bool)
    requires AllWritable(files)
    ensures TurnedAll(TurnedAll(files, a), b) == TurnedAll(files, a != b)
    ensures AllWritable(TurnedAll(files, a))
  {
    forall i | 0 <= i < |files|
      ensures Turned(Turned(files[i], a), b) == Turned(files[i], a != b) && Writable(Turned(files[i], a).status)
    {
      InvertTwice(files[i].status);
    }
    assert TurnedAll(TurnedAll(files, a), b) == TurnedAll(files, a != b);
  }

  /** A text that was saved for the two snapshots, whichever of them came first. */
  ghost predicate Cached(t1: Tree, num1: nat, t2: Tree, num2: nat, text: string) {
    || (exists files :: Lists(t1, t2, files) && text == TextOf(TurnedAll(files, num1 > num2)))
    || (exists files :: Lists(t2, t1, files) && text == TextOf(TurnedAll(files, num2 > num1)))
  }

  ghost predicate NoNewlines(t1: Tree, t2: Tree) {
    forall p: Path | DiffOf(t1, t2, p).Some? :: '\n' !in Join(p)
  }

  lemma {:induction false} OneDirection(t1: Tree, num1: nat, t2: Tree, num2: nat, files: seq<File>)
    requires Valid(t1) && Valid(t2) && Lists(t1, t2, files) && NoNewlines(t1, t2)
    ensures Loaded(TextOf(TurnedAll(files, num1 > num2)), num1 > num2) == Ok(files)
    ensures num1 != num2 ==> Loaded(TextOf(TurnedAll(files, num1 > num2)), num2 > num1) == Ok(TurnedAll(files, true))
  {
    var saved := TurnedAll(files, num1 > num2);
    ListedWritable(t1, t2, files);
    TurnedTwice(files, num1 > num2, num1 > num2);
    TurnedTwice(files, num1 > num2, num2 > num1);
    TurnedSorted(files, num1 > num2);
    forall i | 0 <= i < |saved| ensures '\n' !in saved[i].name {
      assert files[i] in files;
    }
    LoadedBack(saved, num1 > num2);
    LoadedBack(saved, num2 > num1);
    assert TurnedAll(files, false) == files;
  }

  /** Loading a list saved for either order gives what a fresh comparison in the requested order gives. */
  lemma {:induction false} CacheServesBothOrders(t1: Tree, num1: nat, t2: Tree, num2: nat, text: string)
    requires Valid(t1) && Valid(t2) && num1 != num2 && NoNewlines(t1, t2) && Cached(t1, num1, t2, num2, text)
    ensures var r := Loaded(text, num1 > num2);
      r.Ok? && Lists(t1, t2, r.value) && forall files | Lists(t1, t2, files) :: files == r.value
  {
    if files :| Lists(t1, t2, files) && text == TextOf(TurnedAll(files, num1 > num2)) {
      OneDirection(t1, num1, t2, num2, files);
    } else {
      var files :| Lists(t2, t1, files) && text == TextOf(TurnedAll(files, num2 > num1));
      forall p: Path | DiffOf(t2, t1, p).Some? ensures '\n' !in Join(p) {
        Compare.DiffAntisymmetric(Devices(t1, t2), t1, t2, [], p);
      }
      OneDirection(t2, num2, t1, num1, files);
      ListsInverted(t2, t1, files);
    }
    forall files | Lists(t1, t2, files) ensures files == Loaded(text, num1 > num2).value {
      ListsUnique(t1, t2, files, Loaded(text, num1 > num2).value);
    }
  }

  /**
   For two snapshots that do not change the cache is used if it can be read, and written otherwise. What
   was saved for the two, in either order, gives the same list as a fresh comparison.
   */
  method Initialize(t1: Tree, num1: nat, t2: Tree, num2: nat, fixed: bool, cache: Option<string>, size: nat)
    returns (files: seq<File>, stored: Option<string>)
    requires Valid(t1) && Valid(t2) && num1 != num2 && size > 0
    ensures var used := fixed && cache.Some? && Loaded(cache.value, num1 > num2).Ok?;
      && ((used ==> NoNewlines(t1, t2) && Cached(t1, num1, t2, num2, cache.value)) ==> Lists(t1, t2, files))
      && (if used || !fixed then stored == cache else stored.Some? && Cached(t1, num1, t2, num2, stored.value))
  {
    if !fixed {
      files := Create(t1, t2);
      return files, cache;
    }
    if cache.Some? {
      var r := Load(cache.value, num1 > num2, size);
      if r.Ok? {
        if NoNewlines(t1, t2) && Cached(t1, num1, t2, num2, cache.value) {
          CacheServesBothOrders(t1, num1, t2, num2, cache.value);
        }
        return r.value, cache;
      }
    }
    files := Create(t1, t2);
    var text := Save(files, num1 > num2, size);
    return files, Some(text);
  }

  // A file that was cut off

  lemma {:induction false} CutText(lines: seq<string>, k: nat) returns (j: nat, part: string)
    requires k < |LineIO.Unlines(lines)|
    ensures j < |lines| && part <= lines[j]
    ensures LineIO.Unlines(lines)[..k] == LineIO.Unlines(lines[..j]) + part
    ensures j == |lines| - 1 && part == lines[j] ==> k == |LineIO.Unlines(lines)| - 1
  {
    var text, head := LineIO.Unlines(lines), lines[0] + "\n";
    assert text == head + LineIO.Unlines(lines[1..]);
    if k < |head| {
      j, part := 0, lines[0][..k];
      assert text[..k] == part;
      assert lines[..0] == [];
    } else {
      var j', part' := CutText(lines[1..], k - |head|);
      j, part := j' + 1, part';
      assert text[..k] == head + LineIO.Unlines(lines[1..])[..k - |head|];
      assert lines[..j][1..] == lines[1..][..j'];
      assert LineIO.Unlines(lines[..j]) == head + LineIO.Unlines(lines[1..][..j']);
      assert head + (LineIO.Unlines(lines[1..][..j']) + part) == (head + LineIO.Unlines(lines[1..][..j'])) + part;
    }
  }

  /** The lines of a cut text. */
  lemma {:induction false} CutLines(lines: seq<string>, k: nat) returns (j: nat, part: string)
    requires LineIO.NoNewlines(lines) && k < |LineIO.Unlines(lines)|
    ensures j < |lines| && part <= lines[j]
    ensures LineIO.Lines(LineIO.Unlines(lines)[..k]) == lines[..j] + (if part == "" then [] else [part])
    ensures j == |lines| - 1 && part == lines[j] ==> k == |LineIO.Unlines(lines)| - 1
    ensures k > 0 ==> j > 0 || part != ""
  {
    j, part := CutText(lines, k);
    assert LineIO.NoNewlines(lines[..j]);
    LineIO.LinesAfter(lines[..j], part);
    assert '\n' !in lines[j];
    LineIO.LastLine(part);
    if j == 0 { assert LineIO.Unlines(lines[..j]) + part == part; }
  }

  lemma {:induction false} NoSpaceNoLine(part: string, invert: bool)
    requires ' ' !in part
    ensures ParseLine(part, invert).Err?
  {
    assert part == part + "";
    SpanOf(part, "", IsNotSpace);
  }

  /** Without a footer there is no list. */
  lemma {:induction false} NoFooterNoList(lines: seq<string>, invert: bool)
    requires forall i | 0 <= i < |lines| :: !CheckFooter(lines[i])
    ensures ParseUpToFooter(lines, invert).Err?
  {
    if lines != [] { NoFooterNoList(lines[1..], invert); }
  }

  /** What is left of one of the lines after the header, if cut short, is no footer. */
  lemma {:induction false} CutIsNoFooter(files: seq<File>, j: nat, part: string)
    requires 0 < j < |SavedLines(files)| && part <= SavedLines(files)[j] && part != ""
    requires j == |SavedLines(files)| - 1 ==> part != FOOTER
    requires forall i | 0 <= i < |files| :: !files[i].undo
    ensures !CheckFooter(part)
  {
    if j == |SavedLines(files)| - 1 {
      FooterLetters();
      assert part[|part| - 1] == FOOTER[..|FOOTER| - 1][|part| - 1];
    } else {
      StatusTextLetters(files[j - 1].status);
      assert part[0] == LineOf(files[j - 1])[0];
    }
    if CheckFooter(part) { FooterEnds(part); }
  }

  /**
   A saved list that was cut off, at any place, does not load, unless only its last newline is missing
   or nothing is left of it: an empty file is an empty list of the old format.
   */
  lemma {:induction false} CutCacheNeverServes(files: seq<File>, k: nat, invert: bool)
    requires AllWritable(files) && NoNewlineInNames(files) && k < |TextOf(files)|
    ensures k == 0 ==> Loaded(TextOf(files)[..k], invert) == Ok([])
    ensures 0 < k < |TextOf(files)| - 1 ==> Loaded(TextOf(files)[..k], invert).Err?
    ensures k == |TextOf(files)| - 1 ==> Loaded(TextOf(files)[..k], invert) == Loaded(TextOf(files), invert)
  {
    if k == |TextOf(files)| - 1 {
      WithoutLastNewline(files);
    } else if k > 0 {
      SavedLinesNoNewlines(files);
      var j, part := CutLines(SavedLines(files), k);
      if j == 0 {
        assert SavedLines(files)[..j] + [part] == [part];
        CutInHeader(part, invert);
      } else {
        CutAfterHeader(files, j, part, invert);
      }
    }
  }

  lemma {:induction false} WithoutLastNewline(files: seq<File>)
    requires NoNewlineInNames(files) && AllWritable(files)
    ensures TextOf(files) != "" && LineIO.Lines(TextOf(files)[..|TextOf(files)| - 1]) == LineIO.Lines(TextOf(files))
  {
    var lines := SavedLines(files);
    SavedLinesNoNewlines(files);
    LineIO.LinesRoundTrip(lines);
    var first := lines[..|lines| - 1];
    assert lines == first + [FOOTER];
    LineIO.UnlinesAppend(first, FOOTER);
    var text := LineIO.Unlines(first) + FOOTER;
    assert TextOf(files)[..|TextOf(files)| - 1] == text;
    LineIO.LinesAfter(first, FOOTER);
    assert '\n' !in FOOTER;
    LineIO.LastLine(FOOTER);
  }

  lemma {:induction false} CutInHeader(part: string, invert: bool)
    requires part <= HEADER && part != ""
    ensures Parse([part], invert).Err?
  {
    HeaderAndFooter();
    HeaderLetters();
    NoSpaceNoLine(part, invert);
    assert [part][1..] == [];
  }

  lemma {:induction false} CutAfterHeader(files: seq<File>, j: nat, part: string, invert: bool)
    requires AllWritable(files) && 0 < j < |SavedLines(files)|
    requires part <= SavedLines(files)[j] && (j == |SavedLines(files)| - 1 ==> part != FOOTER)
    ensures Parse(SavedLines(files)[..j] + (if part == "" then [] else [part]), invert).Err?
  {
    var cut := SavedLines(files)[..j] + (if part == "" then [] else [part]);
    forall i | 0 <= i < |cut[1..]| ensures !CheckFooter(cut[1..][i]) {
      if i + 1 < j {
        assert cut[1..][i] == LineOf(files[i]);
        DataLine(files[i], invert);
      } else {
        assert cut[1..][i] == part;
        CutIsNoFooter(files, j, part);
      }
    }
    NoFooterNoList(cut[1..], invert);
    assert cut == [HEADER] + cut[1..];
    HeaderRead(cut[1..], invert);
  }
}
