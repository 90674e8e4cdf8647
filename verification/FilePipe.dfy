/**
 The list of files on the pipe between server and client: one line a file, written by server/FilesTransferTask.cc
 and read by client/proxy/commands.cc.
 */
module FilePipe {
  import opened Wrappers
  import opened Text
  import opened Escape

  /** A status is an unsigned int; it is printed and read as a signed one. */
  type word = n: nat | n < 0x1_0000_0000

  datatype XFile = XFile(name: bytes, status: word)

  function Signed(w: word): int {
    if w < 0x8000_0000 then w else w - 0x1_0000_0000
  }

  function Unsigned(z: int): word
    requires -0x8000_0000 <= z < 0x8000_0000
  {
    if z < 0 then z + 0x1_0000_0000 else z
  }

  function Printed(z: int): bytes {
    if z < 0 then ['-'] + Decimal(-z) else Decimal(z)
  }

  function DigitsIn(s: string): (k: nat)
    ensures k <= |s| && (forall i | 0 <= i < k :: IsDigit(s[i])) && (k < |s| ==> !IsDigit(s[k]))
  {
    if s == [] || !IsDigit(s[0]) then 0 else DigitsIn(s[1..]) + 1
  }

  /** stoi: leading space, a sign, digits; what follows is ignored. */
  function Stoi(str: bytes): Option<int> {
    var s := SkipSpace(str);
    var digits := if s != [] && (s[0] == '-' || s[0] == '+') then s[1..] else s;
    var k := DigitsIn(digits);
    if k == 0 then None
    else
      var n: int := Number(digits[..k]);
      var z := if s[0] == '-' then -n else n;
      if -0x8000_0000 <= z < 0x8000_0000 then Some(z) else None
  }

  // Lines

  function LineOf(f: XFile): bytes {
    Escape.Escape(Pipe, f.name) + [' '] + Printed(Signed(f.status))
  }

  /** The name before the first space, the status before the next one. */
  function Parse(line: bytes): Result<XFile> {
    var k := Position(line, ' ');
    if k == |line| then Err
    else
      var rest := line[k + 1..];
      match (Unescape(line[..k]), Stoi(rest[..Position(rest, ' ')]))
      case (Ok(name), Some(z)) => StoiInRange(rest[..Position(rest, ' ')]); Ok(XFile(name, Unsigned(z)))
      case _ => Err
  }

  lemma {:induction false} StoiInRange(s: bytes)
    ensures Stoi(s).Some? ==> -0x8000_0000 <= Stoi(s).value < 0x8000_0000
  {
  }

  lemma {:induction false} AllDigits(s: string)
    requires forall i | 0 <= i < |s| :: IsDigit(s[i])
    ensures DigitsIn(s) == |s|
  {
    if s != [] { AllDigits(s[1..]); }
  }

  lemma {:induction false} StoiPrinted(z: int)
    requires -0x8000_0000 <= z < 0x8000_0000
    ensures Stoi(Printed(z)) == Some(z) && forall c | c in Printed(z) :: c > ' '
  {
    DecimalDigits(if z < 0 then -z else z);
    SignedDigits(z < 0, Decimal(if z < 0 then -z else z));
  }

  lemma {:induction false} SignedDigits(negative: bool, digits: bytes)
    requires digits != [] && (forall i | 0 <= i < |digits| :: IsDigit(digits[i])) && Number(digits) <= 0x8000_0000
    requires Number(digits) == 0x8000_0000 ==> negative
    ensures var s := if negative then ['-'] + digits else digits;
            var n: int := Number(digits);
            Stoi(s) == Some(if negative then -n else n) && forall c | c in s :: c > ' '
  {
    AllDigits(digits);
    assert digits[..|digits|] == digits && IsDigit(digits[0]);
    var s := if negative then ['-'] + digits else digits;
    assert negative ==> s[1..] == digits;
    assert SkipSpace(s) == s;
  }

  /** A line is parsed to what it was made of, and has neither a newline nor a NUL inside. */
  lemma {:induction false} LineRoundTrip(f: XFile)
    ensures Parse(LineOf(f)) == Ok(f) && '\n' !in LineOf(f) && '\0' !in LineOf(f)
  {
    var name, status := Escape.Escape(Pipe, f.name), Printed(Signed(f.status));
    EscapedAlphabet(Pipe, f.name);
    assert ' ' !in name && '\n' !in name && '\0' !in name by {
      assert MustEscape(Pipe, ' ') && MustEscape(Pipe, '\n') && MustEscape(Pipe, '\0');
    }
    RoundTrip(Pipe, f.name);
    StoiPrinted(Signed(f.status));
    PositionFirst(name, ' ', status);
    PositionNone(status, ' ');
    var line := LineOf(f);
    assert line[..|name|] == name && line[|name| + 1..] == status && status[..|status|] == status;
  }

  // The two ends of the pipe

  function Lines(files: seq<XFile>): bytes {
    if files == [] then [] else LineOf(files[0]) + ['\n'] + Lines(files[1..])
  }

  /** The number of bytes that printf says it wrote. */
  function Count(f: XFile): nat { |LineOf(f)| + 1 }

  predicate Short(f: XFile) { f.name == [] && f.status < 10 }

  /** The writer takes a short line for an error; only an empty name with a one-digit status is that short. */
  lemma {:induction false} ShortLine(f: XFile)
    ensures Count(f) < 4 <==> Short(f)
  {
    var z := Signed(f.status);
    DecimalDigits(if z < 0 then -z else z);
    EscapeNonEmpty(f.name);
    DecimalSize(if z < 0 then -z else z);
  }

  lemma {:induction false} EscapeNonEmpty(s: bytes)
    ensures Escape.Escape(Pipe, s) == [] <==> s == []
  {
  }

  lemma {:induction false} DecimalSize(n: nat)
    ensures |Decimal(n)| == 1 <==> n < 10
  {
    DecimalDigits(n / 10);
  }

  lemma {:induction false} LinesAppend(files: seq<XFile>, f: XFile)
    ensures Lines(files + [f]) == Lines(files) + (LineOf(f) + ['\n'])
  {
    if files == [] {
      assert files + [f] == [f] && [f][1..] == [];
    } else {
      assert (files + [f])[1..] == files[1..] + [f] && (files + [f])[0] == files[0];
      LinesAppend(files[1..], f);
    }
  }

  lemma {:induction false} LinesNext(files: seq<XFile>, i: nat)
    requires i < |files|
    ensures Lines(files[..i + 1]) == Lines(files[..i]) + (LineOf(files[i]) + ['\n'])
  {
    LinesAppend(files[..i], files[i]);
    TakeNext(files, i);
  }

  lemma {:induction false} TakeNext<T>(s: seq<T>, i: nat)
    requires i < |s|
    ensures s[..i + 1] == s[..i] + [s[i]]
  {
  }

  /** Writes one line. */
  method SendLine(f: XFile) returns (r: Result<bytes>)
    ensures r == if Short(f) then Err else Ok(LineOf(f) + ['\n'])
  {
    ShortLine(f);
    var name := EscapeString(Pipe, f.name);
    var line := name + [' '] + Printed(Signed(f.status)) + ['\n'];
    if |line| < 4 { return Err; }
    return Ok(line);
  }

  /** Writes the list; a line that is too short is taken for an error. */
  method Send(files: seq<XFile>) returns (r: Result<bytes>)
    ensures r.Err? <==> exists i :: 0 <= i < |files| && Short(files[i])
    ensures r.Ok? ==> r.value == Lines(files)
  {
    hide Sent, LineOf;
    var out: bytes := [];
    NothingSent(files);
    for i := 0 to |files|
      invariant Sent(out, files, i) && forall k | 0 <= k < i :: !Short(files[k])
    {
      var line := SendLine(files[i]);
      if line.Err? { return Err; }
      SendNext(out, files, i);
      out := out + line.value;
    }
    AllSent(out, files);
    return Ok(out);
  }

  ghost predicate Sent(out: bytes, files: seq<XFile>, i: nat) {
    i <= |files| && out == Lines(files[..i])
  }

  lemma {:induction false} NothingSent(files: seq<XFile>)
    ensures Sent([], files, 0)
  {
  }

  lemma {:induction false} AllSent(out: bytes, files: seq<XFile>)
    requires Sent(out, files, |files|)
    ensures out == Lines(files)
  {
    assert files[..|files|] == files;
  }

  lemma {:induction false} SendNext(out: bytes, files: seq<XFile>, i: nat)
    requires Sent(out, files, i) && i < |files|
    ensures Sent(out + (LineOf(files[i]) + ['\n']), files, i + 1)
  {
    LinesNext(files, i);
  }

  /** A line as a C string: it ends at the first NUL. */
  function CString(line: bytes): bytes {
    line[..Position(line, '\0')]
  }

  /** getline without its newline, as a C string, and what it leaves. */
  function FirstOf(text: bytes): bytes {
    CString(text[..Position(text, '\n')])
  }

  function RestOf(text: bytes): (r: bytes)
    ensures text != [] ==> |r| < |text|
  {
    var k := Position(text, '\n');
    if k < |text| then text[k + 1..] else []
  }

  /** What reading lines from a text comes to. */
  function Files(text: bytes): Result<seq<XFile>>
    decreases |text|
  {
    if text == [] then Ok([])
    else match Parse(FirstOf(text))
      case Err => Err
      case Ok(f) => Joined([f], Files(RestOf(text)))
  }

  /** Any list of files, with any names and statuses, goes through the pipe unchanged. */
  lemma {:induction false} PipeRoundTrip(files: seq<XFile>)
    ensures Files(Lines(files)) == Ok(files)
  {
    if files != [] {
      hide Files, LineOf;
      PipeRoundTrip(files[1..]);
      FirstFile(files[0], Lines(files[1..]));
      assert [files[0]] + files[1..] == files;
    }
  }

  lemma {:induction false} FirstFile(f: XFile, rest: bytes)
    ensures Files(LineOf(f) + ['\n'] + rest) == Joined([f], Files(rest))
  {
    hide Files, LineOf;
    LineRoundTrip(f);
    PositionNone(LineOf(f), '\0');
    assert CString(LineOf(f)) == LineOf(f);
    FirstLine(LineOf(f), rest);
  }

  lemma {:induction false} FirstLine(line: bytes, rest: bytes)
    requires '\n' !in line
    ensures Files(line + ['\n'] + rest) ==
            match Parse(CString(line))
            case Err => Err
            case Ok(f) => Joined([f], Files(rest))
  {
    PositionFirst(line, '\n', rest);
    var text := line + ['\n'] + rest;
    assert text[..|line|] == line && text[|line| + 1..] == rest;
  }

  /** Reads the list line by line. */
  method Receive(text: bytes) returns (r: Result<seq<XFile>>)
    ensures r == Files(text)
  {
    var files: seq<XFile>, rest := [], text;
    JoinedEmpty(Files(text));
    while rest != []
      invariant Joined(files, Files(rest)) == Files(text)
      decreases |rest|
    {
      var f := Parse(FirstOf(rest));
      FilesStep(rest);
      if f.Err? { return Err; }
      JoinedTwice(files, [f.value], Files(RestOf(rest)));
      files, rest := files + [f.value], RestOf(rest);
    }
    JoinedNone(files);
    return Ok(files);
  }

  lemma {:induction false} FilesStep(text: bytes)
    requires text != []
    ensures Files(text) ==
            match Parse(FirstOf(text))
            case Err => Err
            case Ok(f) => Joined([f], Files(RestOf(text)))
  {
  }

  // What the reader takes

  /** An escaped name, a space and a number, up to the end of the line or another space. */
  ghost predicate Shape(line: bytes, f: XFile, a: bytes, b: bytes, rest: bytes) {
    && line == a + [' '] + b + rest && ' ' !in a && ' ' !in b && (rest != [] ==> rest[0] == ' ')
    && Unescape(a) == Ok(f.name) && Stoi(b) == Some(Signed(f.status))
  }

  lemma {:induction false} ShapeParses(line: bytes, f: XFile, a: bytes, b: bytes, rest: bytes)
    requires Shape(line, f, a, b, rest)
    ensures Parse(line) == Ok(f)
  {
    hide Unescape, Stoi;
    assert line == a + [' '] + (b + rest);
    PositionFirst(a, ' ', b + rest);
    var more := line[|a| + 1..];
    assert line[..|a|] == a && more == b + rest;
    if rest == [] { assert b + rest == b; PositionNone(b, ' '); } else { PositionSkips(b, ' ', rest); }
    assert more[..|b|] == b;
  }

  lemma {:induction false} CutAtSpace(line: bytes)
    ensures var k := Position(line, ' ');
            ' ' !in line[..k] && (k < |line| ==> line == line[..k] + [' '] + line[k + 1..])
  {
  }

  lemma {:induction false} SignedUnsigned(z: int)
    requires -0x8000_0000 <= z < 0x8000_0000
    ensures Signed(Unsigned(z)) == z
  {
  }

  lemma {:induction false} ParsedShape(line: bytes, f: XFile) returns (a: bytes, b: bytes, rest: bytes)
    requires Parse(line) == Ok(f)
    ensures Shape(line, f, a, b, rest)
  {
    hide Unescape, Stoi, Position, Signed, Unsigned;
    var k := Position(line, ' ');
    var more := line[k + 1..];
    var m := Position(more, ' ');
    a, b, rest := line[..k], more[..m], more[m..];
    StoiInRange(b);
    SignedUnsigned(Stoi(b).value);
    CutAtSpace(line);
    CutAtSpace(more);
    assert more == b + rest;
    assert a + [' '] + b + rest == a + [' '] + (b + rest);
  }

  /** A line is taken exactly if it has that shape. */
  lemma {:induction false} ParseExact(line: bytes, f: XFile)
    ensures Parse(line) == Ok(f) <==> exists a: bytes, b: bytes, rest: bytes :: Shape(line, f, a, b, rest)
  {
    hide Shape, Parse;
    if Parse(line) == Ok(f) {
      var a, b, rest := ParsedShape(line, f);
    }
    if a: bytes, b: bytes, rest: bytes :| Shape(line, f, a, b, rest) { ShapeParses(line, f, a, b, rest); }
  }

  function Terminated(lines: seq<bytes>): bytes {
    if lines == [] then [] else lines[0] + ['\n'] + Terminated(lines[1..])
  }

  /** The lines are these files, one by one. */
  ghost predicate AreFiles(lines: seq<bytes>, files: seq<XFile>) {
    |lines| == |files| && forall i | 0 <= i < |lines| :: Parse(CString(lines[i])) == Ok(files[i])
  }

  lemma {:induction false} AreFilesCons(line: bytes, lines: seq<bytes>, files: seq<XFile>)
    ensures AreFiles([line] + lines, files) <==>
            files != [] && Parse(CString(line)) == Ok(files[0]) && AreFiles(lines, files[1..])
  {
    hide Parse, CString;
    var all := [line] + lines;
    if files != [] && |all| == |files| {
      assert forall i | 0 <= i < |lines| :: all[i + 1] == lines[i] && files[i + 1] == files[1..][i];
      if AreFiles(lines, files[1..]) && Parse(CString(line)) == Ok(files[0]) {
        forall i | 0 <= i < |all| ensures Parse(CString(all[i])) == Ok(files[i]) {
          if i > 0 { assert all[i] == lines[i - 1] && files[i] == files[1..][i - 1]; }
        }
      }
    }
  }

  lemma {:induction false} JoinedIs(f: XFile, r: Result<seq<XFile>>, files: seq<XFile>)
    ensures Joined([f], r) == Ok(files) <==> files != [] && files[0] == f && r == Ok(files[1..])
  {
    if files != [] { assert files == [files[0]] + files[1..]; }
  }

  /** Lines are read exactly if each of them is a file, and then as these files. */
  lemma {:induction false} ReceivedExactly(lines: seq<bytes>, files: seq<XFile>)
    requires forall i | 0 <= i < |lines| :: '\n' !in lines[i]
    ensures Files(Terminated(lines)) == Ok(files) <==> AreFiles(lines, files)
  {
    if lines != [] {
      hide Files, Parse, CString, AreFiles;
      FirstLine(lines[0], Terminated(lines[1..]));
      ReceivedExactly(lines[1..], if files == [] then [] else files[1..]);
      assert lines == [lines[0]] + lines[1..];
      AreFilesCons(lines[0], lines[1..], files);
      var f := Parse(CString(lines[0]));
      if f.Ok? { JoinedIs(f.value, Files(Terminated(lines[1..])), files); }
    }
  }
}
