/**
 What the reader of STOMP frames takes (stomp/Stomp.cc), for any input and not only for frames that were written here:
 lines that end in a carriage return or not, empty lines between frames, repeated headers, and all errors.
 */
module StompGrammar {
  import opened Wrappers
  import opened Text
  import opened Stomp

  // Headers

  /** A part of an escaped header that stands for one character. */
  predicate Stands(part: string, c: char) {
    || (part == [c] && c != '\\')
    || (part == "\\r" && c == '\r') || (part == "\\n" && c == '\n')
    || (part == "\\c" && c == ':') || (part == "\\\\" && c == '\\')
  }

  ghost predicate AllStand(parts: seq<string>, t: string) {
    |parts| == |t| && forall i | 0 <= i < |t| :: Stands(parts[i], t[i])
  }

  function Concat(parts: seq<string>): string {
    if parts == [] then "" else parts[0] + Concat(parts[1..])
  }

  lemma {:induction false} StandsRead(part: string, c: char, rest: string)
    requires Stands(part, c)
    ensures Unescape(part + rest) == Joined([c], Unescape(rest))
  {
    var s := part + rest;
    assert s[0] == part[0] && s[|part|..] == rest;
    if |part| == 2 { assert s[1] == part[1]; }
  }

  lemma {:induction false} PartsRead(parts: seq<string>, t: string)
    requires AllStand(parts, t)
    ensures Unescape(Concat(parts)) == Ok(t)
  {
    if parts != [] {
      PartsRead(parts[1..], t[1..]);
      StandsRead(parts[0], t[0], Concat(parts[1..]));
      assert [t[0]] + t[1..] == t;
    }
  }

  lemma {:induction false} FirstPart(s: string) returns (n: nat, c: char)
    requires Unescape(s).Ok? && s != ""
    ensures 0 < n <= |s| && Stands(s[..n], c) && Unescape(s[n..]).Ok?
    ensures Unescape(s).value == [c] + Unescape(s[n..]).value
  {
    if s[0] != '\\' {
      n, c := 1, s[0];
      assert s[..1] == [s[0]];
    } else {
      n, c := 2, Unescaped(s[1]).value;
      assert s[..2] == [s[0], s[1]];
    }
  }

  lemma {:induction false} AllStandCons(part: string, parts: seq<string>, c: char, t: string)
    requires Stands(part, c) && AllStand(parts, t)
    ensures AllStand([part] + parts, [c] + t) && Concat([part] + parts) == part + Concat(parts)
  {
    hide Stands;
    assert ([part] + parts)[1..] == parts;
  }

  lemma {:induction false} ReadParts(s: string) returns (parts: seq<string>)
    requires Unescape(s).Ok?
    ensures AllStand(parts, Unescape(s).value) && Concat(parts) == s
    decreases |s|
  {
    parts := [];
    if s != "" {
      hide AllStand, Stands, Unescape, Concat;
      var n, c := FirstPart(s);
      var more := ReadParts(s[n..]);
      parts := [s[..n]] + more;
      AllStandCons(s[..n], more, c, Unescape(s[n..]).value);
      assert s == s[..n] + s[n..];
    }
  }

  /** A header is unescaped exactly if it is made of parts that stand for characters, and then to these. */
  lemma {:induction false} UnescapeExact(s: string, t: string)
    ensures Unescape(s) == Ok(t) <==> exists parts :: AllStand(parts, t) && Concat(parts) == s
  {
    if Unescape(s) == Ok(t) {
      var parts := ReadParts(s);
    }
    if parts :| AllStand(parts, t) && Concat(parts) == s { PartsRead(parts, t); }
  }

  /** An escaped key, a colon and an escaped value; a length has to be one. */
  ghost predicate HeaderShape(line: string, key: string, value: string, a: string, b: string) {
    && line == a + ":" + b && ':' !in a && Unescape(a) == Ok(key) && Unescape(b) == Ok(value)
    && (key == CONTENT_LENGTH ==> ParseContentLength(value).Some?)
  }

  lemma {:induction false} ShapeIsRead(line: string, key: string, value: string, a: string, b: string)
    requires HeaderShape(line, key, value, a, b)
    ensures ReadHeader(line) == Ok((key, value))
  {
    hide Unescape, ParseContentLength;
    PositionFirst(a, ':', b);
    assert line[..|a|] == a && line[|a| + 1..] == b;
  }

  lemma {:induction false} ReadIsShape(line: string, key: string, value: string) returns (a: string, b: string)
    requires ReadHeader(line) == Ok((key, value))
    ensures HeaderShape(line, key, value, a, b)
  {
    hide Unescape, ParseContentLength;
    var k := Position(line, ':');
    a, b := line[..k], line[k + 1..];
    assert line == a + ":" + b;
  }

  /** A line is a header exactly if it has that shape. */
  lemma {:induction false} HeaderExact(line: string, key: string, value: string)
    ensures ReadHeader(line) == Ok((key, value)) <==> exists a, b :: HeaderShape(line, key, value, a, b)
  {
    hide HeaderShape, ReadHeader;
    if ReadHeader(line) == Ok((key, value)) {
      var a, b := ReadIsShape(line, key, value);
    }
    if a, b :| HeaderShape(line, key, value, a, b) { ShapeIsRead(line, key, value, a, b); }
  }

  /** The length of a body is a decimal number that a signed 64-bit integer holds. */
  lemma {:induction false} LengthOfDecimal(n: nat)
    ensures ParseContentLength(Decimal(n)) == if n <= MAX_LENGTH then Some(n) else None
  {
    DecimalDigits(n);
    var digits := Decimal(n);
    assert IsDigit(digits[0]);
    assert SkipSpace(digits) == digits;
  }

  // Frames on the wire

  function Eol(cr: bool): string { if cr then "\r\n" else "\n" }

  /** A line and how it ends. */
  datatype Line = Line(text: string, cr: bool)

  /** The text of a line is its own: it has no newline and does not end in a carriage return. */
  ghost predicate Plain(line: string) {
    '\n' !in line && StripCr(line) == line
  }

  function Wire(lines: seq<Line>): string {
    if lines == [] then "" else lines[0].text + Eol(lines[0].cr) + Wire(lines[1..])
  }

  function Blank(crs: seq<bool>): string {
    if crs == [] then "" else Eol(crs[0]) + Blank(crs[1..])
  }

  /** A line with its end, in front of anything. */
  lemma {:induction false} LineAndRest(line: string, cr: bool, more: string)
    requires Plain(line)
    ensures var text := line + Eol(cr) + more; var k := Position(text, '\n');
      k < |text| && StripCr(text[..k]) == line && text[k + 1..] == more
  {
    var full := if cr then line + "\r" else line;
    var text := line + Eol(cr) + more;
    assert text == full + "\n" + more;
    PositionFirst(full, '\n', more);
    assert text[..|full|] == full && text[|full| + 1..] == more;
    if cr { assert full[..|full| - 1] == line; }
  }

  lemma {:induction false} EmptyLine(cr: bool, more: string)
    ensures Read(Eol(cr) + more) == Read(more)
  {
    LineAndRest("", cr, more);
    assert "" + Eol(cr) + more == Eol(cr) + more;
  }

  lemma {:induction false} BlankRead(crs: seq<bool>, more: string)
    ensures Read(Blank(crs) + more) == Read(more)
  {
    hide Read, Eol;
    if crs == [] {
      assert Blank(crs) + more == more;
    } else {
      BlankRead(crs[1..], more);
      EmptyLine(crs[0], Blank(crs[1..]) + more);
      Associative(Eol(crs[0]), Blank(crs[1..]), more);
    }
  }

  lemma {:induction false} CommandLine(command: string, cr: bool, more: string)
    requires IsCommand(command)
    ensures Read(command + Eol(cr) + more) == ReadHeaders(Message(command, map[], ""), more, None)
  {
    assert '\n' !in command && command[|command| - 1] != '\r' by { assert IsWord(command[|command| - 1]); }
    LineAndRest(command, cr, more);
  }

  lemma {:induction false} HeaderLine(msg: Message, line: string, cr: bool, more: string, length: Option<nat>)
    requires Plain(line) && line != ""
    ensures ReadHeaders(msg, line + Eol(cr) + more, length) ==
            match ReadHeader(line)
            case Err => Err
            case Ok((key, value)) =>
              ReadHeaders(msg.(headers := msg.headers[key := value]), more,
                          if key == CONTENT_LENGTH then ParseContentLength(value) else length)
  {
    LineAndRest(line, cr, more);
  }

  /** The headers that lines give, one after the other; of a repeated key the last line counts. */
  function Collected(base: map<string, string>, pairs: seq<(string, string)>): map<string, string>
    decreases |pairs|
  {
    if pairs == [] then base else Collected(base[pairs[0].0 := pairs[0].1], pairs[1..])
  }

  lemma {:induction false} CollectedIs(base: map<string, string>, pairs: seq<(string, string)>, key: string)
    ensures key in Collected(base, pairs) <==> key in base || exists i :: 0 <= i < |pairs| && pairs[i].0 == key
    ensures forall i | 0 <= i < |pairs| && pairs[i].0 == key && (forall j | i < j < |pairs| :: pairs[j].0 != key) ::
              key in Collected(base, pairs) && Collected(base, pairs)[key] == pairs[i].1
    ensures (forall i | 0 <= i < |pairs| :: pairs[i].0 != key) && key in base ==>
              Collected(base, pairs)[key] == base[key]
    decreases |pairs|
  {
    if pairs != [] {
      var more := pairs[1..];
      CollectedIs(base[pairs[0].0 := pairs[0].1], more, key);
      assert forall i | 0 <= i < |more| :: more[i] == pairs[i + 1];
      forall i | 0 <= i < |pairs| && pairs[i].0 == key && (forall j | i < j < |pairs| :: pairs[j].0 != key)
        ensures key in Collected(base, pairs) && Collected(base, pairs)[key] == pairs[i].1
      {
        if i > 0 { assert more[i - 1].0 == key; }
      }
    }
  }

  /** The length that the last such header gives. */
  function LengthIn(headers: map<string, string>): Option<nat> {
    if CONTENT_LENGTH in headers then ParseContentLength(headers[CONTENT_LENGTH]) else None
  }

  /** The lines are headers, with these keys and values. */
  ghost predicate AreHeaders(lines: seq<Line>, pairs: seq<(string, string)>) {
    |lines| == |pairs| && forall i | 0 <= i < |lines| ::
      Plain(lines[i].text) && lines[i].text != "" && ReadHeader(lines[i].text) == Ok(pairs[i])
  }

  lemma {:induction false} WireCons(lines: seq<Line>, more: string)
    requires lines != []
    ensures Wire(lines) + more == lines[0].text + Eol(lines[0].cr) + (Wire(lines[1..]) + more)
  {
    hide Eol;
    Associative(lines[0].text + Eol(lines[0].cr), Wire(lines[1..]), more);
  }

  lemma {:induction false} AreHeadersTail(lines: seq<Line>, pairs: seq<(string, string)>)
    requires AreHeaders(lines, pairs) && lines != []
    ensures Plain(lines[0].text) && lines[0].text != "" && pairs != [] && ReadHeader(lines[0].text) == Ok(pairs[0])
    ensures AreHeaders(lines[1..], pairs[1..])
  {
    hide Plain, ReadHeader;
  }

  lemma {:induction false} HeaderLines(msg: Message, lines: seq<Line>, pairs: seq<(string, string)>, more: string)
    requires AreHeaders(lines, pairs)
    ensures var headers := Collected(msg.headers, pairs);
      ReadHeaders(msg, Wire(lines) + more, LengthIn(msg.headers)) ==
      ReadHeaders(msg.(headers := headers), more, LengthIn(headers))
    decreases |lines|
  {
    if lines == [] {
      assert Wire(lines) + more == more && pairs == [];
    } else {
      AreHeadersTail(lines, pairs);
      hide ReadHeaders, ReadHeader, ParseContentLength, Plain, Eol, AreHeaders, Wire;
      var msg' := msg.(headers := msg.headers[pairs[0].0 := pairs[0].1]);
      HeaderLine(msg, lines[0].text, lines[0].cr, Wire(lines[1..]) + more, LengthIn(msg.headers));
      WireCons(lines, more);
      HeaderLines(msg', lines[1..], pairs[1..], more);
    }
  }

  /** Everything up to the headers of a frame. */
  function Beginning(crs: seq<bool>, command: string, cr: bool, lines: seq<Line>): string {
    Blank(crs) + (command + Eol(cr) + Wire(lines))
  }

  lemma {:induction false} BeginningRead(crs: seq<bool>, command: string, cr: bool, lines: seq<Line>,
                                         pairs: seq<(string, string)>, more: string)
    requires IsCommand(command) && AreHeaders(lines, pairs)
    ensures var headers := Collected(map[], pairs);
      Read(Beginning(crs, command, cr, lines) + more) ==
      ReadHeaders(Message(command, headers, ""), more, LengthIn(headers))
  {
    hide Read, ReadHeaders, AreHeaders, Eol, Wire, Blank, Collected;
    var text := command + Eol(cr) + (Wire(lines) + more);
    assert Beginning(crs, command, cr, lines) + more == Blank(crs) + text;
    BlankRead(crs, text);
    CommandLine(command, cr, Wire(lines) + more);
    HeaderLines(Message(command, map[], ""), lines, pairs, more);
  }

  /** A frame is read whatever its lines end in, whatever empty lines come before it and however often a key comes. */
  lemma {:induction false} FrameIsRead(crs: seq<bool>, command: string, cr: bool, lines: seq<Line>,
                                       pairs: seq<(string, string)>, last: bool, body: string, rest: string)
    requires IsCommand(command) && AreHeaders(lines, pairs)
    requires match LengthIn(Collected(map[], pairs)) case Some(n) => n == |body| case None => NUL !in body
    ensures Read(Beginning(crs, command, cr, lines) + (Eol(last) + (body + [NUL] + rest))) ==
            Ok((Message(command, Collected(map[], pairs), body), rest))
  {
    hide Read, AreHeaders, Collected, Beginning;
    var headers, tail := Collected(map[], pairs), body + [NUL] + rest;
    BeginningRead(crs, command, cr, lines, pairs, Eol(last) + tail);
    LineAndRest("", last, tail);
    assert "" + Eol(last) + tail == Eol(last) + tail;
    BodyRead(Message(command, headers, ""), body, rest, LengthIn(headers));
  }

  // Errors

  lemma {:induction false} BadCommand(crs: seq<bool>, line: string, cr: bool, more: string)
    requires Plain(line) && line != "" && !IsCommand(line)
    ensures Read(Blank(crs) + (line + Eol(cr) + more)).Err?
  {
    BlankRead(crs, line + Eol(cr) + more);
    LineAndRest(line, cr, more);
  }

  /** After any headers, a line that is none, ended or not, and a header at the end of the stream are errors. */
  lemma {:induction false} BadHeader(crs: seq<bool>, command: string, cr: bool, lines: seq<Line>,
                                     pairs: seq<(string, string)>, line: string, last: bool, more: string)
    requires IsCommand(command) && AreHeaders(lines, pairs) && Plain(line) && line != ""
    ensures ReadHeader(line).Err? ==> Read(Beginning(crs, command, cr, lines) + (line + Eol(last) + more)).Err?
    ensures Read(Beginning(crs, command, cr, lines) + line).Err?
  {
    hide Read, AreHeaders, Collected, Beginning, ReadHeader;
    BeginningRead(crs, command, cr, lines, pairs, line + Eol(last) + more);
    BeginningRead(crs, command, cr, lines, pairs, line);
    HeaderLine(Message(command, Collected(map[], pairs), ""), line, last, more, LengthIn(Collected(map[], pairs)));
    PositionNone(line, '\n');
    assert line[..|line|] == line;
  }

  /** With a length in the headers, a body that is too short or not followed by a NUL is an error. */
  lemma {:induction false} BadBody(crs: seq<bool>, command: string, cr: bool, lines: seq<Line>,
                                   pairs: seq<(string, string)>, last: bool, more: string)
    requires IsCommand(command) && AreHeaders(lines, pairs) && LengthIn(Collected(map[], pairs)).Some?
    ensures var n := LengthIn(Collected(map[], pairs)).value;
      |more| <= n || more[n] != NUL ==> Read(Beginning(crs, command, cr, lines) + (Eol(last) + more)).Err?
  {
    hide Read, AreHeaders, Collected, Beginning;
    BeginningRead(crs, command, cr, lines, pairs, Eol(last) + more);
    LineAndRest("", last, more);
    assert "" + Eol(last) + more == Eol(last) + more;
  }

  lemma {:induction false} EscapeExamples()
    ensures Escape("a:b") == "a\\cb" && Escape("c\n") == "c\\n"
  {
    assert "a:b"[1..] == ":b" && ":b"[1..] == "b" && "b"[1..] == "" && "c\n"[1..] == "\n" && "\n"[1..] == "";
    assert Escape("b") == "b" && Escape(":b") == "\\cb";
    assert Escape("\n") == "\\n";
  }

  /** A frame with one header. */
  lemma {:induction false} WriteExample()
    ensures var headers := map["a:b" := "c\n"];
            Write(Message("MSG", headers, "hi"), ["a:b"]) == "MSG\na\\cb:c\\n\n\nhi" + [NUL]
  {
    hide Escape;
    EscapeExamples();
    var headers, keys := map["a:b" := "c\n"], ["a:b"];
    assert keys[1..] == [] && WriteHeaders(headers, keys[1..]) == "";
    assert WriteHeaders(headers, keys) == "a\\cb" + ":" + "c\\n" + "\n" + "";
    assert "a\\cb" + ":" + "c\\n" + "\n" + "" == "a\\cb:c\\n\n";
  }
}
