/**
 STOMP frames as plugins exchange them (stomp/Stomp.cc): escaping of headers, writing a frame, and the reader, a
 state machine over the lines of a stream.
 */
module Stomp {
  import opened Wrappers
  import opened Text

  datatype Message = Message(command: string, headers: map<string, string>, body: string)

  const EMPTY := Message("", map[], "")

  const CONTENT_LENGTH := "content-length"

  const NUL: char := '\0'

  // Escaping

  function Escaped(c: char): string {
    match c
    case '\r' => "\\r"
    case '\n' => "\\n"
    case ':' => "\\c"
    case '\\' => "\\\\"
    case _ => [c]
  }

  function Escape(s: string): string {
    if s == "" then "" else Escaped(s[0]) + Escape(s[1..])
  }

  function Unescaped(c: char): Option<char> {
    match c
    case 'r' => Some('\r')
    case 'n' => Some('\n')
    case 'c' => Some(':')
    case '\\' => Some('\\')
    case _ => None
  }

  function Unescape(s: string): Result<string> {
    if s == "" then Ok("")
    else if s[0] != '\\' then
      match Unescape(s[1..])
      case Err => Err
      case Ok(t) => Ok([s[0]] + t)
    else if |s| == 1 || Unescaped(s[1]).None? then Err
    else
      match Unescape(s[2..])
      case Err => Err
      case Ok(t) => Ok([Unescaped(s[1]).value] + t)
  }

  lemma {:induction false} UnescapeConcat(c: char, t: string)
    ensures Unescape(Escaped(c) + t) ==
            match Unescape(t)
            case Err => Err
            case Ok(u) => Ok([c] + u)
  {
    var s := Escaped(c) + t;
    if |Escaped(c)| == 1 { assert s[1..] == t; } else { assert s[2..] == t; }
  }

  /** Any string survives escaping, and what is escaped fits into a header. */
  lemma {:induction false} EscapeRoundTrip(s: string)
    ensures Unescape(Escape(s)) == Ok(s)
    ensures ':' !in Escape(s) && '\n' !in Escape(s) && '\r' !in Escape(s)
  {
    if s != "" {
      EscapeRoundTrip(s[1..]);
      UnescapeConcat(s[0], Escape(s[1..]));
      assert [s[0]] + s[1..] == s;
    }
  }

  lemma {:induction false} EscapeAppend(s: string, c: char)
    ensures Escape(s + [c]) == Escape(s) + Escaped(c)
  {
    if s == "" {
      assert s + [c] == [c] && [c][1..] == "";
    } else {
      assert (s + [c])[1..] == s[1..] + [c];
      EscapeAppend(s[1..], c);
    }
  }

  method EscapeHeader(s: string) returns (out: string)
    ensures out == Escape(s)
  {
    out := "";
    for i := 0 to |s|
      invariant out == Escape(s[..i])
    {
      EscapeAppend(s[..i], s[i]);
      assert s[..i + 1] == s[..i] + [s[i]];
      out := out + Escaped(s[i]);
    }
    assert s[..|s|] == s;
  }

  method UnescapeHeader(s: string) returns (r: Result<string>)
    ensures r == Unescape(s)
  {
    var out, i := "", 0;
    assert s[0..] == s;
    if Unescape(s).Ok? { assert "" + Unescape(s).value == Unescape(s).value; }
    while i < |s|
      invariant i <= |s| && Unescape(s) == Joined(out, Unescape(s[i..]))
    {
      assert s[i..][1..] == s[i + 1..];
      var c := s[i];
      if c == '\\' {
        i := i + 1;
        if i == |s| { return Err; }
        assert s[i - 1..][2..] == s[i + 1..];
        var u := Unescaped(s[i]);
        if u.None? { return Err; }
        c := u.value;
      }
      JoinedTwice(out, [c], Unescape(s[i + 1..]));
      out, i := out + [c], i + 1;
    }
    assert out + "" == out;
    return Ok(out);
  }

  function StripCr(line: string): string {
    if line != "" && line[|line| - 1] == '\r' then line[..|line| - 1] else line
  }

  // Numbers

  const MAX_LENGTH := 0x7FFF_FFFF_FFFF_FFFF

  /** A decimal number with leading space and a sign as stoll takes it, neither negative nor too large. */
  function ParseContentLength(str: string): Option<nat> {
    var s := SkipSpace(str);
    var negative := s != "" && s[0] == '-';
    var digits := if s != "" && (s[0] == '-' || s[0] == '+') then s[1..] else s;
    if digits == "" || exists i :: 0 <= i < |digits| && !IsDigit(digits[i]) then None
    else if Number(digits) > MAX_LENGTH || (negative && Number(digits) > 0) then None
    else Some(Number(digits))
  }

  // Reading

  /** What follows the delimiter. */
  function After(text: string, k: nat): string {
    if k < |text| then text[k + 1..] else ""
  }

  predicate IsWord(c: char) { 'A' <= c <= 'Z' || 'a' <= c <= 'z' || '0' <= c <= '9' || c == '_' }

  predicate IsCommand(line: string) {
    line != "" && forall i | 0 <= i < |line| :: IsWord(line[i])
  }

  /** A header line, and what it says about the length of the body. */
  function ReadHeader(line: string): Result<(string, string)> {
    var k := Position(line, ':');
    if k == |line| then Err
    else match (Unescape(line[..k]), Unescape(line[k + 1..]))
      case (Ok(key), Ok(value)) =>
        if key == CONTENT_LENGTH && ParseContentLength(value).None? then Err else Ok((key, value))
      case _ => Err
  }

  function ReadBody(msg: Message, text: string, length: Option<nat>): Result<(Message, string)> {
    match length
    case Some(n) => if |text| <= n || text[n] != NUL then Err else Ok((msg.(body := text[..n]), text[n + 1..]))
    case None => var k := Position(text, NUL); Ok((msg.(body := text[..k]), After(text, k)))
  }

  function ReadHeaders(msg: Message, text: string, length: Option<nat>): Result<(Message, string)>
    decreases |text|
  {
    var k := Position(text, '\n');
    var line := StripCr(text[..k]);
    if line == "" then ReadBody(msg, After(text, k), length)
    else match ReadHeader(line)
      case Err => Err
      case Ok((key, value)) =>
        if k == |text| then Err
        else ReadHeaders(msg.(headers := msg.headers[key := value]), text[k + 1..],
                         if key == CONTENT_LENGTH then ParseContentLength(value) else length)
  }

  /** A message and what follows it; at the end of the stream, an empty message. */
  function Read(text: string): Result<(Message, string)>
    decreases |text|
  {
    var k := Position(text, '\n');
    var line := StripCr(text[..k]);
    if k == |text| then Ok((EMPTY, ""))
    else if line == "" then Read(text[k + 1..])
    else if !IsCommand(line) then Err
    else ReadHeaders(Message(line, map[], ""), text[k + 1..], None)
  }

  // Writing

  predicate Known(keys: seq<string>, headers: map<string, string>) {
    forall i | 0 <= i < |keys| :: keys[i] in headers
  }

  function WriteHeaders(headers: map<string, string>, keys: seq<string>): string
    requires Known(keys, headers)
  {
    if keys == [] then ""
    else Escape(keys[0]) + ":" + Escape(headers[keys[0]]) + "\n" + WriteHeaders(headers, keys[1..])
  }

  /** The headers are written in the order of keys. */
  function Write(msg: Message, keys: seq<string>): string
    requires Known(keys, msg.headers)
  {
    msg.command + "\n" + WriteHeaders(msg.headers, keys) + "\n" + msg.body + [NUL]
  }

  lemma {:induction false} WriteHeadersAppend(headers: map<string, string>, keys: seq<string>, key: string)
    requires Known(keys, headers) && key in headers
    ensures Known(keys + [key], headers)
    ensures WriteHeaders(headers, keys + [key]) ==
            WriteHeaders(headers, keys) + (Escape(key) + ":" + Escape(headers[key]) + "\n")
  {
    hide Escape;
    if keys == [] {
      assert keys + [key] == [key] && [key][1..] == [];
    } else {
      assert (keys + [key])[1..] == keys[1..] + [key] && (keys + [key])[0] == keys[0];
      WriteHeadersAppend(headers, keys[1..], key);
      var first := Escape(keys[0]) + ":" + Escape(headers[keys[0]]) + "\n";
      Associative(first, WriteHeaders(headers, keys[1..]), Escape(key) + ":" + Escape(headers[key]) + "\n");
    }
  }

  method WriteMessage(msg: Message, keys: seq<string>) returns (text: string)
    requires Known(keys, msg.headers)
    ensures text == Write(msg, keys)
  {
    var lines := "";
    for i := 0 to |keys|
      invariant lines == WriteHeaders(msg.headers, keys[..i])
    {
      var key := EscapeHeader(keys[i]);
      var value := EscapeHeader(msg.headers[keys[i]]);
      WriteHeadersAppend(msg.headers, keys[..i], keys[i]);
      assert keys[..i + 1] == keys[..i] + [keys[i]];
      lines := lines + (key + ":" + value + "\n");
    }
    assert keys[..|keys|] == keys;
    text := msg.command + "\n" + lines + "\n" + msg.body + [NUL];
  }

  /** Each key of the headers once. */
  ghost predicate Enumerates(keys: seq<string>, headers: map<string, string>) {
    && Known(keys, headers)
    && (forall key | key in headers :: key in keys)
    && (forall i, j | 0 <= i < j < |keys| :: keys[i] != keys[j])
  }

  /** The messages that a frame can carry. */
  predicate Writable(m: Message) {
    && IsCommand(m.command)
    && if CONTENT_LENGTH in m.headers then ParseContentLength(m.headers[CONTENT_LENGTH]) == Some(|m.body|)
       else NUL !in m.body
  }

  /** A header that was written is read. */
  lemma {:induction false} HeaderRead(key: string, value: string)
    ensures var line := Escape(key) + ":" + Escape(value);
            && '\n' !in line && line != "" && StripCr(line) == line
            && ReadHeader(line) ==
               if key == CONTENT_LENGTH && ParseContentLength(value).None? then Err else Ok((key, value))
  {
    var line := Escape(key) + ":" + Escape(value);
    EscapeRoundTrip(key);
    EscapeRoundTrip(value);
    PositionFirst(Escape(key), ':', Escape(value));
    assert line[..|Escape(key)|] == Escape(key) && line[|Escape(key)| + 1..] == Escape(value);
    assert line[|line| - 1] != '\r' by {
      if Escape(value) != "" { assert line[|line| - 1] == Escape(value)[|Escape(value)| - 1]; }
    }
  }

  // Round trips

  function Added(base: map<string, string>, headers: map<string, string>, keys: seq<string>): map<string, string>
    requires Known(keys, headers)
    decreases |keys|
  {
    if keys == [] then base else Added(base[keys[0] := headers[keys[0]]], headers, keys[1..])
  }

  lemma {:induction false} AddedIs(base: map<string, string>, headers: map<string, string>, keys: seq<string>)
    requires Known(keys, headers)
    ensures forall k :: k in Added(base, headers, keys) <==> k in base || k in keys
    ensures forall k | k in Added(base, headers, keys) ::
              Added(base, headers, keys)[k] == if k in keys then headers[k] else base[k]
    decreases |keys|
  {
    if keys != [] {
      AddedIs(base[keys[0] := headers[keys[0]]], headers, keys[1..]);
      assert keys == [keys[0]] + keys[1..];
    }
  }

  lemma {:induction false} AllAdded(headers: map<string, string>, keys: seq<string>)
    requires Enumerates(keys, headers)
    ensures Added(map[], headers, keys) == headers
  {
    AddedIs(map[], headers, keys);
  }

  /** What the headers say about the length. */
  function LengthSaid(headers: map<string, string>, keys: seq<string>, length: Option<nat>): Option<nat>
    requires Known(keys, headers)
  {
    if CONTENT_LENGTH in keys then ParseContentLength(headers[CONTENT_LENGTH]) else length
  }

  /** One header line, whatever follows it. */
  lemma {:induction false} OneHeaderRead(msg: Message, key: string, value: string, more: string, length: Option<nat>)
    ensures ReadHeaders(msg, Escape(key) + ":" + Escape(value) + "\n" + more, length) ==
            if key == CONTENT_LENGTH && ParseContentLength(value).None? then Err
            else ReadHeaders(msg.(headers := msg.headers[key := value]), more,
                             if key == CONTENT_LENGTH then ParseContentLength(value) else length)
  {
    HeaderRead(key, value);
    LineRead(msg, Escape(key) + ":" + Escape(value), more, length);
  }

  lemma {:induction false} LineRead(msg: Message, line: string, more: string, length: Option<nat>)
    requires '\n' !in line && line != "" && StripCr(line) == line
    ensures ReadHeaders(msg, line + "\n" + more, length) ==
            match ReadHeader(line)
            case Err => Err
            case Ok((key, value)) =>
              ReadHeaders(msg.(headers := msg.headers[key := value]), more,
                          if key == CONTENT_LENGTH then ParseContentLength(value) else length)
  {
    PositionFirst(line, '\n', more);
    var text := line + "\n" + more;
    assert text[..|line|] == line && text[|line| + 1..] == more;
  }

  lemma {:induction false} HeadersCons(headers: map<string, string>, keys: seq<string>, tail: string)
    requires Known(keys, headers) && keys != []
    ensures WriteHeaders(headers, keys) + "\n" + tail ==
            Escape(keys[0]) + ":" + Escape(headers[keys[0]]) + "\n" + (WriteHeaders(headers, keys[1..]) + "\n" + tail)
  {
    var line, more := Escape(keys[0]) + ":" + Escape(headers[keys[0]]) + "\n", WriteHeaders(headers, keys[1..]);
    assert (line + more) + "\n" + tail == line + (more + "\n" + tail);
  }

  /** What reading the headers comes to. */
  function HeadersDone(msg: Message, headers: map<string, string>, keys: seq<string>, tail: string,
                       length: Option<nat>):
    Result<(Message, string)>
    requires Known(keys, headers)
  {
    if CONTENT_LENGTH in keys && ParseContentLength(headers[CONTENT_LENGTH]).None? then Err
    else ReadBody(msg.(headers := Added(msg.headers, headers, keys)), tail, LengthSaid(headers, keys, length))
  }

  lemma {:induction false} HeadersDoneStep(msg: Message, headers: map<string, string>, keys: seq<string>, tail: string,
                                           length: Option<nat>)
    requires Known(keys, headers) && keys != [] && keys[0] !in keys[1..]
    ensures var key, value := keys[0], headers[keys[0]];
            HeadersDone(msg, headers, keys, tail, length) ==
            if key == CONTENT_LENGTH && ParseContentLength(value).None? then Err
            else HeadersDone(msg.(headers := msg.headers[key := value]), headers, keys[1..], tail,
                             if key == CONTENT_LENGTH then ParseContentLength(value) else length)
  {
    assert keys == [keys[0]] + keys[1..];
  }

  lemma {:induction false} EmptyHeaderRead(msg: Message, tail: string, length: Option<nat>)
    ensures ReadHeaders(msg, "\n" + tail, length) == ReadBody(msg, tail, length)
  {
    assert ("\n" + tail)[..0] == "" && ("\n" + tail)[1..] == tail;
  }

  ghost predicate Distinct(keys: seq<string>) {
    forall i, j | 0 <= i < j < |keys| :: keys[i] != keys[j]
  }

  lemma {:induction false} TailDistinct(keys: seq<string>)
    requires Distinct(keys) && keys != []
    ensures keys[0] !in keys[1..] && Distinct(keys[1..])
  {
  }

  lemma {:induction false} HeadersRead(msg: Message, headers: map<string, string>, keys: seq<string>, tail: string,
                                       length: Option<nat>)
    requires Known(keys, headers) && Distinct(keys)
    ensures ReadHeaders(msg, WriteHeaders(headers, keys) + "\n" + tail, length) ==
            HeadersDone(msg, headers, keys, tail, length)
    decreases |keys|
  {
    if keys == [] {
      EmptyHeaderRead(msg, tail, length);
      assert WriteHeaders(headers, keys) + "\n" + tail == "\n" + tail;
    } else {
      TailDistinct(keys);
      hide ReadHeaders, WriteHeaders, HeadersDone, Distinct;
      var key, value := keys[0], headers[keys[0]];
      HeadersCons(headers, keys, tail);
      OneHeaderRead(msg, key, value, WriteHeaders(headers, keys[1..]) + "\n" + tail, length);
      HeadersDoneStep(msg, headers, keys, tail, length);
      HeadersRead(msg.(headers := msg.headers[key := value]), headers, keys[1..], tail,
                  if key == CONTENT_LENGTH then ParseContentLength(value) else length);
    }
  }

  lemma {:induction false} CommandRead(command: string, tail: string)
    requires IsCommand(command)
    ensures Read(command + "\n" + tail) == ReadHeaders(Message(command, map[], ""), tail, None)
  {
    var text := command + "\n" + tail;
    assert '\n' !in command && command[|command| - 1] != '\r' by { assert IsWord(command[|command| - 1]); }
    PositionFirst(command, '\n', tail);
    assert text[..|command|] == command && text[|command| + 1..] == tail;
  }

  lemma {:induction false} FrameText(a: string, b: string, c: string, rest: string)
    ensures (a + b + "\n" + c + [NUL]) + rest == a + (b + "\n" + (c + [NUL] + rest))
  {
  }

  /** Where a written frame begins, reading gets back to its body. */
  lemma {:induction false} FrameRead(m: Message, keys: seq<string>, rest: string)
    requires IsCommand(m.command) && Enumerates(keys, m.headers)
    ensures Read(Write(m, keys) + rest) ==
            if CONTENT_LENGTH in m.headers && ParseContentLength(m.headers[CONTENT_LENGTH]).None? then Err
            else ReadBody(m.(body := ""), m.body + [NUL] + rest,
                          if CONTENT_LENGTH in m.headers then ParseContentLength(m.headers[CONTENT_LENGTH]) else None)
  {
    var tail := m.body + [NUL] + rest;
    FrameText(m.command + "\n", WriteHeaders(m.headers, keys), m.body, rest);
    CommandRead(m.command, WriteHeaders(m.headers, keys) + "\n" + tail);
    HeadersRead(Message(m.command, map[], ""), m.headers, keys, tail, None);
    AllAdded(m.headers, keys);
  }

  lemma {:induction false} BodyRead(m: Message, body: string, rest: string, length: Option<nat>)
    ensures ReadBody(m, body + [NUL] + rest, length) == Ok((m.(body := body), rest)) <==>
            if length.Some? then length.value == |body| else NUL !in body
  {
    var text := body + [NUL] + rest;
    if length.Some? {
      if length.value == |body| { assert text[..|body|] == body && text[|body| + 1..] == rest; }
    } else if NUL !in body {
      PositionFirst(body, NUL, rest);
      assert text[..|body|] == body && text[|body| + 1..] == rest;
    }
  }

  /** What is read has a command, or is the empty message at the end of the stream. */
  lemma {:induction false} CommandsRead(text: string)
    ensures Read(text).Ok? ==> IsCommand(Read(text).value.0.command) || Read(text) == Ok((EMPTY, ""))
    decreases |text|
  {
    var k := Position(text, '\n');
    if k < |text| {
      if StripCr(text[..k]) == "" {
        CommandsRead(text[k + 1..]);
      } else if IsCommand(StripCr(text[..k])) {
        KeepsCommand(Message(StripCr(text[..k]), map[], ""), text[k + 1..], None);
      }
    }
  }

  lemma {:induction false} KeepsCommand(msg: Message, text: string, length: Option<nat>)
    ensures ReadHeaders(msg, text, length).Ok? ==> ReadHeaders(msg, text, length).value.0.command == msg.command
    decreases |text|
  {
    var k := Position(text, '\n');
    var line := StripCr(text[..k]);
    if line == "" {
      assert ReadHeaders(msg, text, length) == ReadBody(msg, After(text, k), length);
    } else if k < |text| && ReadHeader(line).Ok? {
      var (key, value) := ReadHeader(line).value;
      var msg' := msg.(headers := msg.headers[key := value]);
      var length' := if key == CONTENT_LENGTH then ParseContentLength(value) else length;
      KeepsCommand(msg', text[k + 1..], length');
      assert ReadHeaders(msg, text, length) == ReadHeaders(msg', text[k + 1..], length');
    }
  }

  /**
   A frame is read back, and nothing after it touched, exactly if the command is a word and the body ends where the
   reader looks for its end. The empty message is what an exhausted stream gives.
   */
  lemma {:induction false} FrameRoundTrip(m: Message, keys: seq<string>, rest: string)
    requires Enumerates(keys, m.headers)
    ensures Read(Write(m, keys) + rest) == Ok((m, rest)) <==> Writable(m) || (m == EMPTY && rest == "")
  {
    if IsCommand(m.command) {
      FrameRead(m, keys, rest);
      BodyRead(m.(body := ""), m.body, rest,
               if CONTENT_LENGTH in m.headers then ParseContentLength(m.headers[CONTENT_LENGTH]) else None);
    } else {
      CommandsRead(Write(m, keys) + rest);
      if m == EMPTY && rest == "" { EmptyFrame(keys); }
    }
  }

  lemma {:induction false} EmptyFrame(keys: seq<string>)
    requires Enumerates(keys, EMPTY.headers)
    ensures Read(Write(EMPTY, keys) + "") == Ok((EMPTY, ""))
  {
    if keys != [] {
      KnownKey(keys, EMPTY.headers);
    } else {
      EmptyText();
      assert Write(EMPTY, keys) + "" == "\n\n" + [NUL];
    }
  }

  lemma {:induction false} KnownKey(keys: seq<string>, headers: map<string, string>)
    requires Known(keys, headers) && keys != []
    ensures keys[0] in headers
  {
  }

  lemma {:induction false} EmptyText()
    ensures Read("\n\n" + [NUL]) == Ok((EMPTY, ""))
  {
    BlankLine("\n" + [NUL]);
    BlankLine([NUL]);
    assert "\n" + ("\n" + [NUL]) == "\n\n" + [NUL];
    assert Position([NUL], '\n') == 1;
  }

  lemma {:induction false} BlankLine(rest: string)
    ensures Read("\n" + rest) == Read(rest)
  {
    assert ("\n" + rest)[1..] == rest;
  }

  // Streams of frames

  lemma {:induction false} ReadShortens(text: string)
    ensures Read(text).Ok? && Read(text).value.0.command != "" ==> |Read(text).value.1| < |text|
    decreases |text|
  {
    var k := Position(text, '\n');
    if k < |text| {
      var line := StripCr(text[..k]);
      if line == "" {
        ReadShortens(text[k + 1..]);
        assert Read(text) == Read(text[k + 1..]);
      } else if IsCommand(line) {
        HeadersShorten(Message(line, map[], ""), text[k + 1..], None);
        assert Read(text) == ReadHeaders(Message(line, map[], ""), text[k + 1..], None);
      }
    }
  }

  lemma {:induction false} BodyShortens(msg: Message, text: string, length: Option<nat>)
    ensures ReadBody(msg, text, length).Ok? ==> |ReadBody(msg, text, length).value.1| <= |text|
  {
  }

  lemma {:induction false} HeadersShorten(msg: Message, text: string, length: Option<nat>)
    ensures ReadHeaders(msg, text, length).Ok? ==> |ReadHeaders(msg, text, length).value.1| <= |text|
    decreases |text|
  {
    hide ReadHeader, ReadBody, ParseContentLength, StripCr;
    var k := Position(text, '\n');
    var line := StripCr(text[..k]);
    if line == "" {
      BodyShortens(msg, After(text, k), length);
    } else if k < |text| && ReadHeader(line).Ok? {
      var (key, value) := ReadHeader(line).value;
      HeadersShorten(msg.(headers := msg.headers[key := value]), text[k + 1..],
                     if key == CONTENT_LENGTH then ParseContentLength(value) else length);
    }
  }

  /** Reads until the stream is exhausted. */
  function ReadAll(text: string): Result<seq<Message>>
    decreases |text|
  {
    ReadShortens(text);
    match Read(text)
    case Err => Err
    case Ok((m, rest)) =>
      if m.command == "" then Ok([])
      else match ReadAll(rest)
        case Err => Err
        case Ok(ms) => Ok([m] + ms)
  }

  function WriteAll(ms: seq<Message>, orders: seq<seq<string>>): string
    requires |orders| == |ms| && forall i | 0 <= i < |ms| :: Known(orders[i], ms[i].headers)
  {
    if ms == [] then "" else Write(ms[0], orders[0]) + WriteAll(ms[1..], orders[1..])
  }

  /** Any list of such messages is read back from the concatenation of its frames. */
  lemma {:induction false} FramesRoundTrip(ms: seq<Message>, orders: seq<seq<string>>)
    requires |orders| == |ms| && forall i | 0 <= i < |ms| :: Known(orders[i], ms[i].headers)
    requires forall i | 0 <= i < |ms| :: Writable(ms[i]) && Enumerates(orders[i], ms[i].headers)
    ensures ReadAll(WriteAll(ms, orders)) == Ok(ms)
  {
    if ms != [] {
      FramesRoundTrip(ms[1..], orders[1..]);
      FrameRoundTrip(ms[0], orders[0], WriteAll(ms[1..], orders[1..]));
      assert [ms[0]] + ms[1..] == ms;
    }
  }

  // The reader

  /** An input stream: what is left of it, and whether reading ran into its end. */
  class Stream {
    var text: string
    var eof: bool

    ghost predicate Valid()
      reads this
    {
      eof ==> text == ""
    }

    constructor (text: string)
      ensures Valid() && this.text == text && !eof
    {
      this.text, eof := text, false;
    }

    /** getline */
    method GetLine(d: char) returns (line: string)
      requires Valid()
      modifies this
      ensures Valid()
      ensures var k := Position(old(text), d);
              line == old(text)[..k] && text == After(old(text), k) && (eof <==> k == |old(text)|)
    {
      var k := Position(text, d);
      line, eof, text := text[..k], k == |text|, After(text, k);
    }

    /** istream::read */
    method Take(n: nat) returns (ok: bool, s: string)
      requires Valid()
      modifies this
      ensures Valid() && (ok <==> n <= |old(text)|)
      ensures ok ==> s == old(text)[..n] && text == old(text)[n..] && eof == old(eof)
    {
      if n > |text| {
        ok, s, eof, text := false, "", true, "";
      } else {
        ok, s, text := true, text[..n], text[n..];
      }
    }
  }

  /** The state of the reader and what it has so far. */
  datatype Progress = Starting | InHeaders(msg: Message, length: Option<nat>)

  function Continue(p: Progress, text: string): Result<(Message, string)> {
    match p
    case Starting => Read(text)
    case InHeaders(msg, length) => ReadHeaders(msg, text, length)
  }

  /** What a line leads to: another line, the body, or an error. */
  datatype Turn = Next(p: Progress) | AtBody | Failed

  /** The reader at the line that text starts with, which is not the end of the stream unless there are headers. */
  method TakeLine(p: Progress, line: string, ghost text: string) returns (t: Turn)
    requires line == StripCr(text[..Position(text, '\n')]) && (p.Starting? ==> Position(text, '\n') < |text|)
    ensures var k := Position(text, '\n');
            match t
            case Next(q) => Continue(p, text) == if k == |text| then Err else Continue(q, text[k + 1..])
            case AtBody => p.InHeaders? && Continue(p, text) == ReadBody(p.msg, After(text, k), p.length)
            case Failed => Continue(p, text).Err?
  {
    match p
    case Starting =>
      if line == "" { return Next(Starting); }
      if !IsCommand(line) { return Failed; }
      return Next(InHeaders(Message(line, map[], ""), None));
    case InHeaders(msg, length) =>
      if line == "" { return AtBody; }
      var header := ReadHeader(line);
      if header.Err? { return Failed; }
      var (key, value) := header.value;
      return Next(InHeaders(msg.(headers := msg.headers[key := value]),
                            if key == CONTENT_LENGTH then ParseContentLength(value) else length));
  }

  /** Whether a method read what was to be read. */
  ghost predicate Reads(goal: Result<(Message, string)>, r: Result<Message>, rest: string) {
    match goal
    case Err => r.Err?
    case Ok((m, after)) => r == Ok(m) && rest == after
  }

  /** The rest of a message after the empty line. */
  method TakeBody(input: Stream, msg: Message, length: Option<nat>) returns (r: Result<Message>)
    requires input.Valid()
    modifies input
    ensures input.Valid() && Reads(ReadBody(msg, old(input.text), length), r, input.text)
  {
    var body := "";
    if length.Some? {
      ghost var text := input.text;
      if length.value > 0 {
        var ok, buf := input.Take(length.value);
        if !ok { return Err; }
        body := buf;
      }
      assert body == text[..length.value] && input.text == text[length.value..];
      var ok, end := input.Take(1);
      if !ok || end[0] != NUL { return Err; }
      assert text[length.value..][1..] == text[length.value + 1..];
    } else {
      body := input.GetLine(NUL);
    }
    return Ok(msg.(body := body));
  }

  /** Reads one message, or an empty one at the end of the stream. */
  method ReadMessage(input: Stream) returns (r: Result<Message>)
    requires input.Valid()
    modifies input
    ensures if old(input.eof) then r.Err? else Reads(Read(old(input.text)), r, input.text)
  {
    ghost var goal := Read(input.text);
    var p := Starting;
    while !input.eof
      invariant input.Valid() && (old(input.eof) ==> input.eof)
      invariant !old(input.eof) ==> goal == if input.eof then Err else Continue(p, input.text)
      decreases !input.eof, |input.text|
    {
      ghost var text := input.text;
      var line := input.GetLine('\n');
      line := StripCr(line);
      if p.Starting? && input.eof { return Ok(EMPTY); }
      var t := TakeLine(p, line, text);
      match t
      case Next(q) => p := q;
      case AtBody =>
        r := TakeBody(input, p.msg, p.length);
        return;
      case Failed => return Err;
    }
    return Err;
  }
}
