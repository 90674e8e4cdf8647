/**
 The escaping of byte strings in D-Bus messages (dbus/DBusMessage.cc), on the file-list pipe (dbus/DBusPipe.cc) and
 in the PAM module (pam/pam_snapper.c).
 */
module Escape {
  import opened Wrappers
  import opened Text

  /** D-Bus strings must be ASCII; the pipe uses space and newline as separators. */
  datatype Carrier = Message | Pipe

  predicate MustEscape(w: Carrier, c: byte) {
    match w
    case Message => c as int > 127
    case Pipe => c <= ' '
  }

  function HexDigit(d: nat): byte
    requires d < 16
  {
    "0123456789abcdef"[d]
  }

  function Quoted(w: Carrier, c: byte): bytes {
    if c == '\\' then ['\\', '\\']
    else if MustEscape(w, c) then ['\\', 'x', HexDigit(c as int / 16), HexDigit(c as int % 16)]
    else [c]
  }

  function Escape(w: Carrier, s: bytes): bytes {
    if s == [] then [] else Quoted(w, s[0]) + Escape(w, s[1..])
  }

  /** isxdigit and the value that sscanf gives. */
  function HexValue(c: byte): Option<nat> {
    if '0' <= c <= '9' then Some(c as int - '0' as int)
    else if 'a' <= c <= 'f' then Some(c as int - 'a' as int + 10)
    else if 'A' <= c <= 'F' then Some(c as int - 'A' as int + 10)
    else None
  }

  /** The byte that an escape sequence at the start of a string stands for, and its length. */
  function Sequence(s: bytes): (r: Option<(byte, nat)>)
    requires s != [] && s[0] == '\\'
    ensures r.Some? ==> 2 <= r.value.1 <= |s|
  {
    if |s| >= 2 && s[1] == '\\' then Some(('\\', 2))
    else if |s| >= 4 && s[1] == 'x' && HexValue(s[2]).Some? && HexValue(s[3]).Some? then
      HexIsByte(s[2], s[3]);
      Some(((HexValue(s[2]).value * 16 + HexValue(s[3]).value) as char, 4))
    else None
  }

  lemma {:induction false} HexIsByte(a: byte, b: byte)
    requires HexValue(a).Some? && HexValue(b).Some?
    ensures HexValue(a).value * 16 + HexValue(b).value < 256
  {
    assert HexValue(a).value < 16 && HexValue(b).value < 16;
  }

  function Unescape(s: bytes): Result<bytes>
    decreases |s|
  {
    if s == [] then Ok([])
    else if s[0] != '\\' then Joined([s[0]], Unescape(s[1..]))
    else match Sequence(s)
      case None => Err
      case Some((c, n)) => Joined([c], Unescape(s[n..]))
  }

  lemma {:induction false} HexRoundTrip(d: nat)
    requires d < 16
    ensures HexValue(HexDigit(d)) == Some(d)
  {
    var digits := "0123456789abcdef";
    assert d < 10 ==> digits[d] as int == '0' as int + d;
    assert d >= 10 ==> digits[d] as int == 'a' as int + d - 10;
  }

  lemma {:induction false} UnescapeQuoted(w: Carrier, c: byte, t: bytes)
    ensures Unescape(Quoted(w, c) + t) == Joined([c], Unescape(t))
  {
    var s := Quoted(w, c) + t;
    if c == '\\' {
      assert s[0] == '\\' && s[1] == '\\' && s[2..] == t;
    } else if MustEscape(w, c) {
      HexRoundTrip(c as int / 16);
      HexRoundTrip(c as int % 16);
      assert s[0] == '\\' && s[1] == 'x' && s[4..] == t;
      assert s[2] == HexDigit(c as int / 16) && s[3] == HexDigit(c as int % 16);
      assert (c as int / 16 * 16 + c as int % 16) as char == c;
      assert Sequence(s) == Some((c, 4));
    } else {
      assert s[0] == c && s[1..] == t;
    }
  }

  /** What was escaped for either carrier is unescaped to what it was. */
  lemma {:induction false} RoundTrip(w: Carrier, s: bytes)
    ensures Unescape(Escape(w, s)) == Ok(s)
  {
    if s != [] {
      RoundTrip(w, s[1..]);
      UnescapeQuoted(w, s[0], Escape(w, s[1..]));
      assert [s[0]] + s[1..] == s;
    }
  }

  /** No byte that a carrier does not take is left: messages are ASCII, the pipe has no space or control byte. */
  lemma {:induction false} EscapedAlphabet(w: Carrier, s: bytes)
    ensures forall c | c in Escape(w, s) :: !MustEscape(w, c) && if w.Message? then c as int <= 127 else c > ' '
  {
    if s != [] {
      EscapedAlphabet(w, s[1..]);
      QuotedAlphabet(w, s[0]);
    }
  }

  lemma {:induction false} QuotedAlphabet(w: Carrier, c: byte)
    ensures forall x | x in Quoted(w, c) :: !MustEscape(w, x)
  {
    if MustEscape(w, c) && c != '\\' {
      HexIsPlain(c as int / 16);
      HexIsPlain(c as int % 16);
    }
  }

  lemma {:induction false} HexIsPlain(d: nat)
    requires d < 16
    ensures ' ' < HexDigit(d) && HexDigit(d) as int <= 127
  {
    assert HexDigit(d) in "0123456789abcdef";
  }

  /** A string of plain bytes is left as it is. */
  lemma {:induction false} PlainIsKept(w: Carrier, s: bytes)
    requires forall c | c in s :: c != '\\' && if w.Message? then c as int <= 127 else c > ' '
    ensures Escape(w, s) == s
  {
    if s != [] {
      assert forall c | c in s[1..] :: c in s;
      PlainIsKept(w, s[1..]);
      assert s[0] in s && [s[0]] + s[1..] == s;
    }
  }

  /** The two bytes of a letter with an umlaut, and a space on the pipe. */
  lemma {:induction false} EscapeExamples()
    ensures Escape(Message, [0xC3 as char, 0xA4 as char]) == "\\xc3\\xa4"
    ensures Escape(Pipe, "a b\\") == "a\\x20b\\\\"
  {
    var umlaut := [0xC3 as char, 0xA4 as char];
    assert umlaut[1..] == [0xA4 as char] && [0xA4 as char][1..] == [];
    assert Quoted(Message, 0xC3 as char) == "\\xc3" by { assert HexDigit(12) == 'c' && HexDigit(3) == '3'; }
    assert Quoted(Message, 0xA4 as char) == "\\xa4" by { assert HexDigit(10) == 'a' && HexDigit(4) == '4'; }
    assert Escape(Message, [0xA4 as char]) == "\\xa4" + [];
    assert "a b\\"[1..] == " b\\" && " b\\"[1..] == "b\\" && "b\\"[1..] == "\\" && "\\"[1..] == "";
    assert Quoted(Pipe, ' ') == "\\x20" by { assert HexDigit(2) == '2' && HexDigit(0) == '0'; }
    assert Escape(Pipe, "b\\") == "b\\\\" && Escape(Pipe, " b\\") == "\\x20b\\\\";
  }

  // What can be unescaped

  /** A part of a string that stands for one byte. */
  predicate Stands(part: bytes, c: byte) {
    || (part == [c] && c != '\\')
    || (part == ['\\', '\\'] && c == '\\')
    || (|part| == 4 && part[0] == '\\' && part[1] == 'x' && HexValue(part[2]).Some? && HexValue(part[3]).Some?
        && HexValue(part[2]).value * 16 + HexValue(part[3]).value == c as int)
  }

  ghost predicate AllStand(parts: seq<bytes>, t: bytes) {
    |parts| == |t| && forall i | 0 <= i < |t| :: Stands(parts[i], t[i])
  }

  function Concat(parts: seq<bytes>): bytes {
    if parts == [] then [] else parts[0] + Concat(parts[1..])
  }

  lemma {:induction false} StandsRead(part: bytes, c: byte, rest: bytes)
    requires Stands(part, c)
    ensures Unescape(part + rest) == Joined([c], Unescape(rest))
  {
    var s := part + rest;
    assert s[0] == part[0] && s[|part|..] == rest;
    if part[0] == '\\' {
      assert s[1] == part[1];
      if |part| == 4 {
        assert s[2] == part[2] && s[3] == part[3];
        HexIsByte(part[2], part[3]);
        assert Sequence(s) == Some((c, 4));
      } else {
        assert Sequence(s) == Some((c, 2));
      }
    }
  }

  lemma {:induction false} PartsRead(parts: seq<bytes>, t: bytes)
    requires AllStand(parts, t)
    ensures Unescape(Concat(parts)) == Ok(t)
  {
    if parts != [] {
      PartsRead(parts[1..], t[1..]);
      StandsRead(parts[0], t[0], Concat(parts[1..]));
      assert [t[0]] + t[1..] == t;
    }
  }

  lemma {:induction false} FirstPart(s: bytes) returns (n: nat, c: byte)
    requires Unescape(s).Ok? && s != []
    ensures 0 < n <= |s| && Stands(s[..n], c) && Unescape(s[n..]).Ok?
    ensures Unescape(s).value == [c] + Unescape(s[n..]).value
  {
    n, c := 1, s[0];
    if s[0] == '\\' { c, n := Sequence(s).value.0, Sequence(s).value.1; }
  }

  lemma {:induction false} AllStandCons(part: bytes, parts: seq<bytes>, c: byte, t: bytes)
    requires Stands(part, c) && AllStand(parts, t)
    ensures AllStand([part] + parts, [c] + t) && Concat([part] + parts) == part + Concat(parts)
  {
    hide Stands;
    assert ([part] + parts)[1..] == parts;
  }

  lemma {:induction false} ReadParts(s: bytes) returns (parts: seq<bytes>)
    requires Unescape(s).Ok?
    ensures AllStand(parts, Unescape(s).value) && Concat(parts) == s
    decreases |s|
  {
    parts := [];
    if s != [] {
      hide AllStand, Stands, Unescape, Concat;
      var n, c := FirstPart(s);
      var more := ReadParts(s[n..]);
      parts := [s[..n]] + more;
      AllStandCons(s[..n], more, c, Unescape(s[n..]).value);
      assert s == s[..n] + s[n..];
    }
  }

  /** A string is unescaped exactly if it is made of parts that stand for bytes, and then to these bytes. */
  lemma {:induction false} UnescapeExact(s: bytes, t: bytes)
    ensures Unescape(s) == Ok(t) <==> exists parts :: AllStand(parts, t) && Concat(parts) == s
  {
    if Unescape(s) == Ok(t) {
      var parts := ReadParts(s);
    }
    if parts :| AllStand(parts, t) && Concat(parts) == s { PartsRead(parts, t); }
  }

  lemma {:induction false} EscapeAppend(w: Carrier, s: bytes, c: byte)
    ensures Escape(w, s + [c]) == Escape(w, s) + Quoted(w, c)
  {
    if s == [] {
      assert s + [c] == [c] && [c][1..] == [];
    } else {
      assert (s + [c])[1..] == s[1..] + [c] && (s + [c])[0] == s[0];
      EscapeAppend(w, s[1..], c);
    }
  }

  method EscapeString(w: Carrier, s: bytes) returns (out: bytes)
    ensures out == Escape(w, s)
  {
    out := [];
    for i := 0 to |s|
      invariant out == Escape(w, s[..i])
    {
      EscapeAppend(w, s[..i], s[i]);
      assert s[..i + 1] == s[..i] + [s[i]];
      out := out + Quoted(w, s[i]);
    }
    assert s[..|s|] == s;
  }

  method UnescapeString(s: bytes) returns (r: Result<bytes>)
    ensures r == Unescape(s)
  {
    var out: bytes, i := [], 0;
    assert s[0..] == s;
    if Unescape(s).Ok? { assert [] + Unescape(s).value == Unescape(s).value; }
    while i < |s|
      invariant i <= |s| && Unescape(s) == Joined(out, Unescape(s[i..]))
    {
      var c, n := s[i], 1;
      if c == '\\' {
        var seen := Sequence(s[i..]);
        if seen.None? { return Err; }
        c, n := seen.value.0, seen.value.1;
      }
      assert s[i..][n..] == s[i + n..];
      JoinedTwice(out, [c], Unescape(s[i + n..]));
      out, i := out + [c], i + n;
    }
    assert out + [] == out;
    return Ok(out);
  }

  lemma {:induction false} EscapeSize(w: Carrier, s: bytes)
    ensures |Escape(w, s)| <= 4 * |s|
  {
    if s != [] { EscapeSize(w, s[1..]); }
  }

  lemma {:induction false} EscapePrefix(w: Carrier, s: bytes, i: nat)
    requires i < |s|
    ensures Escape(w, s[..i + 1]) == Escape(w, s[..i]) + Quoted(w, s[i])
    ensures |Escape(w, s[..i + 1])| <= 4 * (i + 1)
  {
    EscapeAppend(w, s[..i], s[i]);
    assert s[..i + 1] == s[..i] + [s[i]];
    EscapeSize(w, s[..i + 1]);
  }

  /** memcpy to a place in a buffer. */
  method Copy(out: array<byte>, at: nat, s: bytes)
    requires at + |s| <= out.Length
    modifies out
    ensures out[..] == old(out[..at]) + s + old(out[at + |s|..])
  {
    for k := 0 to |s|
      invariant forall j | 0 <= j < out.Length :: out[j] == if at <= j < at + k then s[j - at] else old(out[j])
    {
      out[at + k] := s[k];
    }
  }

  /** The PAM module's loop over a C string, into a buffer of four bytes for each byte and one for the end. */
  method CdbusEscape(input: array<byte>, n: nat, memory: bool) returns (out: array?<byte>)
    requires n < input.Length && input[n] == '\0' && '\0' !in input[..n]
    ensures out == null <==> !memory
    ensures out != null ==> fresh(out) && out.Length == 4 * n + 1
    ensures out != null ==>
              var e := Escape(Message, input[..n]); |e| < out.Length && out[..|e|] == e && out[|e|] == '\0'
  {
    if !memory { return null; }
    var buffer := new byte[4 * n + 1](_ => '\0');
    ghost var s := input[..n];
    var i, p := 0, 0;
    while input[i] != '\0'
      invariant i <= n && p == |Escape(Message, s[..i])| <= 4 * i && fresh(buffer) && buffer.Length == 4 * n + 1
      invariant buffer[..p] == Escape(Message, s[..i]) && input[..n] == s && input[n] == '\0'
      decreases n - i
    {
      assert i < n && input[i] == s[i];
      EscapePrefix(Message, s, i);
      var q := Quoted(Message, input[i]);
      ghost var done := buffer[..p];
      Copy(buffer, p, q);
      assert buffer[..p + |q|] == done + q;
      i, p := i + 1, p + |q|;
    }
    assert i == n && s[..n] == s;
    buffer[p] := '\0';
    return buffer;
  }
}
