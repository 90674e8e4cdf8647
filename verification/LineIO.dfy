/**
 Line-wise reading and writing through a fixed buffer (the gzip reader and writer of
 snapper/AsciiFile.cc). The chunks that gzread hands out are arbitrary; nothing observable depends on
 them.
 */
module LineIO {
  import opened Text

  /** The text of a list of lines. */
  function Unlines(lines: seq<string>): string {
    if lines == [] then "" else lines[0] + "\n" + Unlines(lines[1..])
  }

  /** The lines of a text; text after the last newline is a line too. */
  function Lines(text: string): seq<string>
    decreases |text|
  {
    if text == "" then []
    else
      var k := Position(text, '\n');
      if k == |text| then [text] else [text[..k]] + Lines(text[k + 1..])
  }

  ghost predicate NoNewlines(lines: seq<string>) {
    forall i | 0 <= i < |lines| :: '\n' !in lines[i]
  }

  lemma {:induction false} LinesHaveNoNewlines(text: string)
    ensures NoNewlines(Lines(text))
    decreases |text|
  {
    if text != "" {
      var k := Position(text, '\n');
      if k == |text| {
        assert text[..k] == text;
      } else {
        LinesHaveNoNewlines(text[k + 1..]);
      }
    }
  }

  predicate EndsLine(text: string) {
    text == "" || text[|text| - 1] == '\n'
  }

  lemma {:induction false} UnlinesFirst(line: string, more: seq<string>)
    ensures Unlines([line] + more) == line + "\n" + Unlines(more)
  {
    assert ([line] + more)[1..] == more;
  }

  lemma {:induction false} EndOfRest(line: string, rest: string)
    ensures EndsLine(line + "\n" + rest) == EndsLine(rest)
    ensures line + "\n" + (rest + "\n") == (line + "\n" + rest) + "\n"
  {
    var text := line + "\n" + rest;
    if rest == "" { assert text[|text| - 1] == '\n'; } else { assert text[|text| - 1] == rest[|rest| - 1]; }
  }

  /** The lines make up the text, but for a newline that is missing at its end. */
  lemma {:induction false} LinesExact(text: string)
    ensures Unlines(Lines(text)) == if EndsLine(text) then text else text + "\n"
    decreases |text|
  {
    if text == "" {
    } else {
      var k := Position(text, '\n');
      if k == |text| {
        assert text[..k] == text && text[|text| - 1] in text;
        UnlinesFirst(text, []);
        assert [text] + [] == [text];
      } else {
        var line, rest := text[..k], text[k + 1..];
        assert text == line + "\n" + rest && Lines(text) == [line] + Lines(rest);
        hide Lines, Unlines, EndsLine, Position;
        LinesExact(rest);
        UnlinesFirst(line, Lines(rest));
        EndOfRest(line, rest);
      }
    }
  }

  lemma {:induction false} FirstLine(line: string, rest: string)
    requires '\n' !in line
    ensures Lines(line + "\n" + rest) == [line] + Lines(rest)
  {
    var all := line + "\n" + rest;
    PositionFirst(line, '\n', rest);
    assert all[..|line|] == line && all[|line| + 1..] == rest;
  }

  lemma {:induction false} UnlinesCons(lines: seq<string>, text: string)
    requires lines != []
    ensures Unlines(lines) + text == lines[0] + "\n" + (Unlines(lines[1..]) + text)
  {
  }

  /** Reading what follows complete lines. */
  lemma {:induction false} LinesAfter(lines: seq<string>, text: string)
    requires NoNewlines(lines)
    ensures Lines(Unlines(lines) + text) == lines + Lines(text)
  {
    if lines == [] {
      assert Unlines(lines) + text == text;
    } else {
      LinesAfter(lines[1..], text);
      UnlinesCons(lines, text);
      FirstLine(lines[0], Unlines(lines[1..]) + text);
      ConsConcat(lines, Lines(text));
    }
  }

  lemma {:induction false} ConsConcat<T>(s: seq<T>, t: seq<T>)
    requires s != []
    ensures s + t == [s[0]] + (s[1..] + t)
  {
  }

  /** A list of lines survives being written and read exactly when no line holds a newline. */
  lemma {:induction false} LinesRoundTrip(lines: seq<string>)
    ensures Lines(Unlines(lines)) == lines <==> NoNewlines(lines)
  {
    LinesHaveNoNewlines(Unlines(lines));
    if NoNewlines(lines) {
      LinesAfter(lines, "");
      assert Unlines(lines) + "" == Unlines(lines);
      assert lines + Lines("") == lines;
    }
  }

  lemma {:induction false} UnlinesAppend(lines: seq<string>, line: string)
    ensures Unlines(lines + [line]) == Unlines(lines) + line + "\n"
  {
    if lines == [] {
      assert (lines + [line])[1..] == [];
    } else {
      UnlinesAppend(lines[1..], line);
      assert (lines + [line])[1..] == lines[1..] + [line] && (lines + [line])[0] == lines[0];
    }
  }

  class Writer {
    const buffer: array<char>
    var fill: nat
    /** What gzwrite has taken. */
    var sink: string

    ghost predicate Valid()
      reads this
    {
      fill < buffer.Length
    }

    /** All that has been written so far. */
    ghost function Contents(): string
      requires Valid()
      reads this, buffer
    {
      sink + buffer[..fill]
    }

    constructor (size: nat)
      requires size > 0
      ensures Valid() && fresh(buffer) && Contents() == ""
    {
      buffer := new char[size](_ => ' ');
      fill := 0;
      sink := "";
    }

    /** Flushes the buffer, which may be full. */
    method WriteBuffer()
      requires buffer.Length > 0 && fill <= buffer.Length
      modifies this
      ensures Valid() && fill == 0
      ensures sink == old(sink + buffer[..fill])
    {
      if fill == 0 {
        assert buffer[..fill] == "";
        return;
      }
      sink := sink + buffer[..fill];
      fill := 0;
    }

    /** memcpy into the free part of the buffer. */
    method Copy(tmp: string, count: nat)
      requires count <= |tmp| && fill + count <= buffer.Length
      modifies buffer
      ensures buffer[..fill + count] == old(buffer[..fill]) + tmp[..count]
    {
      for k := 0 to count
        invariant buffer[..fill] == old(buffer[..fill])
        invariant buffer[fill..fill + k] == tmp[..k]
      {
        buffer[fill + k] := tmp[k];
        assert buffer[fill..fill + k + 1] == buffer[fill..fill + k] + [tmp[k]];
      }
      assert buffer[..fill + count] == buffer[..fill] + buffer[fill..fill + count];
    }

    method WriteLine(line: string)
      requires Valid()
      modifies this, buffer
      ensures Valid() && Contents() == old(Contents()) + line + "\n"
    {
      var tmp := line + "\n";
      while tmp != ""
        invariant Valid()
        invariant Contents() + tmp == old(Contents()) + (line + "\n")
        decreases |tmp|
      {
        var avail := buffer.Length - fill;
        var count := if avail < |tmp| then avail else |tmp|;
        Copy(tmp, count);
        assert sink + buffer[..fill + count] + tmp[count..] == old(Contents()) + (line + "\n") by {
          assert tmp == tmp[..count] + tmp[count..];
        }
        fill := fill + count;
        tmp := tmp[count..];
        if fill == buffer.Length {
          WriteBuffer();
          assert Contents() == sink;
        }
      }
      assert Contents() + tmp == Contents();
      assert old(Contents()) + (line + "\n") == old(Contents()) + line + "\n";
    }

    method Close()
      requires Valid()
      modifies this
      ensures Valid() && sink == old(Contents()) && Contents() == sink
    {
      WriteBuffer();
    }
  }

  class Reader {
    const buffer: array<char>
    /** The uncompressed text that gzread has not handed out yet. */
    var source: string
    var read: nat
    var fill: nat

    ghost predicate Valid()
      reads this
    {
      buffer.Length > 0 && read <= fill <= buffer.Length
    }

    /** The text still to be read. */
    ghost function Remaining(): string
      requires Valid()
      reads this, buffer
    {
      buffer[read..fill] + source
    }

    constructor (text: string, size: nat)
      requires size > 0
      ensures Valid() && fresh(buffer) && Remaining() == text
    {
      buffer := new char[size](_ => ' ');
      source, read, fill := text, 0, 0;
    }

    /** gzread: at least one character unless the end is reached, at most a buffer. */
    method ReadBuffer() returns (ok: bool)
      requires Valid() && read == fill
      modifies this, buffer
      ensures Valid() && Remaining() == old(Remaining())
      ensures ok <==> old(source) != ""
      ensures ok ==> read < fill && |source| < |old(source)|
      ensures !ok ==> source == "" && read == fill
    {
      if source == "" { return false; }
      var most := if buffer.Length < |source| then buffer.Length else |source|;
      var r: int := *;
      if r < 1 { r := 1; }
      if r > most { r := most; }
      for k := 0 to r
        modifies buffer
        invariant buffer[..k] == source[..k]
      {
        buffer[k] := source[k];
        assert buffer[..k + 1] == buffer[..k] + [source[k]];
      }
      assert source == source[..r] + source[r..];
      source, read, fill := source[r..], 0, r;
      return true;
    }

    /** Takes from the buffer what is there of the line, and its newline (memchr). */
    method TakePart() returns (found: bool, part: string)
      requires Valid() && read < fill
      modifies this`read
      ensures Valid() && read > old(read) && '\n' !in part
      ensures old(Remaining()) == part + (if found then "\n" + Remaining() else Remaining())
      ensures !found ==> read == fill
    {
      var all := buffer[read..fill];
      var k := Position(all, '\n');
      part, found := all[..k], k < |all|;
      if found {
        read := read + k + 1;
        assert buffer[read..fill] == all[k + 1..];
        Newline(all, k, source);
      } else {
        read := fill;
        assert part == all;
      }
    }

    /** The next line, wherever the chunks happen to end. */
    method ReadLine() returns (ok: bool, line: string)
      requires Valid()
      modifies this, buffer
      ensures Valid()
      ensures Lines(old(Remaining())) == if ok then [line] + Lines(Remaining()) else []
      ensures ok ==> |Remaining()| < |old(Remaining())|
      ensures !ok ==> line == "" && Remaining() == ""
    {
      line := "";
      while true
        invariant Valid()
        invariant line + Remaining() == old(Remaining())
        invariant '\n' !in line
        decreases |source| + fill - read
      {
        if read == fill {
          var more := ReadBuffer();
          if !more {
            assert Remaining() == "" && line + "" == line;
            LastLine(line);
            return line != "", line;
          }
        }
        var found, part := TakePart();
        if found {
          NextLine(line, part, Remaining());
          return true, line + part;
        }
        Associative(line, part, Remaining());
        line := line + part;
      }
    }
  }

  lemma {:induction false} Newline(all: string, k: nat, source: string)
    requires k < |all| && all[k] == '\n'
    ensures all + source == all[..k] + ("\n" + (all[k + 1..] + source))
  {
    assert all == all[..k] + ("\n" + all[k + 1..]);
  }

  lemma {:induction false} LastLine(line: string)
    requires '\n' !in line
    ensures Lines(line) == if line == "" then [] else [line]
  {
  }

  lemma {:induction false} NextLine(line: string, part: string, rest: string)
    requires '\n' !in line && '\n' !in part
    ensures Lines(line + (part + ("\n" + rest))) == [line + part] + Lines(rest)
  {
    assert line + (part + ("\n" + rest)) == (line + part) + "\n" + rest;
    FirstLine(line + part, rest);
  }

  /** Reads everything. */
  method ReadLines(reader: Reader) returns (lines: seq<string>)
    requires reader.Valid()
    modifies reader, reader.buffer
    ensures reader.Valid() && lines == Lines(old(reader.Remaining()))
  {
    lines := [];
    ghost var all := Lines(reader.Remaining());
    while true
      invariant reader.Valid()
      invariant lines + Lines(reader.Remaining()) == all
      decreases |reader.Remaining()|
    {
      var ok, line := reader.ReadLine();
      if !ok {
        assert lines + [] == lines;
        return;
      }
      Associative(lines, [line], Lines(reader.Remaining()));
      lines := lines + [line];
    }
  }

  /** Writes everything. */
  method WriteLines(lines: seq<string>, size: nat) returns (text: string)
    requires size > 0
    ensures text == Unlines(lines)
  {
    var writer := new Writer(size);
    for i := 0 to |lines|
      invariant writer.Valid() && fresh(writer) && fresh(writer.buffer)
      invariant writer.Contents() == Unlines(lines[..i])
    {
      writer.WriteLine(lines[i]);
      UnlinesAppend(lines[..i], lines[i]);
      assert lines[..i + 1] == lines[..i] + [lines[i]];
    }
    writer.Close();
    assert lines[..|lines|] == lines;
    return writer.sink;
  }
}
