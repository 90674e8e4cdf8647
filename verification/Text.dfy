/** Bytes, characters, decimal numbers and partial results, as the text formats share them. */
module Text {
  import opened Wrappers

  type byte = c: char | c as int < 256 witness 'a'

  type bytes = seq<byte>

  /** Where a character is first found, or the end. */
  function Position(s: string, c: char): (k: nat)
    ensures k <= |s| && c !in s[..k] && (k < |s| ==> s[k] == c)
  {
    if s == "" || s[0] == c then 0
    else
      var k := Position(s[1..], c) + 1;
      assert s[..k] == [s[0]] + s[1..][..k - 1];
      k
  }

  lemma {:induction false} PositionSkips(a: string, c: char, b: string)
    requires c !in a && (b != "" ==> b[0] == c)
    ensures Position(a + b, c) == |a|
  {
    if a == "" {
      assert a + b == b;
    } else {
      assert (a + b)[1..] == a[1..] + b && (a + b)[0] == a[0];
      PositionSkips(a[1..], c, b);
    }
  }

  lemma {:induction false} PositionFirst(a: string, c: char, b: string)
    requires c !in a
    ensures Position(a + [c] + b, c) == |a|
  {
    assert a + [c] + b == a + ([c] + b);
    PositionSkips(a, c, [c] + b);
  }

  lemma {:induction false} PositionNone(a: string, c: char)
    requires c !in a
    ensures Position(a, c) == |a|
  {
    assert a + "" == a;
    PositionSkips(a, c, "");
  }

  // Numbers

  predicate IsSpace(c: char) { c == ' ' || 9 <= c as int <= 13 }

  predicate IsDigit(c: char) { '0' <= c <= '9' }

  function SkipSpace(s: string): string {
    if s != "" && IsSpace(s[0]) then SkipSpace(s[1..]) else s
  }

  function Number(s: string): nat
    requires forall i | 0 <= i < |s| :: IsDigit(s[i])
  {
    if s == "" then 0
    else
      assert IsDigit(s[|s| - 1]);
      Number(s[..|s| - 1]) * 10 + (s[|s| - 1] as int - '0' as int)
  }

  function Digit(d: nat): byte
    requires d < 10
  {
    (d + '0' as int) as char
  }

  function Decimal(n: nat): bytes {
    if n < 10 then [Digit(n)] else Decimal(n / 10) + [Digit(n % 10)]
  }

  lemma {:induction false} DecimalDigits(n: nat)
    ensures Decimal(n) != [] && (forall i | 0 <= i < |Decimal(n)| :: IsDigit(Decimal(n)[i])) && Number(Decimal(n)) == n
  {
    if n >= 10 {
      DecimalDigits(n / 10);
      var d := Decimal(n / 10) + [Digit(n % 10)];
      assert d[..|d| - 1] == Decimal(n / 10);
    } else {
      assert [Digit(n)][..0] == [];
    }
  }

  lemma {:induction false} DecimalExample()
    ensures Decimal(1234) == "1234"
  {
    assert Decimal(1) == "1" && Decimal(12) == "1" + "2" && Decimal(123) == "12" + "3";
  }

  // Partial results

  /** What was read before and what is read after it, unless that fails. */
  function Joined<T>(done: seq<T>, r: Result<seq<T>>): Result<seq<T>> {
    match r
    case Err => Err
    case Ok(more) => Ok(done + more)
  }

  lemma {:induction false} JoinedTwice<T>(a: seq<T>, b: seq<T>, r: Result<seq<T>>)
    ensures Joined(a, Joined(b, r)) == Joined(a + b, r)
  {
    if r.Ok? { Associative(a, b, r.value); }
  }

  lemma {:induction false} JoinedEmpty<T>(r: Result<seq<T>>)
    ensures Joined([], r) == r
  {
    if r.Ok? { assert [] + r.value == r.value; }
  }

  lemma {:induction false} JoinedNone<T>(done: seq<T>)
    ensures Joined(done, Ok([])) == Ok(done)
  {
    assert done + [] == done;
  }

  lemma {:induction false} Associative<T>(a: seq<T>, b: seq<T>, c: seq<T>)
    ensures (a + b) + c == a + (b + c)
  {
  }
}
