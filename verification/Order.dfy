/**
 Byte order on strings: the order of std::string's operator<, and of std::collate in the C locale.
 Also the sorting of lists by a string key, and what a sorted list without repeated keys is.
 */
module Order {

  /** True iff a comes strictly before b. */
  predicate Less(a: string, b: string) {
    if |b| == 0 then false
    else if |a| == 0 then true
    else a[0] < b[0] || (a[0] == b[0] && Less(a[1..], b[1..]))
  }

  lemma {:induction false} Trichotomy(a: string, b: string)
    ensures Less(a, b) || a == b || Less(b, a)
    ensures !(Less(a, b) && Less(b, a))
    ensures a == b ==> !Less(a, b)
  {
    if |a| > 0 && |b| > 0 {
      Trichotomy(a[1..], b[1..]);
      assert a == [a[0]] + a[1..] && b == [b[0]] + b[1..];
    }
  }

  lemma {:induction false} Transitive(a: string, b: string, c: string)
    requires Less(a, b) && Less(b, c)
    ensures Less(a, c)
  {
    if |a| > 0 && a[0] == b[0] == c[0] {
      Transitive(a[1..], b[1..], c[1..]);
    }
  }

  /** The first difference decides, by the byte values. */
  lemma {:induction false} FirstDifference(p: string, x: char, y: char, a: string, b: string)
    requires x != y
    ensures Less(p + [x] + a, p + [y] + b) <==> x < y
  {
    var s, t := p + [x] + a, p + [y] + b;
    if p == "" {
      assert s[0] == x && t[0] == y;
    } else {
      FirstDifference(p[1..], x, y, a, b);
      assert s[1..] == p[1..] + [x] + a && t[1..] == p[1..] + [y] + b && s[0] == t[0] == p[0];
    }
  }

  /** A proper prefix comes first: this is what puts a directory before everything below it. */
  lemma {:induction false} PrefixComesFirst(a: string, b: string)
    requires b != []
    ensures Less(a, a + b)
  {
    if |a| > 0 {
      PrefixComesFirst(a[1..], b);
      assert (a + b)[1..] == a[1..] + b;
    }
  }

  /** Every key is strictly before the keys after it. */
  ghost predicate StrictlySorted<T>(s: seq<T>, key: T -> string) {
    forall i, j | 0 <= i < j < |s| :: Less(key(s[i]), key(s[j]))
  }

  /** No key comes before one that stands earlier. */
  ghost predicate Sorted<T>(s: seq<T>, key: T -> string) {
    forall i, j | 0 <= i < j < |s| :: !Less(key(s[j]), key(s[i]))
  }

  ghost predicate DistinctKeys<T>(s: seq<T>, key: T -> string) {
    forall i, j | 0 <= i < j < |s| :: key(s[i]) != key(s[j])
  }

  function Insert<T>(x: T, s: seq<T>, key: T -> string): (r: seq<T>)
    ensures multiset(r) == multiset(s) + multiset{x}
  {
    if s == [] || Less(key(x), key(s[0])) then [x] + s
    else
      assert s == [s[0]] + s[1..];
      [s[0]] + Insert(x, s[1..], key)
  }

  /** The sorting of a list by its keys. */
  function SortBy<T>(s: seq<T>, key: T -> string): (r: seq<T>)
    ensures multiset(r) == multiset(s)
  {
    if s == [] then []
    else
      assert s == [s[0]] + s[1..];
      Insert(s[0], SortBy(s[1..], key), key)
  }

  lemma {:induction false} SameElement<T>(s: seq<T>, r: seq<T>, x: T)
    requires multiset(s) == multiset(r)
    ensures x in s <==> x in r
  {
    assert x in s <==> x in multiset(s);
    assert x in r <==> x in multiset(r);
  }

  lemma {:induction false} NotLessTransitive(a: string, b: string, c: string)
    requires !Less(b, a) && !Less(c, b)
    ensures !Less(c, a)
  {
    Trichotomy(a, b);
    Trichotomy(b, c);
    Trichotomy(a, c);
    if Less(a, b) && Less(b, c) { Transitive(a, b, c); }
  }

  lemma {:induction false} InsertSorts<T>(x: T, s: seq<T>, key: T -> string)
    requires Sorted(s, key)
    ensures Sorted(Insert(x, s, key), key)
  {
    var r := Insert(x, s, key);
    if s == [] {
    } else if Less(key(x), key(s[0])) {
      Trichotomy(key(x), key(s[0]));
      forall i, j | 0 <= i < j < |r| ensures !Less(key(r[j]), key(r[i])) {
        if i == 0 && j >= 2 { NotLessTransitive(key(x), key(s[0]), key(s[j - 1])); }
      }
    } else {
      var t := Insert(x, s[1..], key);
      InsertSorts(x, s[1..], key);
      assert s == [s[0]] + s[1..];
      forall j | 0 <= j < |t| ensures !Less(key(t[j]), key(s[0])) {
        SameElement(t, s[1..] + [x], t[j]);
      }
    }
  }

  lemma {:induction false} SortBySorts<T>(s: seq<T>, key: T -> string)
    ensures Sorted(SortBy(s, key), key)
  {
    if s != [] {
      SortBySorts(s[1..], key);
      InsertSorts(s[0], SortBy(s[1..], key), key);
    }
  }

  lemma {:induction false} MultiplicityOne<T>(s: seq<T>, key: T -> string, x: T)
    requires DistinctKeys(s, key)
    ensures multiset(s)[x] <= 1
  {
    if s != [] {
      assert s == [s[0]] + s[1..];
      MultiplicityOne(s[1..], key, x);
    }
  }

  lemma {:induction false} DifferentKeys<T>(s: seq<T>, key: T -> string, x: T, y: T)
    requires DistinctKeys(s, key) && x in s && y in s && x != y
    ensures key(x) != key(y)
  {
    var i :| 0 <= i < |s| && s[i] == x;
    var j :| 0 <= j < |s| && s[j] == y;
  }

  lemma {:induction false} TwoPlaces<T>(s: seq<T>, i: nat, j: nat)
    requires i < j < |s| && s[i] == s[j]
    ensures multiset(s)[s[i]] >= 2
  {
    assert s == s[..i] + [s[i]] + s[i + 1..j] + [s[j]] + s[j + 1..];
  }

  /** Sorting a list without repeated keys gives strictly ascending keys. */
  lemma {:induction false} SortByStrict<T>(s: seq<T>, key: T -> string)
    requires DistinctKeys(s, key)
    ensures StrictlySorted(SortBy(s, key), key)
    ensures forall x :: x in SortBy(s, key) <==> x in s
  {
    var r := SortBy(s, key);
    SortBySorts(s, key);
    forall x ensures x in r <==> x in s { SameElement(r, s, x); }
    forall i, j | 0 <= i < j < |r| ensures Less(key(r[i]), key(r[j])) {
      Trichotomy(key(r[i]), key(r[j]));
      SameElement(r, s, r[i]);
      SameElement(r, s, r[j]);
      MultiplicityOne(s, key, r[i]);
      if r[i] == r[j] {
        TwoPlaces(r, i, j);
        assert false;
      }
      DifferentKeys(s, key, r[i], r[j]);
    }
  }

  /** A strictly sorted list is determined by its elements. */
  lemma {:induction false} StrictlySortedUnique<T>(s: seq<T>, r: seq<T>, key: T -> string)
    requires StrictlySorted(s, key) && StrictlySorted(r, key)
    requires forall x :: x in s <==> x in r
    ensures s == r
  {
    if s == [] {
      assert forall x :: x in r ==> x in s;
      assert forall i | 0 <= i < |r| :: r[i] in r;
    } else {
      assert s[0] in r;
      assert r[0] in s;
      var i :| 0 <= i < |r| && r[i] == s[0];
      var j :| 0 <= j < |s| && s[j] == r[0];
      Trichotomy(key(s[0]), key(r[0]));
      assert s[0] == r[0];
      forall x ensures x in s[1..] <==> x in r[1..] {
        TailElement(s, key, x);
        TailElement(r, key, x);
      }
      StrictlySortedUnique(s[1..], r[1..], key);
      assert s == [s[0]] + s[1..] && r == [r[0]] + r[1..];
    }
  }

  lemma {:induction false} TailElement<T>(s: seq<T>, key: T -> string, x: T)
    requires StrictlySorted(s, key) && s != []
    ensures x in s[1..] <==> x in s && x != s[0]
  {
    Trichotomy(key(s[0]), key(s[0]));
    if x in s[1..] {
      var i :| 0 <= i < |s| - 1 && s[1..][i] == x;
      assert Less(key(s[0]), key(s[i + 1]));
    }
    if x in s && x != s[0] {
      var i :| 0 <= i < |s| && s[i] == x;
      assert s[1..][i - 1] == x;
    }
  }
}
