/**
 Snapshots and sorted lists of them, as the library and the client keep them (snapper/Snapshot.h,
 client/proxy/proxy.h).
 */
module SnapshotList {
  import opened Wrappers

  datatype Kind = Single | Pre | Post

  datatype Snapshot = Snapshot(kind: Kind, num: nat, preNum: nat, date: int, cleanup: string,
                               userdata: map<string, string>)

  ghost predicate Ascending(s: seq<Snapshot>) {
    forall i, j | 0 <= i < j < |s| :: s[i].num < s[j].num
  }

  predicate IsPostOf(s: seq<Snapshot>, x: Snapshot, num: nat) {
    x in s && x.kind == Post && x.preNum == num
  }

  /** No pre snapshot has two post snapshots. */
  ghost predicate OnePost(s: seq<Snapshot>) {
    forall x, y, num | IsPostOf(s, x, num) && IsPostOf(s, y, num) :: x == y
  }

  lemma {:induction false} SameNumber(s: seq<Snapshot>, x: Snapshot, y: Snapshot)
    requires Ascending(s) && x in s && y in s && x.num == y.num
    ensures x == y
  {
    var i :| 0 <= i < |s| && s[i] == x;
    var j :| 0 <= j < |s| && s[j] == y;
  }

  lemma {:induction false} SamePost(s: seq<Snapshot>, x: Snapshot, y: Snapshot)
    requires OnePost(s) && x in s && y in s && x.kind == y.kind == Post && x.preNum == y.preNum
    ensures x == y
  {
    assert IsPostOf(s, x, x.preNum) && IsPostOf(s, y, x.preNum);
  }

  lemma {:induction false} OnePostOfPart(s: seq<Snapshot>, r: seq<Snapshot>)
    requires OnePost(s) && forall x | x in r :: x in s
    ensures OnePost(r)
  {
    forall x, y, num | IsPostOf(r, x, num) && IsPostOf(r, y, num) ensures x == y { SamePost(s, x, y); }
  }

  lemma {:induction false} HeadAndTail(a: seq<Snapshot>)
    requires a != []
    ensures a == [a[0]] + a[1..]
  {
  }

  lemma {:induction false} TailAscending(s: seq<Snapshot>)
    requires Ascending(s) && s != []
    ensures Ascending(s[1..]) && forall x | x in s[1..] :: s[0].num < x.num
  {
  }

  /** A sorted list is known by its members. */
  lemma {:induction false} SameAscending(a: seq<Snapshot>, b: seq<Snapshot>)
    requires Ascending(a) && Ascending(b) && forall x :: x in a <==> x in b
    ensures a == b
  {
    assert b != [] ==> b[0] in b;
    if a != [] {
      assert a[0] in b && b[0] in a;
      TailAscending(a);
      TailAscending(b);
      hide Ascending;
      HeadAndTail(a);
      HeadAndTail(b);
      assert a[0] == b[0];
      forall x ensures x in a[1..] <==> x in b[1..] {
        assert x in a <==> x == a[0] || x in a[1..];
        assert x in b <==> x == b[0] || x in b[1..];
      }
      SameAscending(a[1..], b[1..]);
    }
  }

  // Pairs

  function FindPost(s: seq<Snapshot>, num: nat): Option<Snapshot> {
    if s == [] then None
    else if s[0].kind == Post && s[0].preNum == num then Some(s[0])
    else FindPost(s[1..], num)
  }

  lemma {:induction false} FindPostIs(s: seq<Snapshot>, num: nat)
    ensures FindPost(s, num).Some? ==> IsPostOf(s, FindPost(s, num).value, num)
    ensures FindPost(s, num).None? ==> forall x | x in s :: !(x.kind == Post && x.preNum == num)
  {
    if s != [] { FindPostIs(s[1..], num); }
  }

  // Erasing

  /** The snapshots of a list whose numbers are not among some, in order. */
  function Without(s: seq<Snapshot>, nums: set<nat>): seq<Snapshot> {
    if s == [] then []
    else
      var n := |s| - 1;
      Without(s[..n], nums) + (if s[n].num in nums then [] else [s[n]])
  }

  lemma {:induction false} WithoutElements(s: seq<Snapshot>, nums: set<nat>)
    ensures forall x :: x in Without(s, nums) <==> x in s && x.num !in nums
  {
    if s != [] {
      WithoutElements(s[..|s| - 1], nums);
      assert s == s[..|s| - 1] + [s[|s| - 1]];
    }
  }

  lemma {:induction false} WithoutAscending(s: seq<Snapshot>, nums: set<nat>)
    requires Ascending(s)
    ensures Ascending(Without(s, nums))
  {
    if s != [] {
      var n := |s| - 1;
      WithoutAscending(s[..n], nums);
      WithoutElements(s[..n], nums);
      var r := Without(s[..n], nums);
      forall i | 0 <= i < |r| ensures r[i].num < s[n].num {
        assert r[i] in s[..n];
        var k :| 0 <= k < n && s[..n][k] == r[i];
        assert s[k].num < s[n].num;
      }
    }
  }

  lemma {:induction false} WithoutAppended(s: seq<Snapshot>, x: Snapshot, nums: set<nat>)
    ensures Without(s + [x], nums) == Without(s, nums) + (if x.num in nums then [] else [x])
  {
    assert (s + [x])[..|s + [x]| - 1] == s;
  }

  lemma {:induction false} WithoutNone(s: seq<Snapshot>, nums: set<nat>)
    requires forall x | x in s :: x.num !in nums
    ensures Without(s, nums) == s
  {
    if s != [] {
      WithoutNone(s[..|s| - 1], nums);
      assert s == s[..|s| - 1] + [s[|s| - 1]];
    }
  }

  lemma {:induction false} WithoutKeepsFirst(s: seq<Snapshot>, nums: set<nat>)
    requires s != [] && s[0].num !in nums
    ensures Without(s, nums) != [] && Without(s, nums)[0] == s[0]
  {
    if |s| == 1 {
      assert s[..0] == [];
    } else {
      WithoutKeepsFirst(s[..|s| - 1], nums);
    }
  }
}
