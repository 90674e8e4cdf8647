/**
 The comparison across mounted file systems (snapper/Compare.cc): a name is passed over with all below it where the
 devices of the two roots are left, and otherwise each path is judged by what stands there alone.
 */
module CompareDevices {
  import opened Wrappers
  import opened FileStatus
  import opened Trees
  import opened Compare

  /** The first k names of a path lead to a name that is looked at with the devices: on both sides, or first on one. */
  ghost predicate Judged(t1: Tree, t2: Tree, p: Path, k: nat)
    requires 0 < k <= |p|
  {
    var i1, i2 := At(t1, p[..k - 1]), At(t2, p[..k - 1]);
    k == 1 || (i1.Some? && i2.Some? && Alike(i1.value.node, i2.value.node))
  }

  /** What stands after k names is on the devices of the roots, if that is asked at all. */
  ghost predicate AtHome(d: Devices, t1: Tree, t2: Tree, p: Path, k: nat)
    requires 0 < k <= |p|
  {
    match (At(t1, p[..k]), At(t2, p[..k]))
    case (None, None) => true
    case (Some(a), Some(b)) => a.dev == d.dev1 && b.dev == d.dev2
    case (Some(a), None) => Judged(t1, t2, p, k) ==> a.dev == d.dev1
    case (None, Some(b)) => Judged(t1, t2, p, k) ==> b.dev == d.dev2
  }

  /** No foreign device is met on the way to a path. */
  ghost predicate Entered(d: Devices, t1: Tree, t2: Tree, p: Path) {
    forall k | 0 < k <= |p| :: AtHome(d, t1, t2, p, k)
  }

  lemma {:induction false} AtPrefix(t: Tree, p: Path, k: nat)
    requires 0 < k <= |p|
    ensures At(t, p[..k]) == match Child(t, p[0]) {
      case None => None
      case Some(c) => At(c, p[1..][..k - 1])
    }
  {
    assert p[..k][0] == p[0] && p[..k][1..] == p[1..][..k - 1];
  }

  lemma {:induction false} FirstName(d: Devices, t1: Tree, t2: Tree, p: Path)
    requires p != []
    ensures AtHome(d, t1, t2, p, 1) <==>
            match (Child(t1, p[0]), Child(t2, p[0]))
            case (None, None) => true
            case (Some(a), Some(b)) => a.info.dev == d.dev1 && b.info.dev == d.dev2
            case (Some(a), None) => a.info.dev == d.dev1
            case (None, Some(b)) => b.info.dev == d.dev2
  {
    AtPrefix(t1, p, 1);
    AtPrefix(t2, p, 1);
    assert p[1..][..0] == [];
  }

  /** Below a name that is a directory on both sides the way goes on. */
  lemma {:induction false} WayGoesOn(d: Devices, t1: Tree, t2: Tree, p: Path, a: Tree, b: Tree)
    requires |p| > 1 && Child(t1, p[0]) == Some(a) && Child(t2, p[0]) == Some(b) && Alike(a.info.node, b.info.node)
    ensures Entered(d, t1, t2, p) <==> AtHome(d, t1, t2, p, 1) && Entered(d, a, b, p[1..])
  {
    hide AtHome;
    forall k | 1 < k <= |p| ensures AtHome(d, t1, t2, p, k) <==> AtHome(d, a, b, p[1..], k - 1) {
      NextName(d, t1, t2, p, k, a, b);
    }
    if AtHome(d, t1, t2, p, 1) && Entered(d, a, b, p[1..]) {
      forall k | 0 < k <= |p| ensures AtHome(d, t1, t2, p, k) {
        if k > 1 { assert AtHome(d, a, b, p[1..], k - 1); }
      }
    }
    if Entered(d, t1, t2, p) {
      forall k | 0 < k <= |p[1..]| ensures AtHome(d, a, b, p[1..], k) { assert AtHome(d, t1, t2, p, k + 1); }
    }
  }

  lemma {:induction false} NextName(d: Devices, t1: Tree, t2: Tree, p: Path, k: nat, a: Tree, b: Tree)
    requires 1 < k <= |p| && Child(t1, p[0]) == Some(a) && Child(t2, p[0]) == Some(b)
    requires Alike(a.info.node, b.info.node)
    ensures AtHome(d, t1, t2, p, k) <==> AtHome(d, a, b, p[1..], k - 1)
  {
    hide Child;
    AtPrefix(t1, p, k);
    AtPrefix(t2, p, k);
    AtPrefix(t1, p, k - 1);
    AtPrefix(t2, p, k - 1);
    if k == 2 { assert p[1..][..0] == []; }
  }

  /** Below any other name nothing is asked any more. */
  lemma {:induction false} WayIsOpen(d: Devices, t1: Tree, t2: Tree, p: Path)
    requires p != [] && Valid(t1) && Valid(t2)
    requires !(Child(t1, p[0]).Some? && Child(t2, p[0]).Some?
               && Alike(Child(t1, p[0]).value.info.node, Child(t2, p[0]).value.info.node))
    ensures Entered(d, t1, t2, p) <==> AtHome(d, t1, t2, p, 1)
    ensures |p| > 1 ==> At(t1, p).None? || At(t2, p).None?
  {
    hide AtHome;
    forall k | 1 < k <= |p| ensures AtHome(d, t1, t2, p, k) && (At(t1, p[..k]).None? || At(t2, p[..k]).None?) {
      OpenName(d, t1, t2, p, k);
    }
    assert p[..|p|] == p;
  }

  lemma {:induction false} OpenName(d: Devices, t1: Tree, t2: Tree, p: Path, k: nat)
    requires 1 < k <= |p| && Valid(t1) && Valid(t2)
    requires !(Child(t1, p[0]).Some? && Child(t2, p[0]).Some?
               && Alike(Child(t1, p[0]).value.info.node, Child(t2, p[0]).value.info.node))
    ensures AtHome(d, t1, t2, p, k) && (At(t1, p[..k]).None? || At(t2, p[..k]).None?)
  {
    var c1, c2 := Child(t1, p[0]), Child(t2, p[0]);
    AtPrefix(t1, p, k);
    AtPrefix(t2, p, k);
    AtPrefix(t1, p, k - 1);
    AtPrefix(t2, p, k - 1);
    if c1.Some? { ChildValid(t1, p[0]); }
    if c2.Some? { ChildValid(t2, p[0]); }
    hide Valid, Child, At;
    if c1.Some? && c2.Some? {
      if !c1.value.info.node.Dir? { NothingBelow(c1.value); }
      if !c2.value.info.node.Dir? { NothingBelow(c2.value); }
      if k == 2 { assert p[1..][..0] == []; RootIsThere(c1.value); RootIsThere(c2.value); }
    }
  }

  lemma {:induction false} RootIsThere(t: Tree)
    ensures At(t, []) == Some(t.info)
  {
  }

  lemma {:induction false} NothingBelow(t: Tree)
    requires Valid(t) && !t.info.node.Dir?
    ensures forall rel: Path | rel != [] :: At(t, rel).None?
  {
    NoEntries(t);
  }

  lemma {:induction false} AlikeIffSameType(a: Info, b: Info)
    ensures Alike(a.node, b.node) <==> !Changes(a, b).kind
  {
  }

  /** The difference at a path, whatever the devices: what stands there on either side, if the path is entered. */
  lemma {:induction false} DiffIsFlat(d: Devices, t1: Tree, t2: Tree, base: Path, rel: Path)
    requires Valid(t1) && Valid(t2) && rel != [] && Visible(base + rel)
    ensures DiffAt(d, t1, t2, base, rel) ==
            if Entered(d, t1, t2, rel) then FlatDiff(At(t1, rel), At(t2, rel)) else None
    decreases |rel|
  {
    var n, inner := rel[0], rel[1..];
    FilteredIff(base + [n]);
    assert (base + rel)[0] == (base + [n])[0];
    var c1, c2 := Child(t1, n), Child(t2, n);
    FirstName(d, t1, t2, rel);
    if c1.Some? && c2.Some? { AlikeIffSameType(c1.value.info, c2.value.info); }
    if c1.Some? && c2.Some? && Alike(c1.value.info.node, c2.value.info.node) && inner != [] {
      ChildValid(t1, n);
      ChildValid(t2, n);
      WayGoesOn(d, t1, t2, rel, c1.value, c2.value);
      Regroup(base, rel);
      DiffIsFlat(d, c1.value, c2.value, base + [n], inner);
      hide Valid, Entered, AtHome, FlatDiff, Alike;
    } else {
      if inner == [] { OneName(d, t1, t2, rel); } else { WayIsOpen(d, t1, t2, rel); }
      hide Valid, Entered, AtHome, Alike;
    }
  }

  lemma {:induction false} OneName(d: Devices, t1: Tree, t2: Tree, p: Path)
    requires |p| == 1
    ensures Entered(d, t1, t2, p) <==> AtHome(d, t1, t2, p, 1)
  {
  }

  /** The reports of any comparison: each differing visible path that is entered, once, with the right flags. */
  lemma {:induction false} ReportedExactly(t1: Tree, t2: Tree, out: seq<Entry>)
    requires Valid(t1) && Valid(t2)
    requires Exact(out, Difference(Devices(t1.info.dev, t2.info.dev), t1, t2, []), [])
    ensures forall p: Path, s: Status :: Entry(p, s) in out <==>
      && Visible(p) && Entered(Devices(t1.info.dev, t2.info.dev), t1, t2, p)
      && FlatDiff(At(t1, p), At(t2, p)) == Some(s)
  {
    var d := Devices(t1.info.dev, t2.info.dev);
    var l := Difference(d, t1, t2, []);
    forall p: Path, s: Status
      ensures Entry(p, s) in out <==>
              Visible(p) && Entered(d, t1, t2, p) && FlatDiff(At(t1, p), At(t2, p)) == Some(s)
    {
      hide Valid, Entered, FlatDiff, At;
      if Entry(p, s) in out {
        assert Sound(Entry(p, s), l, []);
        assert p[0..] == p;
        FilteredIff([] + [p[0]]);
      }
      if Visible(p) {
        assert [] + p == p;
        DiffIsFlat(d, t1, t2, [], p);
        if l(p).Some? { assert Entry([] + p, l(p).value) in out; }
      }
    }
  }
}
