/**
 Device names of logical volumes (snapper/Lvm.cc, snapper/LvmUtils.cc): hyphens inside the names are doubled, a
 single hyphen stands between them.
 */
module Lvm {
  import opened Wrappers
  import Text

  const DEV_MAPPER_DIR := "/dev/mapper"

  function Double(s: string): string {
    if s == "" then "" else if s[0] == '-' then "--" + Double(s[1..]) else [s[0]] + Double(s[1..])
  }

  /** Replaces each pair of hyphens by one, from the left. */
  function Undouble(s: string): string {
    if s == "" then ""
    else if |s| >= 2 && s[0] == '-' && s[1] == '-' then "-" + Undouble(s[2..])
    else [s[0]] + Undouble(s[1..])
  }

  function DeviceName(vg: string, lv: string): string {
    DEV_MAPPER_DIR + "/" + Double(vg) + "-" + Double(lv)
  }

  /** A hyphen without hyphens next to it. */
  predicate Isolated(s: string, p: nat) {
    p < |s| && s[p] == '-' && (p > 0 ==> s[p - 1] != '-') && (p + 1 < |s| ==> s[p + 1] != '-')
  }

  /** A place where the pattern can match: an isolated hyphen with something on either side. */
  predicate CanSplit(s: string, p: nat) {
    0 < p && p + 1 < |s| && Isolated(s, p)
  }

  /** The last place below a bound, since the first group of the pattern is as long as possible. */
  function LastSplit(s: string, below: nat): (r: Option<nat>)
    ensures r.Some? ==> r.value < below && CanSplit(s, r.value) && forall p | r.value < p < below :: !CanSplit(s, p)
    ensures r.None? ==> forall p | 0 <= p < below :: !CanSplit(s, p)
  {
    if below == 0 then None else if CanSplit(s, below - 1) then Some(below - 1) else LastSplit(s, below - 1)
  }

  function SplitDeviceName(name: string): Option<(string, string)> {
    var dir := DEV_MAPPER_DIR + "/";
    if !(dir <= name) then None
    else
      var s := name[|dir|..];
      match LastSplit(s, |s|)
      case None => None
      case Some(p) => Some((Undouble(s[..p]), Undouble(s[p + 1..])))
  }

  lemma {:induction false} UndoubleDouble(s: string)
    ensures Undouble(Double(s)) == s
  {
    if s != "" {
      UndoubleDouble(s[1..]);
      var d := Double(s);
      if s[0] == '-' { assert d[2..] == Double(s[1..]); } else { assert d[1..] == Double(s[1..]); }
      assert [s[0]] + s[1..] == s;
    }
  }

  /** Doubling leaves no hyphen alone. */
  lemma {:induction false} NoneIsolated(s: string, p: nat)
    ensures !Isolated(Double(s), p)
  {
    if s != "" {
      var rest := Double(s[1..]);
      if s[0] == '-' {
        if p >= 2 {
          NoneIsolated(s[1..], p - 2);
          assert forall k | 2 <= k < |Double(s)| :: Double(s)[k] == rest[k - 2];
        }
      } else if p >= 1 {
        NoneIsolated(s[1..], p - 1);
        assert forall k | 1 <= k < |Double(s)| :: Double(s)[k] == rest[k - 1];
      }
    }
  }

  lemma {:induction false} DoubleEnds(s: string)
    ensures Double(s) == "" <==> s == ""
    ensures s != "" ==> (Double(s)[0] == '-' <==> s[0] == '-')
    ensures s != "" ==> (Double(s)[|Double(s)| - 1] == '-' <==> s[|s| - 1] == '-')
  {
    if s != "" {
      DoubleEnds(s[1..]);
      if |s| > 1 { assert Double(s)[|Double(s)| - 1] == Double(s[1..])[|Double(s[1..])| - 1]; }
    }
  }

  /** Names that a device name keeps apart. */
  predicate Separable(vg: string, lv: string) {
    vg != "" && lv != "" && vg[|vg| - 1] != '-' && lv[0] != '-'
  }

  /** The hyphen between the names is the only place to split, if it is one. */
  lemma {:induction false} OnePlace(vg: string, lv: string, p: nat)
    ensures CanSplit(Double(vg) + "-" + Double(lv), p) <==> p == |Double(vg)| && Separable(vg, lv)
  {
    var a, b := Double(vg), Double(lv);
    var s := a + "-" + b;
    DoubleEnds(vg);
    DoubleEnds(lv);
    if p < |a| {
      NoneIsolated(vg, p);
      assert s[p] == a[p] && (p > 0 ==> s[p - 1] == a[p - 1]) && (p + 1 < |a| ==> s[p + 1] == a[p + 1]);
    } else if p == |a| {
      assert s[p] == '-' && (p > 0 ==> s[p - 1] == a[p - 1]) && (b != "" ==> s[p + 1] == b[0]);
    } else if p < |s| {
      var q := p - |a| - 1;
      NoneIsolated(lv, q);
      assert s[p] == b[q] && (q > 0 ==> s[p - 1] == b[q - 1]) && (q == 0 ==> s[p - 1] == '-');
      assert q + 1 < |b| ==> s[p + 1] == b[q + 1];
    }
  }

  /** A device name is split into the names it was made of, or, if they run together, not at all. */
  lemma {:induction false} SplitRoundTrip(vg: string, lv: string)
    ensures SplitDeviceName(DeviceName(vg, lv)) == if Separable(vg, lv) then Some((vg, lv)) else None
  {
    var dir, a, b := DEV_MAPPER_DIR + "/", Double(vg), Double(lv);
    var s := a + "-" + b;
    assert DeviceName(vg, lv) == dir + s && (dir + s)[|dir|..] == s;
    forall p: nat ensures CanSplit(s, p) <==> p == |a| && Separable(vg, lv) { OnePlace(vg, lv, p); }
    var r := LastSplit(s, |s|);
    assert CanSplit(s, |a|) <==> Separable(vg, lv);
    assert r == if Separable(vg, lv) then Some(|a|) else None;
    assert s[..|a|] == a && s[|a| + 1..] == b;
    UndoubleDouble(vg);
    UndoubleDouble(lv);
  }

  function SnapshotLvName(lv: string, num: nat): string {
    lv + "-snapshot" + Text.Decimal(num)
  }

  /** The device of a snapshot leads back to its volume group and volume. */
  lemma {:induction false} SnapshotDevice(vg: string, lv: string, num: nat)
    ensures SplitDeviceName(DeviceName(vg, SnapshotLvName(lv, num))) ==
            if Separable(vg, lv) then Some((vg, SnapshotLvName(lv, num))) else None
  {
    var name := SnapshotLvName(lv, num);
    SplitRoundTrip(vg, name);
    assert name[0] == if lv == "" then '-' else lv[0];
  }

  lemma {:induction false} DoubleExample()
    ensures Double("a-b") == "a--b" && Double("c-d") == "c--d"
  {
    assert "a-b"[1..] == "-b" && "-b"[1..] == "b" && "b"[1..] == "";
    assert "c-d"[1..] == "-d" && "-d"[1..] == "d" && "d"[1..] == "";
    assert Double("-b") == "--b" && Double("-d") == "--d";
  }

  /** The names of a volume group and a volume with a hyphen each. */
  lemma {:induction false} DeviceExample()
    ensures DeviceName("a-b", "c-d") == "/dev/mapper/a--b-c--d"
    ensures SplitDeviceName("/dev/mapper/a--b-c--d") == Some(("a-b", "c-d"))
  {
    hide Double, SplitDeviceName;
    DoubleExample();
    SplitRoundTrip("a-b", "c-d");
  }
}
