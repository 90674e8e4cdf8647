/**
 Which snapshots a cleanup algorithm proposes for deletion (client/cleanup.cc, calculate_candidates).
 The loops over a list being erased from are proved to keep exactly the newest few of the marked
 snapshots, and keeping these is proved stable under the deletion of others.
 */
module Retention {
  import opened SnapshotList
  import Text

  // The newest few of a set of numbers

  function Above(f: set<nat>, n: nat): set<nat> {
    set z | z in f && z > n
  }

  /** The numbers of f with fewer than limit others above them. */
  function Newest(f: set<nat>, limit: nat): set<nat> {
    set y | y in f && |Above(f, y)| < limit
  }

  lemma {:induction false} LeastExists(f: set<nat>) returns (m: nat)
    requires f != {}
    ensures m in f && forall z | z in f :: m <= z
  {
    var some :| some in f;
    var below := set z | z in f && z < some;
    if below == {} {
      m := some;
      forall z | z in f ensures m <= z { assert z !in below; }
    } else {
      assert below < f;
      m := LeastExists(below);
      forall z | z in f ensures m <= z { assert z in below || z >= some; }
    }
  }

  function Min(a: nat, b: nat): nat { if a < b then a else b }

  lemma {:induction false} NewestSize(f: set<nat>, limit: nat)
    ensures |Newest(f, limit)| == Min(|f|, limit)
  {
    if f == {} {
      assert Newest(f, limit) == {};
    } else {
      var m := LeastExists(f);
      var g := f - {m};
      NewestSize(g, limit);
      assert Above(f, m) == g;
      assert forall y | y in g :: Above(f, y) == Above(g, y);
      assert Newest(f, limit) == Newest(g, limit) + if |g| < limit then {m} else {};
    }
  }

  /** The newest few are those that stand above all the others and are as many as allowed. */
  lemma {:induction false} NewestUnique(f: set<nat>, limit: nat, t: set<nat>)
    requires t <= f && |t| == Min(|f|, limit)
    requires forall y, z | y in t && z in f && z !in t :: z < y
    ensures t == Newest(f, limit)
  {
    NewestSize(f, limit);
    var u := Newest(f, limit);
    forall y | y in t ensures y in u {
      assert Above(f, y) <= t - {y};
      Smaller(Above(f, y), t - {y});
    }
    Equal(t, u);
  }

  lemma {:induction false} Smaller(a: set<nat>, b: set<nat>)
    ensures a <= b ==> |a| <= |b|
  {
    if a <= b { assert b == a + (b - a); }
  }

  lemma {:induction false} NewestAboveOthers(f: set<nat>, limit: nat, y: nat, z: nat)
    requires y in Newest(f, limit) && z in f && z !in Newest(f, limit)
    ensures z < y
  {
    if z >= y {
      assert Above(f, z) <= Above(f, y);
      Smaller(Above(f, z), Above(f, y));
    }
  }

  lemma {:induction false} NewestMonotone(f: set<nat>, low: nat, high: nat)
    requires low <= high
    ensures Newest(f, low) <= Newest(f, high)
  {
  }

  /** Changing the numbers below the newest few leaves these the newest few. */
  lemma {:induction false} NewestStable(f: set<nat>, g: set<nat>, limit: nat)
    requires Newest(f, limit) <= g
    requires forall z | z in g && z !in f :: |f| >= limit && forall y | y in Newest(f, limit) :: z < y
    ensures Newest(g, limit) == Newest(f, limit)
  {
    var t := Newest(f, limit);
    NewestSize(f, limit);
    forall y, z | y in t && z in g && z !in t ensures z < y {
      if z in f { NewestAboveOthers(f, limit, y, z); }
    }
    Smaller(t, g);
    if |f| < limit {
      Equal(t, f);
      assert g <= f;
      assert g == t;
    }
    NewestUnique(g, limit, t);
  }

  lemma {:induction false} Equal(a: set<nat>, b: set<nat>)
    requires a <= b && |a| == |b|
    ensures a == b
  {
    assert b == a + (b - a);
  }

  // Marks

  function Nums(s: seq<Snapshot>): set<nat> {
    set x | x in s :: x.num
  }

  function IsImportant(x: Snapshot): bool {
    "important" in x.userdata && x.userdata["important"] == "yes"
  }

  function Important(s: seq<Snapshot>): set<nat> {
    set x | x in s && IsImportant(x) :: x.num
  }

  /** No snapshot of the list is older and in the same period. */
  predicate FirstInPeriod(s: seq<Snapshot>, period: int -> int, x: Snapshot) {
    forall y | y in s && period(y.date) == period(x.date) :: y.date >= x.date
  }

  function Firsts(s: seq<Snapshot>, period: int -> int): set<nat> {
    set x | x in s && FirstInPeriod(s, period, x) :: x.num
  }

  ghost predicate Monotone(period: int -> int) {
    forall a, b | a <= b :: period(a) <= period(b)
  }

  ghost predicate DatesAscend(s: seq<Snapshot>) {
    forall x, y | x in s && y in s && x.num <= y.num :: x.date <= y.date
  }

  /** A shorter list of the same snapshots. */
  ghost predicate Sublist(r: seq<Snapshot>, s: seq<Snapshot>) {
    Ascending(r) && forall x | x in r :: x in s
  }

  lemma {:induction false} NewFirstsAreOld(s: seq<Snapshot>, r: seq<Snapshot>, period: int -> int, limit: nat,
                                           f: Snapshot)
    requires Ascending(s) && Sublist(r, s) && DatesAscend(s) && Monotone(period)
    requires Newest(Firsts(s, period), limit) <= Nums(r)
    requires f in r && FirstInPeriod(r, period, f) && f.num !in Firsts(s, period)
    ensures |Firsts(s, period)| >= limit
    ensures forall t | t in Newest(Firsts(s, period), limit) :: f.num < t
  {
    var all := Firsts(s, period);
    assert f in s && !FirstInPeriod(s, period, f);
    var h := OldestInPeriod(s, period, f);
    assert h !in r;
    assert h.num in all;
    if h.num in Newest(all, limit) {
      var h' :| h' in r && h'.num == h.num;
      SameNumber(s, h, h');
    }
    Smaller(Above(all, h.num), all);
    forall t | t in Newest(all, limit) ensures f.num < t {
      NewestAboveOthers(all, limit, t, h.num);
      var x :| x in s && FirstInPeriod(s, period, x) && x.num == t;
      var x' :| x' in r && x'.num == t;
      SameNumber(s, x, x');
      assert t <= f.num ==> h.date <= x.date <= f.date;
      assert t <= f.num ==> period(h.date) <= period(x.date) <= period(f.date);
    }
  }

  /** Some snapshot in the period of f is the oldest one there, and older than f if f is not. */
  lemma {:induction false} OldestInPeriod(s: seq<Snapshot>, period: int -> int, f: Snapshot) returns (h: Snapshot)
    requires f in s
    ensures h in s && period(h.date) == period(f.date) && FirstInPeriod(s, period, h) && h.date <= f.date
    ensures !FirstInPeriod(s, period, f) ==> h.date < f.date
    decreases |set y | y in s && period(y.date) == period(f.date) && y.date < f.date|
  {
    h := f;
    if !FirstInPeriod(s, period, f) {
      var y :| y in s && period(y.date) == period(f.date) && y.date < f.date;
      var older := set z | z in s && period(z.date) == period(f.date) && z.date < f.date;
      var older' := set z | z in s && period(z.date) == period(y.date) && z.date < y.date;
      assert older' <= older - {y};
      SmallerSnapshots(older', older - {y});
      h := OldestInPeriod(s, period, y);
    }
  }

  lemma {:induction false} SmallerSnapshots(a: set<Snapshot>, b: set<Snapshot>)
    requires a <= b
    ensures |a| <= |b|
  {
    assert b == a + (b - a);
  }

  /** Deleting snapshots other than the newest first ones of their periods leaves these the newest first ones. */
  lemma {:induction false} FirstsStable(s: seq<Snapshot>, r: seq<Snapshot>, period: int -> int, limit: nat)
    requires Ascending(s) && Sublist(r, s) && DatesAscend(s) && Monotone(period)
    requires Newest(Firsts(s, period), limit) <= Nums(r)
    ensures Newest(Firsts(r, period), limit) == Newest(Firsts(s, period), limit)
  {
    var f, g := Firsts(s, period), Firsts(r, period);
    forall n | n in Newest(f, limit) ensures n in g {
      var x :| x in s && FirstInPeriod(s, period, x) && x.num == n;
      var x' :| x' in r && x'.num == n;
      SameNumber(s, x, x');
    }
    forall z | z in g && z !in f ensures |f| >= limit && forall y | y in Newest(f, limit) :: z < y {
      var x :| x in r && FirstInPeriod(r, period, x) && x.num == z;
      NewFirstsAreOld(s, r, period, limit, x);
    }
    NewestStable(f, g, limit);
  }

  /** The same for marks that do not depend on the other snapshots. */
  lemma {:induction false} MarksStable(f: set<nat>, g: set<nat>, limit: nat)
    requires Newest(f, limit) <= g <= f
    ensures Newest(g, limit) == Newest(f, limit)
  {
    NewestStable(f, g, limit);
  }

  // Policies

  datatype Limits = Limits(min: nat, max: nat)

  /** A parsed range: the parser refuses a minimum above the maximum. */
  type Range = r: Limits | r.min <= r.max witness Limits(0, 0)

  datatype Bound = MIN | MAX

  function Value(r: Range, b: Bound): nat {
    match b
    case MIN => r.min
    case MAX => r.max
  }

  /** The period that a date falls into, by granularity. */
  datatype Calendar = Calendar(hour: int -> int, day: int -> int, week: int -> int, month: int -> int,
                               quarter: int -> int, year: int -> int)

  ghost predicate Sane(c: Calendar) {
    && Monotone(c.hour) && Monotone(c.day) && Monotone(c.week)
    && Monotone(c.month) && Monotone(c.quarter) && Monotone(c.year)
  }

  datatype Policy =
    | Number(limit: Range, important: Range)
    | Timeline(hourly: Range, daily: Range, weekly: Range, monthly: Range, quarterly: Range, yearly: Range,
               calendar: Calendar)

  function Tag(policy: Policy): string {
    match policy
    case Number(_, _) => "number"
    case Timeline(_, _, _, _, _, _, _) => "timeline"
  }

  predicate IsDegenerated(policy: Policy) {
    match policy
    case Number(l, i) => l.min == l.max && i.min == i.max
    case Timeline(h, d, w, m, q, y, _) =>
      h.min == h.max && d.min == d.max && m.min == m.max && w.min == w.max && q.min == q.max && y.min == y.max
  }

  /** Some limit of the policy leaves a choice. */
  ghost predicate HasRange(policy: Policy) {
    match policy
    case Number(l, i) => l.min < l.max || i.min < i.max
    case Timeline(h, d, w, m, q, y, _) =>
      h.min < h.max || d.min < d.max || w.min < w.max || m.min < m.max || q.min < q.max || y.min < y.max
  }

  /** Without a choice the lower bounds give no more than the upper ones, so that conditional passes are in vain. */
  lemma {:induction false} NoRangeNoMore(policy: Policy, s: seq<Snapshot>)
    ensures IsDegenerated(policy) <==> !HasRange(policy)
    ensures !HasRange(policy) ==> Candidates(policy, s, MIN) == Candidates(policy, s, MAX)
  {
  }

  /** The snapshots that a policy looks after, in order. */
  function Tagged(s: seq<Snapshot>, tag: string): seq<Snapshot> {
    if s == [] then []
    else
      Tagged(s[..|s| - 1], tag) + (if s[|s| - 1].cleanup == tag then [s[|s| - 1]] else [])
  }

  /** The numbers that a policy keeps: of each kind of mark, the newest few. */
  function KeptOf(policy: Policy, t: seq<Snapshot>, b: Bound): set<nat> {
    match policy
    case Number(limit, important) =>
      Newest(Nums(t), Value(limit, b)) + Newest(Important(t), Value(important, b))
    case Timeline(h, d, w, m, q, y, c) =>
      Newest(Firsts(t, c.hour), Value(h, b)) + Newest(Firsts(t, c.day), Value(d, b))
      + Newest(Firsts(t, c.week), Value(w, b)) + Newest(Firsts(t, c.month), Value(m, b))
      + Newest(Firsts(t, c.quarter), Value(q, b)) + Newest(Firsts(t, c.year), Value(y, b))
  }

  function Kept(policy: Policy, s: seq<Snapshot>, b: Bound): set<nat> {
    KeptOf(policy, Tagged(s, Tag(policy)), b)
  }

  function Candidates(policy: Policy, s: seq<Snapshot>, b: Bound): seq<Snapshot> {
    Without(Tagged(s, Tag(policy)), Kept(policy, s, b))
  }

  /** The assumption on dates under which the timeline has a meaning: they do not go down with the numbers. */
  ghost predicate Orderly(policy: Policy, s: seq<Snapshot>) {
    policy.Timeline? ==> DatesAscend(Tagged(s, Tag(policy))) && Sane(policy.calendar)
  }

  lemma {:induction false} TaggedElements(s: seq<Snapshot>, tag: string)
    ensures forall x :: x in Tagged(s, tag) <==> x in s && x.cleanup == tag
  {
    if s != [] {
      TaggedElements(s[..|s| - 1], tag);
      assert s == s[..|s| - 1] + [s[|s| - 1]];
    }
  }

  lemma {:induction false} TaggedSublist(s: seq<Snapshot>, tag: string)
    requires Ascending(s)
    ensures Ascending(Tagged(s, tag))
  {
    if s != [] {
      var n := |s| - 1;
      TaggedSublist(s[..n], tag);
      TaggedElements(s[..n], tag);
      var t := Tagged(s[..n], tag);
      forall i | 0 <= i < |t| ensures t[i].num < s[n].num {
        assert t[i] in s[..n];
        var k :| 0 <= k < n && s[..n][k] == t[i];
        assert s[k].num < s[n].num;
      }
    }
  }

  /** The candidates are the snapshots of the algorithm that are not kept. */
  lemma {:induction false} CandidatesAre(policy: Policy, s: seq<Snapshot>, b: Bound)
    ensures forall x :: x in Candidates(policy, s, b) <==>
            x in s && x.cleanup == Tag(policy) && x.num !in Kept(policy, s, b)
  {
    TaggedElements(s, Tag(policy));
    WithoutElements(Tagged(s, Tag(policy)), Kept(policy, s, b));
  }

  /** The kept set does not change when snapshots that are not kept are deleted; so keeping is idempotent too. */
  lemma {:induction false} KeptStable(policy: Policy, s: seq<Snapshot>, r: seq<Snapshot>, b: Bound)
    requires Ascending(s) && Orderly(policy, s) && Sublist(r, s)
    requires forall x | x in s && x.cleanup == Tag(policy) && x.num in Kept(policy, s, b) :: x in r
    ensures Kept(policy, r, b) == Kept(policy, s, b) && Orderly(policy, r)
  {
    var t, u := Tagged(s, Tag(policy)), Tagged(r, Tag(policy));
    TaggedSublist(s, Tag(policy));
    TaggedSublist(r, Tag(policy));
    TaggedElements(s, Tag(policy));
    TaggedElements(r, Tag(policy));
    assert Sublist(u, t);
    KeptAreTagged(policy, t, b);
    forall n | n in Kept(policy, s, b) ensures n in Nums(u) {
      var x :| x in t && x.num == n;
      assert x in u;
    }
    match policy
    case Number(limit, important) =>
      MarksStable(Nums(t), Nums(u), Value(limit, b));
      ImportantStable(t, u, Value(important, b));
    case Timeline(h, d, w, m, q, y, c) =>
      FirstsStable(t, u, c.hour, Value(h, b));
      FirstsStable(t, u, c.day, Value(d, b));
      FirstsStable(t, u, c.week, Value(w, b));
      FirstsStable(t, u, c.month, Value(m, b));
      FirstsStable(t, u, c.quarter, Value(q, b));
      FirstsStable(t, u, c.year, Value(y, b));
  }

  lemma {:induction false} KeptAreTagged(policy: Policy, t: seq<Snapshot>, b: Bound)
    ensures KeptOf(policy, t, b) <= Nums(t)
  {
    match policy
    case Number(limit, important) =>
    case Timeline(h, d, w, m, q, y, c) =>
      FirstsAreThere(t, c.hour, Value(h, b));
      FirstsAreThere(t, c.day, Value(d, b));
      FirstsAreThere(t, c.week, Value(w, b));
      FirstsAreThere(t, c.month, Value(m, b));
      FirstsAreThere(t, c.quarter, Value(q, b));
      FirstsAreThere(t, c.year, Value(y, b));
  }

  lemma {:induction false} FirstsAreThere(t: seq<Snapshot>, period: int -> int, limit: nat)
    ensures Newest(Firsts(t, period), limit) <= Firsts(t, period) <= Nums(t)
  {
  }

  lemma {:induction false} ImportantStable(t: seq<Snapshot>, u: seq<Snapshot>, limit: nat)
    requires Ascending(t) && Sublist(u, t) && Newest(Important(t), limit) <= Nums(u)
    ensures Newest(Important(u), limit) == Newest(Important(t), limit)
  {
    forall n | n in Newest(Important(t), limit) ensures n in Important(u) {
      var x :| x in t && IsImportant(x) && x.num == n;
      var x' :| x' in u && x'.num == n;
      SameNumber(t, x, x');
    }
    MarksStable(Important(t), Important(u), limit);
  }

  /** A policy keeps no more with its minimum limits than with its maximum limits. */
  lemma {:induction false} MinKeepsLess(policy: Policy, s: seq<Snapshot>)
    ensures Kept(policy, s, MIN) <= Kept(policy, s, MAX)
  {
    var t := Tagged(s, Tag(policy));
    match policy
    case Number(limit, important) =>
      NewestMonotone(Nums(t), limit.min, limit.max);
      NewestMonotone(Important(t), important.min, important.max);
    case Timeline(h, d, w, m, q, y, c) =>
      NewestMonotone(Firsts(t, c.hour), h.min, h.max);
      NewestMonotone(Firsts(t, c.day), d.min, d.max);
      NewestMonotone(Firsts(t, c.week), w.min, w.max);
      NewestMonotone(Firsts(t, c.month), m.min, m.max);
      NewestMonotone(Firsts(t, c.quarter), q.min, q.max);
      NewestMonotone(Firsts(t, c.year), y.min, y.max);
  }

  // The loops

  function Reverse(s: seq<Snapshot>): (r: seq<Snapshot>)
    ensures |r| == |s| && forall i | 0 <= i < |s| :: r[i] == s[|s| - 1 - i]
  {
    seq(|s|, i requires 0 <= i < |s| => s[|s| - 1 - i])
  }

  /** The marked snapshots among the first v of a list. */
  ghost function Seen(f: set<nat>, all: seq<Snapshot>, v: nat): set<nat>
  {
    set k | 0 <= k < v && k < |all| && all[k].num in f :: all[k].num
  }

  ghost predicate Descending(s: seq<Snapshot>) {
    forall i, j | 0 <= i < j < |s| :: s[i].num > s[j].num
  }

  /** A counter that counts marked snapshots up to its limit. */
  ghost predicate Counts(num: nat, f: set<nat>, limit: nat, all: seq<Snapshot>, v: nat) {
    num == Min(limit, |Seen(f, all, v)|)
  }

  lemma {:induction false} SeenIsAbove(f: set<nat>, all: seq<Snapshot>, v: nat)
    requires v < |all| && Descending(all) && f <= Nums(all)
    ensures Seen(f, all, v) == Above(f, all[v].num)
  {
    forall n | n in Above(f, all[v].num) ensures n in Seen(f, all, v) {
      assert n in Nums(all);
      var x :| x in all && x.num == n;
      var k :| 0 <= k < |all| && all[k] == x;
      assert k < v;
    }
  }

  lemma {:induction false} SeeNext(f: set<nat>, all: seq<Snapshot>, v: nat)
    requires v < |all| && Descending(all)
    ensures Seen(f, all, v + 1) == Seen(f, all, v) + if all[v].num in f then {all[v].num} else {}
    ensures all[v].num !in Seen(f, all, v)
  {
  }

  /** Counting on: the counter is below its limit at a marked snapshot exactly if that is one of the newest few. */
  lemma {:induction false} CountOn(num: nat, f: set<nat>, limit: nat, all: seq<Snapshot>, v: nat)
    requires v < |all| && Descending(all) && f <= Nums(all) && Counts(num, f, limit, all, v)
    ensures (num < limit && all[v].num in f) <==> all[v].num in Newest(f, limit)
    ensures Counts(if num < limit && all[v].num in f then num + 1 else num, f, limit, all, v + 1)
  {
    SeenIsAbove(f, all, v);
    SeeNext(f, all, v);
  }

  /** The list, newest first, while its first v snapshots have been visited and the kept ones erased. */
  ghost predicate Visiting(ret: seq<Snapshot>, it: nat, all: seq<Snapshot>, v: nat, kept: set<nat>) {
    v <= |all| && it == |Without(all[..v], kept)| && ret == Without(all[..v], kept) + all[v..]
  }

  lemma {:induction false} VisitNext(ret: seq<Snapshot>, it: nat, all: seq<Snapshot>, v: nat, kept: set<nat>)
    requires Visiting(ret, it, all, v, kept) && (it < |ret| || v < |all|)
    ensures it < |ret| && v < |all| && ret[it] == all[v] && ret[it..] == all[v..]
    ensures (if all[v].num in kept then Visiting(ret[..it] + ret[it + 1..], it, all, v + 1, kept)
             else Visiting(ret, it + 1, all, v + 1, kept))
  {
    assert all[..v + 1][..v] == all[..v] && all[..v + 1][v] == all[v];
    assert all[v..] == [all[v]] + all[v + 1..];
  }

  lemma {:induction false} WithoutReversed(t: seq<Snapshot>, kept: set<nat>)
    ensures Reverse(Without(Reverse(t), kept)) == Without(t, kept)
  {
    if t == [] {
      assert Reverse(t) == [];
    } else {
      var n := |t| - 1;
      WithoutReversed(t[..n], kept);
      assert Reverse(t) == [t[n]] + Reverse(t[..n]);
      WithoutConcat([t[n]], Reverse(t[..n]), kept);
      WithoutOne(t[n], kept);
      ReverseAppended(Without([t[n]], kept), Without(Reverse(t[..n]), kept));
    }
  }

  lemma {:induction false} WithoutOne(x: Snapshot, kept: set<nat>)
    ensures Without([x], kept) == if x.num in kept then [] else [x]
  {
    assert [x][..0] == [];
  }

  lemma {:induction false} ReverseAppended(a: seq<Snapshot>, b: seq<Snapshot>)
    requires |a| <= 1
    ensures Reverse(a + b) == Reverse(b) + a
  {
  }

  lemma {:induction false} WithoutConcat(a: seq<Snapshot>, b: seq<Snapshot>, kept: set<nat>)
    ensures Without(a + b, kept) == Without(a, kept) + Without(b, kept)
  {
    if b == [] {
      assert a + b == a;
    } else {
      var n, last := |b| - 1, [b[|b| - 1]];
      WithoutConcat(a, b[..n], kept);
      assert b == b[..n] + last;
      Text.Associative(a, b[..n], last);
      WithoutAppended(a + b[..n], b[n], kept);
      WithoutAppended(b[..n], b[n], kept);
      Text.Associative(Without(a, kept), Without(b[..n], kept), if b[n].num in kept then [] else last);
    }
  }

  /** The tagged snapshots, newest first: pushing each one to the front. */
  method NewestFirst(s: seq<Snapshot>, tag: string) returns (ret: seq<Snapshot>)
    requires Ascending(s)
    ensures ret == Reverse(Tagged(s, tag)) && Descending(ret)
    ensures Nums(ret) == Nums(Tagged(s, tag))
  {
    ret := [];
    for i := 0 to |s|
      invariant ret == Reverse(Tagged(s[..i], tag))
    {
      TaggedNext(s, i, tag);
      if s[i].cleanup == tag {
        ret := [s[i]] + ret;
      }
    }
    assert s[..|s|] == s;
    ReverseTagged(s, tag);
  }

  lemma {:induction false} TaggedNext(s: seq<Snapshot>, i: nat, tag: string)
    requires i < |s|
    ensures Reverse(Tagged(s[..i + 1], tag)) ==
            (if s[i].cleanup == tag then [s[i]] else []) + Reverse(Tagged(s[..i], tag))
  {
    assert s[..i + 1][..i] == s[..i] && s[..i + 1][i] == s[i];
  }

  lemma {:induction false} ReverseTagged(s: seq<Snapshot>, tag: string)
    requires Ascending(s)
    ensures Descending(Reverse(Tagged(s, tag))) && Nums(Reverse(Tagged(s, tag))) == Nums(Tagged(s, tag))
  {
    TaggedSublist(s, tag);
    ReverseElements(Tagged(s, tag));
  }

  lemma {:induction false} ReverseElements(t: seq<Snapshot>)
    ensures forall x :: x in Reverse(t) <==> x in t
  {
    forall x ensures x in Reverse(t) <==> x in t {
      if x in t {
        var i :| 0 <= i < |t| && t[i] == x;
        assert Reverse(t)[|t| - 1 - i] == x;
      }
    }
  }

  /** The candidates of the number algorithm. */
  method NumberCandidates(s: seq<Snapshot>, policy: Policy, b: Bound) returns (ret: seq<Snapshot>)
    requires Ascending(s) && policy.Number?
    ensures ret == Candidates(policy, s, b)
    ensures forall x :: x in ret <==> x in s && x.cleanup == "number" && NumberGives(policy, s, b, x)
  {
    hide NumberUnderway, NumberGives;
    ret := NewestFirst(s, "number");
    ghost var all := ret;
    var pass := Pass(ret, 0, 0, 0);
    NumberBegins(policy, b, all);
    ghost var v := 0;
    while pass.it < |pass.ret|
      invariant NumberUnderway(policy, b, pass, all, v)
      decreases |all| - v
    {
      pass := KeepOrPass(policy, b, pass, all, v);
      v := v + 1;
    }
    NumberFinished(policy, b, pass, all, v);
    ReversedAreCandidates(policy, s, b, pass.ret);
    ret := Reverse(pass.ret);
    NumberMeaning(policy, s, b);
  }

  lemma {:induction false} ReversedAreCandidates(policy: Policy, s: seq<Snapshot>, b: Bound, ret: seq<Snapshot>)
    requires var all := Reverse(Tagged(s, Tag(policy))); ret == Without(all, KeptOf(policy, all, b))
    ensures Reverse(ret) == Candidates(policy, s, b)
  {
    var t := Tagged(s, Tag(policy));
    KeptOfReversed(policy, t, b);
    WithoutReversed(t, Kept(policy, s, b));
  }

  /** The list being erased from, the position in it and the counters of the number algorithm. */
  datatype Pass = Pass(ret: seq<Snapshot>, it: nat, num: nat, numImportant: nat)

  /** Half-way: v snapshots are visited, the kept ones among them erased, the counters up to date. */
  ghost predicate NumberUnderway(p: Policy, b: Bound, pass: Pass, all: seq<Snapshot>, v: nat) {
    && p.Number? && Descending(all)
    && Visiting(pass.ret, pass.it, all, v, KeptOf(p, all, b))
    && Counts(pass.num, Nums(all), Value(p.limit, b), all, v)
    && Counts(pass.numImportant, Important(all), Value(p.important, b), all, v)
  }

  lemma {:induction false} NumberBegins(p: Policy, b: Bound, all: seq<Snapshot>)
    requires p.Number? && Descending(all)
    ensures NumberUnderway(p, b, Pass(all, 0, 0, 0), all, 0)
  {
    assert all[..0] == [] && all[0..] == all;
    CountsFromZero(Nums(all), Value(p.limit, b), all);
    CountsFromZero(Important(all), Value(p.important, b), all);
  }

  lemma {:induction false} NumberFinished(p: Policy, b: Bound, pass: Pass, all: seq<Snapshot>, v: nat)
    requires NumberUnderway(p, b, pass, all, v) && pass.it >= |pass.ret|
    ensures pass.ret == Without(all, KeptOf(p, all, b))
  {
    assert v == |all| && all[..v] == all;
  }

  /** One turn of the loop of the number algorithm. */
  method KeepOrPass(p: Policy, b: Bound, pass: Pass, ghost all: seq<Snapshot>, ghost v: nat) returns (next: Pass)
    requires NumberUnderway(p, b, pass, all, v) && pass.it < |pass.ret|
    ensures v < |all| && NumberUnderway(p, b, next, all, v + 1)
  {
    var x := pass.ret[pass.it];
    var num, numImportant := pass.num, pass.numImportant;
    var keep := false;
    if numImportant < Value(p.important, b) && IsImportant(x) {
      numImportant := numImportant + 1;
      keep := true;
    }
    if num < Value(p.limit, b) {
      num := num + 1;
      keep := true;
    }
    if keep {
      next := Pass(pass.ret[..pass.it] + pass.ret[pass.it + 1..], pass.it, num, numImportant);
    } else {
      next := Pass(pass.ret, pass.it + 1, num, numImportant);
    }
    NumberKeeps(p, b, pass, all, v, numImportant > pass.numImportant, num > pass.num, next);
  }

  lemma {:induction false} NumberKeeps(p: Policy, b: Bound, pass: Pass, all: seq<Snapshot>, v: nat, byImportance: bool,
                                       byNumber: bool, next: Pass)
    requires NumberUnderway(p, b, pass, all, v) && pass.it < |pass.ret|
    requires byImportance == (pass.numImportant < Value(p.important, b) && IsImportant(pass.ret[pass.it]))
    requires byNumber == (pass.num < Value(p.limit, b))
    requires next.num == if byNumber then pass.num + 1 else pass.num
    requires next.numImportant == if byImportance then pass.numImportant + 1 else pass.numImportant
    requires next.it == if byImportance || byNumber then pass.it else pass.it + 1
    requires next.ret == if byImportance || byNumber then pass.ret[..pass.it] + pass.ret[pass.it + 1..] else pass.ret
    ensures v < |all| && NumberUnderway(p, b, next, all, v + 1)
  {
    VisitNext(pass.ret, pass.it, all, v, KeptOf(p, all, b));
    NumberCountsOn(p, b, pass, all, v);
    Assemble(p, b, next, all, v + 1);
  }

  lemma {:induction false} NumberCountsOn(p: Policy, b: Bound, pass: Pass, all: seq<Snapshot>, v: nat)
    requires p.Number? && Descending(all) && v < |all|
    requires Counts(pass.num, Nums(all), Value(p.limit, b), all, v)
    requires Counts(pass.numImportant, Important(all), Value(p.important, b), all, v)
    ensures var byImportance := pass.numImportant < Value(p.important, b) && IsImportant(all[v]);
            var byNumber := pass.num < Value(p.limit, b);
            && Counts(if byNumber then pass.num + 1 else pass.num, Nums(all), Value(p.limit, b), all, v + 1)
            && Counts(if byImportance then pass.numImportant + 1 else pass.numImportant, Important(all),
                      Value(p.important, b), all, v + 1)
            && (byImportance || byNumber <==> all[v].num in KeptOf(p, all, b))
  {
    hide Counts;
    MarkOfImportant(all, v);
    CountOn(pass.num, Nums(all), Value(p.limit, b), all, v);
    CountOn(pass.numImportant, Important(all), Value(p.important, b), all, v);
  }

  lemma {:induction false} Assemble(p: Policy, b: Bound, pass: Pass, all: seq<Snapshot>, v: nat)
    requires p.Number? && Descending(all)
    requires Visiting(pass.ret, pass.it, all, v, KeptOf(p, all, b))
    requires Counts(pass.num, Nums(all), Value(p.limit, b), all, v)
    requires Counts(pass.numImportant, Important(all), Value(p.important, b), all, v)
    ensures NumberUnderway(p, b, pass, all, v)
  {
    hide Counts, Visiting;
  }

  lemma {:induction false} MarkOfImportant(all: seq<Snapshot>, v: nat)
    requires v < |all| && Descending(all)
    ensures all[v].num in Important(all) <==> IsImportant(all[v])
    ensures all[v].num in Nums(all)
  {
    assert all[v] in all;
    forall x | x in all && x.num == all[v].num ensures x == all[v] {
      var k :| 0 <= k < |all| && all[k] == x;
    }
  }

  /** The part of a newest-first list from a position on, with dates that do not go up. */
  ghost predicate DatesDescend(ret: seq<Snapshot>, first: nat) {
    forall j, k | first <= j <= k < |ret| :: ret[j].date >= ret[k].date
  }

  /** Whether a snapshot is the first in its period, as far as the rest of the list shows. */
  method IsFirst(ret: seq<Snapshot>, first: nat, period: int -> int) returns (b: bool)
    requires first < |ret|
    ensures DatesDescend(ret, first) && Monotone(period) ==>
              (b <==> forall k | first <= k < |ret| && period(ret[k].date) == period(ret[first].date) ::
                        ret[k].date >= ret[first].date)
  {
    var x := ret[first];
    for j := first to |ret|
      invariant forall k | first <= k < j :: period(ret[k].date) == period(x.date) && ret[k].date >= x.date
    {
      if ret[j] == x { continue; }
      if period(x.date) != period(ret[j].date) {
        if DatesDescend(ret, first) && Monotone(period) {
          forall k | j <= k < |ret| ensures period(ret[k].date) < period(x.date) {
            assert period(ret[k].date) <= period(ret[j].date) <= period(x.date);
          }
        }
        return true;
      }
      if x.date > ret[j].date { return false; }
    }
    return true;
  }

  /** The rest of the list is enough to tell the first of a period: what came before is not older. */
  lemma {:induction false} FirstByTail(all: seq<Snapshot>, v: nat, period: int -> int)
    requires v < |all| && Descending(all) && DatesDescend(all, 0)
    ensures all[v].num in Firsts(all, period) <==>
              forall k | v <= k < |all| && period(all[k].date) == period(all[v].date) :: all[k].date >= all[v].date
  {
    MarkOfImportant(all, v);
    forall x | x in all && x.num == all[v].num ensures x == all[v] {
      var k :| 0 <= k < |all| && all[k] == x;
    }
    if forall k | v <= k < |all| && period(all[k].date) == period(all[v].date) :: all[k].date >= all[v].date {
      forall y | y in all && period(y.date) == period(all[v].date) ensures y.date >= all[v].date {
        var k :| 0 <= k < |all| && all[k] == y;
        assert k <= v ==> all[k].date >= all[v].date;
      }
    } else {
      var k :| v <= k < |all| && period(all[k].date) == period(all[v].date) && all[k].date < all[v].date;
      assert all[k] in all;
    }
  }

  /** One granularity's turn at one snapshot. */
  method KeepFirst(num: nat, limit: nat, ret: seq<Snapshot>, it: nat, period: int -> int, ghost all: seq<Snapshot>,
                   ghost v: nat)
    returns (num': nat, keep: bool)
    requires it < |ret| && v < |all|
    ensures Descending(all) && DatesDescend(all, 0) && Monotone(period) && ret[it..] == all[v..]
            && Counts(num, Firsts(all, period), limit, all, v) ==>
              && Counts(num', Firsts(all, period), limit, all, v + 1)
              && (keep <==> all[v].num in Newest(Firsts(all, period), limit))
  {
    num', keep := num, false;
    ghost var good := Descending(all) && DatesDescend(all, 0) && Monotone(period) && ret[it..] == all[v..]
                      && Counts(num, Firsts(all, period), limit, all, v);
    if good {
      FirstsAreThere(all, period, limit);
      CountOn(num, Firsts(all, period), limit, all, v);
      FirstByTail(all, v, period);
      TailDates(ret, it, all, v);
    }
    if num < limit {
      var first := IsFirst(ret, it, period);
      if first {
        num', keep := num + 1, true;
      }
      if good { SameTail(ret, it, all, v, period); }
    }
  }

  lemma {:induction false} TailDates(ret: seq<Snapshot>, it: nat, all: seq<Snapshot>, v: nat)
    requires it < |ret| && v < |all| && ret[it..] == all[v..] && DatesDescend(all, 0)
    ensures DatesDescend(ret, it)
  {
    forall j, k | it <= j <= k < |ret| ensures ret[j].date >= ret[k].date {
      assert ret[j] == ret[it..][j - it] == all[v + j - it];
      assert ret[k] == ret[it..][k - it] == all[v + k - it];
    }
  }

  lemma {:induction false} SameTail(ret: seq<Snapshot>, it: nat, all: seq<Snapshot>, v: nat, period: int -> int)
    requires it < |ret| && v < |all| && ret[it..] == all[v..]
    ensures (forall k | it <= k < |ret| && period(ret[k].date) == period(ret[it].date) :: ret[k].date >= ret[it].date)
            <==> (forall k | v <= k < |all| && period(all[k].date) == period(all[v].date) :: all[k].date >= all[v].date)
  {
    assert ret[it] == ret[it..][0] == all[v];
    assert |ret| - it == |all| - v;
    assert forall k | it <= k < |ret| :: ret[k] == ret[it..][k - it] == all[v + k - it];
    assert forall k | v <= k < |all| :: all[k] == all[v..][k - v] == ret[it + k - v];
  }

  /** The counters of the timeline algorithm. */
  datatype Counters = Counters(hourly: nat, daily: nat, weekly: nat, monthly: nat, quarterly: nat, yearly: nat)

  ghost predicate TimelineCounts(p: Policy, b: Bound, all: seq<Snapshot>, v: nat, n: Counters)
    requires p.Timeline?
  {
    && Counts(n.hourly, Firsts(all, p.calendar.hour), Value(p.hourly, b), all, v)
    && Counts(n.daily, Firsts(all, p.calendar.day), Value(p.daily, b), all, v)
    && Counts(n.weekly, Firsts(all, p.calendar.week), Value(p.weekly, b), all, v)
    && Counts(n.monthly, Firsts(all, p.calendar.month), Value(p.monthly, b), all, v)
    && Counts(n.quarterly, Firsts(all, p.calendar.quarter), Value(p.quarterly, b), all, v)
    && Counts(n.yearly, Firsts(all, p.calendar.year), Value(p.yearly, b), all, v)
  }

  /** Everything is in order half-way through the timeline algorithm. */
  ghost predicate Underway(p: Policy, b: Bound, ret: seq<Snapshot>, it: nat, all: seq<Snapshot>, v: nat, n: Counters) {
    && p.Timeline? && Descending(all) && DatesDescend(all, 0) && Sane(p.calendar)
    && Visiting(ret, it, all, v, KeptOf(p, all, b)) && TimelineCounts(p, b, all, v, n)
  }

  /** All granularities' turn at one snapshot, which is then erased if one of them keeps it. */
  method KeepAny(p: Policy, b: Bound, ret: seq<Snapshot>, it: nat, n: Counters, ghost all: seq<Snapshot>, ghost v: nat)
    returns (n': Counters, keep: bool)
    requires p.Timeline? && it < |ret| && v < |all|
    ensures Underway(p, b, ret, it, all, v, n) ==>
              (if keep then Underway(p, b, ret[..it] + ret[it + 1..], it, all, v + 1, n')
               else Underway(p, b, ret, it + 1, all, v + 1, n'))
  {
    ghost var kept := KeptOf(p, all, b);
    if Underway(p, b, ret, it, all, v, n) { VisitNext(ret, it, all, v, kept); }
    var c := p.calendar;
    var h, kh := KeepFirst(n.hourly, Value(p.hourly, b), ret, it, c.hour, all, v);
    var d, kd := KeepFirst(n.daily, Value(p.daily, b), ret, it, c.day, all, v);
    var w, kw := KeepFirst(n.weekly, Value(p.weekly, b), ret, it, c.week, all, v);
    var m, km := KeepFirst(n.monthly, Value(p.monthly, b), ret, it, c.month, all, v);
    var q, kq := KeepFirst(n.quarterly, Value(p.quarterly, b), ret, it, c.quarter, all, v);
    var y, ky := KeepFirst(n.yearly, Value(p.yearly, b), ret, it, c.year, all, v);
    n' := Counters(h, d, w, m, q, y);
    keep := kh || kd || kw || km || kq || ky;
  }

  /** Erasing from a newest-first list. */
  lemma {:induction false} EraseOne(ret: seq<Snapshot>, it: nat, all: seq<Snapshot>)
    requires it < |ret| && Descending(ret) && forall x | x in ret :: x in all
    ensures var r := ret[..it] + ret[it + 1..]; Descending(r) && forall x | x in r :: x in all
  {
  }

  lemma {:induction false} ReversedIsSublist(ret: seq<Snapshot>, s: seq<Snapshot>)
    requires Descending(ret) && forall x | x in ret :: x in s
    ensures Sublist(Reverse(ret), s)
  {
    ReverseElements(ret);
  }

  lemma {:induction false} NewestFirstDates(s: seq<Snapshot>, tag: string, all: seq<Snapshot>)
    requires all == Reverse(Tagged(s, tag)) && Descending(all) && DatesAscend(Tagged(s, tag))
    ensures DatesDescend(all, 0)
  {
    ReverseElements(Tagged(s, tag));
    forall j, k | 0 <= j <= k < |all| ensures all[j].date >= all[k].date {
      assert all[j] in all && all[k] in all;
    }
  }

  /** What is kept does not depend on the order of the list. */
  lemma {:induction false} KeptOfReversed(p: Policy, t: seq<Snapshot>, b: Bound)
    ensures KeptOf(p, Reverse(t), b) == KeptOf(p, t, b)
  {
    ReverseElements(t);
    assert Nums(Reverse(t)) == Nums(t) && Important(Reverse(t)) == Important(t);
    forall period: int -> int ensures Firsts(Reverse(t), period) == Firsts(t, period) {
      SameFirsts(Reverse(t), t, period);
    }
  }

  lemma {:induction false} SameFirsts(a: seq<Snapshot>, t: seq<Snapshot>, period: int -> int)
    requires forall x :: x in a <==> x in t
    ensures Firsts(a, period) == Firsts(t, period)
  {
    assert forall x :: FirstInPeriod(a, period, x) <==> FirstInPeriod(t, period, x);
  }

  lemma {:induction false} CountsFromZero(f: set<nat>, limit: nat, all: seq<Snapshot>)
    ensures Counts(0, f, limit, all, 0)
  {
    assert Seen(f, all, 0) == {};
  }

  lemma {:induction false} TimelineFromZero(p: Policy, b: Bound, all: seq<Snapshot>)
    requires p.Timeline?
    ensures TimelineCounts(p, b, all, 0, Counters(0, 0, 0, 0, 0, 0))
  {
    CountsFromZero(Firsts(all, p.calendar.hour), Value(p.hourly, b), all);
    CountsFromZero(Firsts(all, p.calendar.day), Value(p.daily, b), all);
    CountsFromZero(Firsts(all, p.calendar.week), Value(p.weekly, b), all);
    CountsFromZero(Firsts(all, p.calendar.month), Value(p.monthly, b), all);
    CountsFromZero(Firsts(all, p.calendar.quarter), Value(p.quarterly, b), all);
    CountsFromZero(Firsts(all, p.calendar.year), Value(p.yearly, b), all);
  }

  /** The list being erased from and the position in it, whatever the dates are like. */
  ghost predicate Erasing(ret: seq<Snapshot>, it: nat, all: seq<Snapshot>, v: nat) {
    it <= |ret| && v <= |all| && |ret| - it == |all| - v && Descending(ret) && forall x | x in ret :: x in all
  }

  /** One turn of the loop of the timeline algorithm. */
  method VisitOne(p: Policy, b: Bound, ret: seq<Snapshot>, it: nat, n: Counters, ghost all: seq<Snapshot>, ghost v: nat,
                  ghost good: bool)
    returns (ret': seq<Snapshot>, it': nat, n': Counters)
    requires p.Timeline? && Erasing(ret, it, all, v) && it < |ret|
    ensures v < |all| && Erasing(ret', it', all, v + 1)
    requires good ==> Underway(p, b, ret, it, all, v, n)
    ensures good ==> Underway(p, b, ret', it', all, v + 1, n')
  {
    hide Underway;
    var keep;
    n', keep := KeepAny(p, b, ret, it, n, all, v);
    if keep {
      EraseOne(ret, it, all);
      ret', it' := ret[..it] + ret[it + 1..], it;
    } else {
      ret', it' := ret, it + 1;
    }
  }

  /** The loop of the timeline algorithm over the newest-first list. */
  method EraseKept(all: seq<Snapshot>, policy: Policy, b: Bound) returns (ret: seq<Snapshot>)
    requires policy.Timeline? && Descending(all)
    ensures Descending(ret) && forall x | x in ret :: x in all
    ensures DatesDescend(all, 0) && Sane(policy.calendar) ==> ret == Without(all, KeptOf(policy, all, b))
  {
    hide Underway;
    ret := all;
    ghost var good := DatesDescend(all, 0) && Sane(policy.calendar);
    var n := Counters(0, 0, 0, 0, 0, 0);
    if good { Beginning(policy, b, all); }
    var it: nat := 0;
    ghost var v: nat := 0;
    while it < |ret|
      invariant Erasing(ret, it, all, v)
      invariant good ==> Underway(policy, b, ret, it, all, v, n)
      decreases |all| - v
    {
      ret, it, n := VisitOne(policy, b, ret, it, n, all, v, good);
      v := v + 1;
    }
    if good { Finished(policy, b, ret, it, all, v, n); }
  }

  lemma {:induction false} Beginning(p: Policy, b: Bound, all: seq<Snapshot>)
    requires p.Timeline? && Descending(all) && DatesDescend(all, 0) && Sane(p.calendar)
    ensures Underway(p, b, all, 0, all, 0, Counters(0, 0, 0, 0, 0, 0))
  {
    TimelineFromZero(p, b, all);
    assert all[..0] == [] && all[0..] == all;
  }

  lemma {:induction false} Finished(p: Policy, b: Bound, ret: seq<Snapshot>, it: nat, all: seq<Snapshot>, v: nat,
                                    n: Counters)
    requires Underway(p, b, ret, it, all, v, n) && v == |all|
    ensures ret == Without(all, KeptOf(p, all, b))
  {
    assert all[..v] == all && all[v..] == [];
  }

  /** The candidates of the timeline algorithm. */
  method TimelineCandidates(s: seq<Snapshot>, policy: Policy, b: Bound) returns (ret: seq<Snapshot>)
    requires Ascending(s) && policy.Timeline?
    ensures Sublist(ret, s)
    ensures Orderly(policy, s) ==> ret == Candidates(policy, s, b)
    ensures DatesGoUp(s, "timeline") && Sane(policy.calendar) ==>
              forall x :: x in ret <==> x in s && x.cleanup == "timeline" && TimelineGives(policy, s, b, x)
  {
    hide TimelineGives;
    ghost var t := Tagged(s, "timeline");
    var all := NewestFirst(s, "timeline");
    TaggedElements(s, "timeline");
    ReverseElements(t);
    KeptOfReversed(policy, t, b);
    if Orderly(policy, s) { NewestFirstDates(s, "timeline", all); }
    ret := EraseKept(all, policy, b);
    ReversedIsSublist(ret, s);
    WithoutReversed(t, Kept(policy, s, b));
    ret := Reverse(ret);
    if DatesGoUp(s, "timeline") && Sane(policy.calendar) { TimelineMeaning(policy, s, b); }
  }

  /** The candidates of either algorithm. */
  method CalculateCandidates(s: seq<Snapshot>, policy: Policy, b: Bound) returns (ret: seq<Snapshot>)
    requires Ascending(s)
    ensures Sublist(ret, s)
    ensures Orderly(policy, s) ==> ret == Candidates(policy, s, b)
    ensures policy.Number? ==>
              forall x :: x in ret <==> x in s && x.cleanup == "number" && NumberGives(policy, s, b, x)
    ensures policy.Timeline? && DatesGoUp(s, "timeline") && Sane(policy.calendar) ==>
              forall x :: x in ret <==> x in s && x.cleanup == "timeline" && TimelineGives(policy, s, b, x)
  {
    hide NumberGives, TimelineGives;
    if policy.Number? {
      ret := NumberCandidates(s, policy, b);
      TaggedSublist(s, "number");
      WithoutAscending(Tagged(s, "number"), Kept(policy, s, b));
      CandidatesAre(policy, s, b);
    } else {
      ret := TimelineCandidates(s, policy, b);
    }
  }

  // The timeline in terms of periods

  /** The non-empty periods after the one of x. */
  ghost function LaterPeriods(t: seq<Snapshot>, period: int -> int, x: Snapshot): set<int> {
    set y | y in t && period(y.date) > period(x.date) :: period(y.date)
  }

  ghost predicate DatesStrictlyAscend(t: seq<Snapshot>) {
    forall x, y | x in t && y in t && x.num < y.num :: x.date < y.date
  }

  lemma {:induction false} Pick<T>(p: set<T>) returns (q: T)
    requires p != {}
    ensures q in p
  {
    q :| q in p;
  }

  lemma {:induction false} SameSize(a: set<nat>, p: set<int>, f: nat -> int)
    requires forall n | n in a :: f(n) in p
    requires forall n, m | n in a && m in a && f(n) == f(m) :: n == m
    requires forall q | q in p :: exists n | n in a :: f(n) == q
    ensures |a| == |p|
    decreases p
  {
    if p == {} {
      assert forall n | n in a :: f(n) in p;
      assert a == {};
    } else {
      var q := Pick(p);
      var n :| n in a && f(n) == q;
      forall r | r in p - {q} ensures exists m | m in a - {n} :: f(m) == r {
        var m :| m in a && f(m) == r;
        assert m in a - {n};
      }
      SameSize(a - {n}, p - {q}, f);
    }
  }

  /** The date of the snapshot with a number. */
  ghost function DateOf(t: seq<Snapshot>, n: nat): int {
    if x :| x in t && x.num == n then x.date else 0
  }

  lemma {:induction false} DateOfIs(t: seq<Snapshot>, x: Snapshot)
    requires Ascending(t) && x in t
    ensures DateOf(t, x.num) == x.date
  {
    var y :| y in t && y.num == x.num;
    forall z | z in t && z.num == x.num ensures z == x { SameNumber(t, z, x); }
  }

  lemma {:induction false} FirstWithNumber(t: seq<Snapshot>, period: int -> int, n: nat) returns (y: Snapshot)
    requires Ascending(t) && n in Firsts(t, period)
    ensures y in t && FirstInPeriod(t, period, y) && y.num == n && DateOf(t, n) == y.date
  {
    y :| y in t && FirstInPeriod(t, period, y) && y.num == n;
    DateOfIs(t, y);
  }

  lemma {:induction false} FirstOfLaterPeriod(t: seq<Snapshot>, period: int -> int, x: Snapshot, q: int)
    returns (n: nat)
    requires Ascending(t) && DatesStrictlyAscend(t) && Monotone(period) && x in t && q in LaterPeriods(t, period, x)
    ensures n in Above(Firsts(t, period), x.num) && period(DateOf(t, n)) == q
  {
    var y :| y in t && period(y.date) > period(x.date) && period(y.date) == q;
    var h := OldestInPeriod(t, period, y);
    DateOfIs(t, h);
    assert h.num < x.num ==> h.date < x.date;
    assert h.num == x.num ==> h == x by { if h.num == x.num { SameNumber(t, h, x); } }
    n := h.num;
  }

  /** The first snapshots after x are as many as the non-empty periods after that of x. */
  lemma {:induction false} FirstsPerPeriod(t: seq<Snapshot>, period: int -> int, x: Snapshot)
    requires Ascending(t) && DatesStrictlyAscend(t) && Monotone(period) && x in t && FirstInPeriod(t, period, x)
    ensures |Above(Firsts(t, period), x.num)| == |LaterPeriods(t, period, x)|
  {
    var a, p := Above(Firsts(t, period), x.num), LaterPeriods(t, period, x);
    var f := (n: nat) => period(DateOf(t, n));
    forall n | n in a ensures f(n) in p {
      var y := FirstWithNumber(t, period, n);
      assert x.date < y.date && period(x.date) <= period(y.date);
    }
    forall n, m | n in a && m in a && f(n) == f(m) ensures n == m {
      var y := FirstWithNumber(t, period, n);
      var z := FirstWithNumber(t, period, m);
    }
    forall q | q in p ensures exists n | n in a :: f(n) == q {
      var n := FirstOfLaterPeriod(t, period, x, q);
      assert n in a && f(n) == q;
    }
    SameSize(a, p, f);
  }

  /**
   The timeline, period by period: with dates that go up with the numbers, a granularity spares a
   snapshot exactly if it is the oldest of its period and its period is one of the newest non-empty ones.
   */
  lemma {:induction false} SparedByPeriod(t: seq<Snapshot>, period: int -> int, limit: nat, x: Snapshot)
    requires Ascending(t) && DatesStrictlyAscend(t) && Monotone(period) && x in t
    ensures x.num in Newest(Firsts(t, period), limit) <==>
              FirstInPeriod(t, period, x) && |LaterPeriods(t, period, x)| < limit
  {
    if FirstInPeriod(t, period, x) {
      FirstsPerPeriod(t, period, x);
      assert x.num in Firsts(t, period);
    } else if x.num in Firsts(t, period) {
      var y :| y in t && FirstInPeriod(t, period, y) && y.num == x.num;
      SameNumber(t, x, y);
    }
  }

  // The candidates in terms of the snapshots

  /** The snapshots of an algorithm that are newer than x, and the important ones among them. */
  function Newer(s: seq<Snapshot>, tag: string, x: Snapshot): set<nat> {
    set y | y in s && y.cleanup == tag && y.num > x.num :: y.num
  }

  function NewerImportant(s: seq<Snapshot>, tag: string, x: Snapshot): set<nat> {
    set y | y in s && y.cleanup == tag && y.num > x.num && IsImportant(y) :: y.num
  }

  /** What the number algorithm gives up: neither one of the newest nor one of the newest important ones. */
  ghost predicate NumberGives(policy: Policy, s: seq<Snapshot>, b: Bound, x: Snapshot)
    requires policy.Number?
  {
    && |Newer(s, "number", x)| >= Value(policy.limit, b)
    && ("important" in x.userdata && x.userdata["important"] == "yes" ==>
          |NewerImportant(s, "number", x)| >= Value(policy.important, b))
  }

  lemma {:induction false} NumberMeaning(policy: Policy, s: seq<Snapshot>, b: Bound)
    requires Ascending(s) && policy.Number?
    ensures forall x :: x in Candidates(policy, s, b) <==>
              x in s && x.cleanup == "number" && NumberGives(policy, s, b, x)
  {
    var t := Tagged(s, "number");
    TaggedElements(s, "number");
    CandidatesAre(policy, s, b);
    forall x | x in s && x.cleanup == "number" ensures x.num !in Kept(policy, s, b) <==> NumberGives(policy, s, b, x) {
      assert Above(Nums(t), x.num) == Newer(s, "number", x);
      assert Above(Important(t), x.num) == NewerImportant(s, "number", x);
      assert x.num in Nums(t);
      assert x.num in Important(t) <==> IsImportant(x) by {
        if x.num in Important(t) {
          var y :| y in t && IsImportant(y) && y.num == x.num;
          SameNumber(s, x, y);
        }
      }
    }
  }

  /** Dates that go up with the numbers of the snapshots of an algorithm. */
  ghost predicate DatesGoUp(s: seq<Snapshot>, tag: string) {
    forall x, y | x in s && y in s && x.cleanup == y.cleanup == tag && x.num < y.num :: x.date < y.date
  }

  /** The oldest of its period, which is one of the newest limit periods that have a snapshot at all. */
  ghost predicate Spares(s: seq<Snapshot>, tag: string, period: int -> int, limit: nat, x: Snapshot) {
    && (forall y | y in s && y.cleanup == tag && period(y.date) == period(x.date) :: y.date >= x.date)
    && |set y | y in s && y.cleanup == tag && period(y.date) > period(x.date) :: period(y.date)| < limit
  }

  /** What the timeline algorithm gives up: what none of the granularities spares. */
  ghost predicate TimelineGives(policy: Policy, s: seq<Snapshot>, b: Bound, x: Snapshot)
    requires policy.Timeline?
  {
    && !Spares(s, "timeline", policy.calendar.hour, Value(policy.hourly, b), x)
    && !Spares(s, "timeline", policy.calendar.day, Value(policy.daily, b), x)
    && !Spares(s, "timeline", policy.calendar.week, Value(policy.weekly, b), x)
    && !Spares(s, "timeline", policy.calendar.month, Value(policy.monthly, b), x)
    && !Spares(s, "timeline", policy.calendar.quarter, Value(policy.quarterly, b), x)
    && !Spares(s, "timeline", policy.calendar.year, Value(policy.yearly, b), x)
  }

  lemma {:induction false} SparesIs(s: seq<Snapshot>, tag: string, period: int -> int, limit: nat, x: Snapshot)
    requires Ascending(s) && DatesGoUp(s, tag) && Monotone(period) && x in s && x.cleanup == tag
    ensures x.num in Newest(Firsts(Tagged(s, tag), period), limit) <==> Spares(s, tag, period, limit, x)
  {
    var t := Tagged(s, tag);
    TaggedElements(s, tag);
    TaggedSublist(s, tag);
    SparedByPeriod(t, period, limit, x);
    assert LaterPeriods(t, period, x) == set y | y in s && y.cleanup == tag && period(y.date) > period(x.date) ::
        period(y.date);
  }

  lemma {:induction false} TimelineMeaning(policy: Policy, s: seq<Snapshot>, b: Bound)
    requires Ascending(s) && policy.Timeline? && DatesGoUp(s, "timeline") && Sane(policy.calendar)
    ensures Orderly(policy, s)
    ensures forall x :: x in Candidates(policy, s, b) <==>
              x in s && x.cleanup == "timeline" && TimelineGives(policy, s, b, x)
  {
    hide Spares, Newest, Firsts, Monotone;
    TaggedElements(s, "timeline");
    CandidatesAre(policy, s, b);
    forall x, y | x in s && y in s && x.cleanup == y.cleanup == "timeline" && x.num == y.num ensures x == y {
      SameNumber(s, x, y);
    }
    forall x | x in s && x.cleanup == "timeline"
      ensures x.num !in Kept(policy, s, b) <==> TimelineGives(policy, s, b, x)
    {
      SparesIs(s, "timeline", policy.calendar.hour, Value(policy.hourly, b), x);
      SparesIs(s, "timeline", policy.calendar.day, Value(policy.daily, b), x);
      SparesIs(s, "timeline", policy.calendar.week, Value(policy.weekly, b), x);
      SparesIs(s, "timeline", policy.calendar.month, Value(policy.monthly, b), x);
      SparesIs(s, "timeline", policy.calendar.quarter, Value(policy.quarterly, b), x);
      SparesIs(s, "timeline", policy.calendar.year, Value(policy.yearly, b), x);
    }
  }
}
