/**
 The cleanup of snapshots (client/cleanup.cc): filters that protect some candidates and keep pairs of
 snapshots together, an unconditional pass, and loops that delete until a condition holds.
 */
module Cleanup {
  import opened Wrappers
  import opened Retention
  import opened SnapshotList

  // Pairs (client/proxy/proxy.cc)

  function FindPre(s: seq<Snapshot>, post: Snapshot): Option<Snapshot> {
    if s == [] then None
    else if s[0].kind == Pre && s[0].num == post.preNum then Some(s[0])
    else FindPre(s[1..], post)
  }

  function Partner(s: seq<Snapshot>, x: Snapshot): Option<Snapshot> {
    match x.kind
    case Single => None
    case Pre => FindPost(s, x.num)
    case Post => FindPre(s, x)
  }

  /** What makes a snapshot the other half of a pair. */
  predicate Matches(x: Snapshot, y: Snapshot) {
    || (x.kind == Pre && y.kind == Post && y.preNum == x.num)
    || (x.kind == Post && y.kind == Pre && y.num == x.preNum)
  }

  lemma {:induction false} PartnerMatches(s: seq<Snapshot>, x: Snapshot)
    ensures Partner(s, x).Some? ==> Partner(s, x).value in s && Matches(x, Partner(s, x).value)
    ensures Partner(s, x).None? ==> forall y | y in s :: !Matches(x, y)
  {
    if s != [] { PartnerMatches(s[1..], x); }
  }

  /** Partners are each other's partners. */
  lemma {:induction false} PartnersMutual(s: seq<Snapshot>, x: Snapshot)
    requires Ascending(s) && OnePost(s) && x in s && Partner(s, x).Some?
    ensures Partner(s, Partner(s, x).value) == Some(x) && Partner(s, x).value != x
  {
    PartnerMatches(s, x);
    var y := Partner(s, x).value;
    PartnerMatches(s, y);
    assert Matches(y, x);
    if x.kind == Pre { SameNumber(s, Partner(s, y).value, x); } else { SamePost(s, Partner(s, y).value, x); }
  }

  /** Pairs are there as a whole or not at all. */
  ghost predicate PairsWhole(was: seq<Snapshot>, now: seq<Snapshot>) {
    forall x, y | x in was && y in was && Partner(was, x) == Some(y) :: x in now <==> y in now
  }

  // Filters

  /** What the filters ask of the outside: the time, and the default and the active snapshot. */
  datatype View = View(now: int, default: Option<nat>, active: Option<nat>)

  /** Neither the default nor the active snapshot, nor younger than the minimum age. */
  predicate Deletable(v: View, minAge: int, x: Snapshot) {
    v.default != Some(x.num) && v.active != Some(x.num) && x.date <= v.now - minAge
  }

  /** Unpaired, or together with the partner. */
  predicate Whole(s: seq<Snapshot>, all: seq<Snapshot>, x: Snapshot) {
    Partner(s, x).None? || Partner(s, x).value in all
  }

  /** A candidate that may be deleted, together with its partner if it has one. */
  predicate MayGo(s: seq<Snapshot>, v: View, minAge: int, tmp: seq<Snapshot>, x: Snapshot) {
    && x in tmp && Deletable(v, minAge, x)
    && var y := Partner(s, x); y.None? || (y.value in tmp && Deletable(v, minAge, y.value))
  }

  /** The candidates that may be deleted. */
  ghost predicate Filtered(s: seq<Snapshot>, v: View, minAge: int, tmp: seq<Snapshot>, r: seq<Snapshot>) {
    Ascending(r) && forall x :: x in r <==> MayGo(s, v, minAge, tmp, x)
  }

  /** Erases the snapshot with a number. */
  method EraseNumber(tmp: seq<Snapshot>, num: nat) returns (r: seq<Snapshot>)
    requires Ascending(tmp)
    ensures Ascending(r) && forall x :: x in r <==> x in tmp && x.num != num
  {
    for i := 0 to |tmp|
      invariant forall k | 0 <= k < i :: tmp[k].num != num
    {
      if tmp[i].num == num {
        r := tmp[..i] + tmp[i + 1..];
        assert tmp == tmp[..i] + [tmp[i]] + tmp[i + 1..];
        return;
      }
    }
    return tmp;
  }

  method FilterUndeletables(v: View, tmp: seq<Snapshot>) returns (r: seq<Snapshot>)
    requires Ascending(tmp)
    ensures Ascending(r) && forall x :: x in r <==> x in tmp && v.default != Some(x.num) && v.active != Some(x.num)
  {
    r := tmp;
    if v.default.Some? { r := EraseNumber(r, v.default.value); }
    if v.active.Some? { r := EraseNumber(r, v.active.value); }
  }

  method FilterMinAge(v: View, minAge: int, tmp: seq<Snapshot>) returns (r: seq<Snapshot>)
    requires Ascending(tmp)
    ensures Ascending(r) && forall x :: x in r <==> x in tmp && x.date <= v.now - minAge
  {
    r := [];
    for i := 0 to |tmp|
      invariant Ascending(r) && forall x :: x in r <==> x in tmp[..i] && x.date <= v.now - minAge
    {
      assert tmp[..i + 1] == tmp[..i] + [tmp[i]];
      if tmp[i].date <= v.now - minAge {
        AppendLater(tmp, i, r);
        r := r + [tmp[i]];
      }
    }
    assert tmp[..|tmp|] == tmp;
  }

  lemma {:induction false} AppendLater(tmp: seq<Snapshot>, i: nat, r: seq<Snapshot>)
    requires Ascending(tmp) && i < |tmp| && Ascending(r) && forall x | x in r :: x in tmp[..i]
    ensures Ascending(r + [tmp[i]])
  {
    forall k | 0 <= k < |r| ensures r[k].num < tmp[i].num {
      assert r[k] in tmp[..i];
      var m :| 0 <= m < i && tmp[..i][m] == r[k];
      assert tmp[m].num < tmp[i].num;
    }
  }

  method FilterPrePost(s: seq<Snapshot>, tmp: seq<Snapshot>) returns (ret: seq<Snapshot>)
    requires Ascending(tmp)
    ensures Ascending(ret) && forall x :: x in ret <==> x in tmp && Whole(s, tmp, x)
  {
    ret := [];
    for i := 0 to |tmp|
      invariant Ascending(ret) && forall x :: x in ret <==> x in tmp[..i] && Whole(s, tmp, x)
    {
      assert tmp[..i + 1] == tmp[..i] + [tmp[i]];
      var x := tmp[i];
      if x.kind == Pre {
        var y := FindPost(s, x.num);
        if y.Some? && y.value !in tmp { continue; }
      }
      if x.kind == Post {
        var y := FindPre(s, x);
        if y.Some? && y.value !in tmp { continue; }
      }
      AppendLater(tmp, i, ret);
      ret := ret + [x];
    }
    assert tmp[..|tmp|] == tmp;
  }

  /** The three filters in turn. */
  method Filter(s: seq<Snapshot>, v: View, minAge: int, tmp: seq<Snapshot>) returns (r: seq<Snapshot>)
    requires Ascending(tmp)
    ensures Filtered(s, v, minAge, tmp, r)
  {
    r := FilterUndeletables(v, tmp);
    r := FilterMinAge(v, minAge, r);
    r := FilterPrePost(s, r);
  }

  /** There is one filtered list; it protects what it has to and keeps pairs whole. */
  lemma {:induction false} FilterKeepsPairs(s: seq<Snapshot>, v: View, minAge: int, tmp: seq<Snapshot>,
                                            r: seq<Snapshot>)
    requires Ascending(s) && OnePost(s) && Filtered(s, v, minAge, tmp, r)
    ensures forall x | x in r :: x in tmp && Deletable(v, minAge, x)
    ensures PairsWhole(s, r)
    ensures forall q | Filtered(s, v, minAge, tmp, q) :: q == r
  {
    forall x, y | x in s && y in s && Partner(s, x) == Some(y) ensures x in r <==> y in r {
      PartnersMutual(s, x);
    }
    forall q | Filtered(s, v, minAge, tmp, q) ensures q == r { SameAscending(q, r); }
  }

  /** One unpaired snapshot, or one pair. */
  ghost predicate OneOrPair(s: seq<Snapshot>, batch: seq<Snapshot>) {
    || (|batch| == 1 && Partner(s, batch[0]).None?)
    || (|batch| == 2 && Partner(s, batch[0]) == Some(batch[1]) && Partner(s, batch[1]) == Some(batch[0]))
  }

  /** A snapshot that was too young, or the default or active one, at one look, and can be deleted at the next. */
  predicate Matured(minAge: int, v: View, w: View, x: Snapshot) {
    !Deletable(v, minAge, x) && Deletable(w, minAge, x)
  }

  /** The candidates before number e leave nothing to delete, those up to and with number e leave a batch. */
  ghost predicate Reached(s: seq<Snapshot>, minAge: int, v: View, w: View, candidates: seq<Snapshot>, e: nat,
                          batch: seq<Snapshot>)
  {
    && Ascending(s) && OnePost(s) && Sublist(candidates, s) && e < |candidates|
    && Filtered(s, v, minAge, candidates[..e], [])
    && Filtered(s, w, minAge, candidates[..e + 1], batch) && batch != []
  }

  /**
   The first prefix of the candidates that survives the filters is one unpaired snapshot or one pair, if no candidate
   that was passed has matured.
   */
  lemma {:induction false} FirstBatch(s: seq<Snapshot>, minAge: int, v: View, w: View, candidates: seq<Snapshot>,
                                      e: nat, batch: seq<Snapshot>)
    requires Reached(s, minAge, v, w, candidates, e, batch)
    requires forall x | x in candidates[..e] :: !Matured(minAge, v, w, x)
    ensures OneOrPair(s, batch)
  {
    var x := candidates[e];
    assert candidates[..e + 1] == candidates[..e] + [x];
    forall y | y in batch && y != x ensures Partner(s, y) == Some(x) {
      assert y in candidates[..e];
      assert !MayGo(s, v, minAge, candidates[..e], y);
    }
    FilterKeepsPairs(s, w, minAge, candidates[..e + 1], batch);
    AtMostTwo(s, batch, x);
  }

  lemma {:induction false} Three(batch: seq<Snapshot>, x: Snapshot, y: Option<Snapshot>)
    requires Ascending(batch) && forall i | 0 <= i < |batch| && batch[i] != x :: y == Some(batch[i])
    ensures |batch| <= 2
  {
    assert |batch| >= 3 ==> batch[0].num < batch[1].num < batch[2].num;
  }

  lemma {:induction false} AtMostTwo(s: seq<Snapshot>, batch: seq<Snapshot>, x: Snapshot)
    requires Ascending(s) && OnePost(s) && Ascending(batch) && batch != []
    requires x in s && forall y | y in batch :: y in s
    requires forall y | y in batch && y != x :: Partner(s, y) == Some(x)
    requires PairsWhole(s, batch)
    ensures OneOrPair(s, batch)
  {
    forall i | 0 <= i < |batch| && batch[i] != x ensures Partner(s, x) == Some(batch[i]) {
      assert batch[i] in batch;
      PartnersMutual(s, batch[i]);
    }
    if Partner(s, x).Some? {
      PartnersMutual(s, x);
      PartnerMatches(s, x);
    }
    assert |batch| <= 2 by { Three(batch, x, Partner(s, x)); }
    assert batch[0] in batch;
    assert |batch| == 1 ==> forall y | y in batch :: y == batch[0];
  }

  /** A policy without limits has every snapshot of its own for a candidate. */
  lemma {:induction false} AllAreCandidates(limits: Range, a: Snapshot, b: Snapshot)
    requires limits.min == 0 && a.cleanup == b.cleanup == "number"
    ensures Candidates(Number(limits, limits), [a, b], MIN) == [a, b]
  {
    assert [a, b][..1] == [a] && [a][..0] == [];
    assert Tagged([a], "number") == [a] && Tagged([a, b], "number") == [a, b];
    var kept := Kept(Number(limits, limits), [a, b], MIN);
    assert kept == {};
    assert Without([a], kept) == [a] && Without([a, b], kept) == [a, b];
  }

  /** A snapshot that matures between two looks can be deleted together with an unrelated one. */
  lemma {:induction false} Matures(minAge: int, v: View, w: View, x: Snapshot)
    returns (policy: Policy, s: seq<Snapshot>)
    requires Matured(minAge, v, w, x)
    ensures s == Candidates(policy, s, MIN) && Reached(s, minAge, v, w, s, 1, s) && !OneOrPair(s, s)
  {
    var n := x.num + 1;
    if w.default == Some(n) || w.active == Some(n) { n := n + 1; }
    if w.default == Some(n) || w.active == Some(n) { n := n + 1; }
    var a, b := x.(kind := Single, cleanup := "number"), x.(kind := Single, cleanup := "number", num := n);
    policy, s := Number(Limits(0, 0), Limits(0, 0)), [a, b];
    AllAreCandidates(Limits(0, 0), a, b);
    BothGo(minAge, v, w, a, b);
  }

  lemma {:induction false} BothGo(minAge: int, v: View, w: View, a: Snapshot, b: Snapshot)
    requires a.num < b.num && a.kind == b.kind == Single
    requires Matured(minAge, v, w, a) && Deletable(w, minAge, b)
    ensures Reached([a, b], minAge, v, w, [a, b], 1, [a, b]) && !OneOrPair([a, b], [a, b])
  {
    var s := [a, b];
    assert s[..1] == [a] && s[..2] == s;
    assert Ascending([]) && Ascending(s);
  }

  /**
   With the candidates of every policy, every round deletes one unpaired snapshot or one pair, exactly if nothing at
   all matures between its last two looks.
   */
  lemma {:induction false} RoundRule(minAge: int, v: View, w: View)
    ensures (forall policy, s, e, batch | Reached(s, minAge, v, w, Candidates(policy, s, MIN), e, batch) ::
            OneOrPair(s, batch))
            <==> forall x :: !Matured(minAge, v, w, x)
  {
    if x :| Matured(minAge, v, w, x) {
      var policy, s := Matures(minAge, v, w, x);
      assert Reached(s, minAge, v, w, Candidates(policy, s, MIN), 1, s);
    } else {
      forall policy, s, e, batch | Reached(s, minAge, v, w, Candidates(policy, s, MIN), e, batch)
        ensures OneOrPair(s, batch)
      {
        FirstBatch(s, minAge, v, w, Candidates(policy, s, MIN), e, batch);
      }
    }
  }

  // Whole runs

  /** Nothing but what the policy may give up is gone. */
  ghost predicate Spared(policy: Policy, was: seq<Snapshot>, now: seq<Snapshot>) {
    forall x | x in was && (x.cleanup != Tag(policy) || x.num in Kept(policy, was, MIN)) :: x in now
  }

  lemma {:induction false} SparedTransitive(policy: Policy, a: seq<Snapshot>, b: seq<Snapshot>, c: seq<Snapshot>)
    requires Ascending(a) && Sublist(b, a) && Orderly(policy, a)
    requires Spared(policy, a, b) && Spared(policy, b, c)
    ensures Spared(policy, a, c)
  {
    KeptStable(policy, a, b, MIN);
  }

  lemma {:induction false} PartnerStays(a: seq<Snapshot>, b: seq<Snapshot>, x: Snapshot)
    requires Ascending(a) && OnePost(a) && Sublist(b, a) && x in b
    requires Partner(a, x).Some? && Partner(a, x).value in b
    ensures Partner(b, x) == Partner(a, x)
  {
    var p := Partner(a, x).value;
    var q := Partner(b, x);
    PartnerMatches(a, x);
    PartnerMatches(b, x);
    assert q.Some? && q.value in a;
    if x.kind == Post { SameNumber(a, p, q.value); } else { SamePost(a, p, q.value); }
  }

  lemma {:induction false} PairsTransitive(a: seq<Snapshot>, b: seq<Snapshot>, c: seq<Snapshot>)
    requires Ascending(a) && OnePost(a) && Sublist(b, a) && Sublist(c, b)
    requires PairsWhole(a, b) && PairsWhole(b, c)
    ensures PairsWhole(a, c)
  {
    forall x, y | x in a && y in a && Partner(a, x) == Some(y) ensures x in c <==> y in c {
      if x in b { PartnerStays(a, b, x); }
    }
  }

  /** One batch of deletions, complete or cut short, with the number of the look that decided it. */
  datatype Removal = Removal(before: seq<Snapshot>, after: seq<Snapshot>, bound: Bound, candidates: seq<Snapshot>,
                             batch: seq<Snapshot>, look: nat, view: View, complete: bool)

  /** Only candidates of the policy are taken. */
  ghost predicate MayTake(policy: Policy, s: seq<Snapshot>, b: Bound, candidates: seq<Snapshot>) {
    Orderly(policy, s) ==> forall x | x in candidates :: x in Candidates(policy, s, b)
  }

  /** The batch is what the filters leave of the candidates; nothing else is deleted. */
  ghost predicate Allowed(policy: Policy, minAge: int, r: Removal) {
    && Ascending(r.before) && Sublist(r.after, r.before) && Sublist(r.candidates, r.before)
    && MayTake(policy, r.before, r.bound, r.candidates)
    && Filtered(r.before, r.view, minAge, r.candidates, r.batch)
    && (forall x | x in r.before && x !in r.batch :: x in r.after)
    && (r.complete ==> forall x | x in r.batch :: x !in r.after)
  }

  /** The batches of a run in order. */
  ghost predicate Run(policy: Policy, minAge: int, trace: seq<Removal>, was: seq<Snapshot>, now: seq<Snapshot>) {
    if trace == [] then was == now
    else
      var r := trace[|trace| - 1];
      && Allowed(policy, minAge, r) && r.after == now
      && Run(policy, minAge, trace[..|trace| - 1], was, r.before)
  }

  lemma {:induction false} BatchAllowed(policy: Policy, minAge: int, trace: seq<Removal>, was: seq<Snapshot>,
                                        r: Removal)
    requires Ascending(r.before) && Run(policy, minAge, trace, was, r.before)
    requires Sublist(r.after, r.before) && Sublist(r.candidates, r.before)
    requires MayTake(policy, r.before, r.bound, r.candidates)
    requires Filtered(r.before, r.view, minAge, r.candidates, r.batch)
    requires forall x | x in r.before && x !in r.batch :: x in r.after
    requires r.complete ==> forall x | x in r.batch :: x !in r.after
    ensures Allowed(policy, minAge, r)
    ensures Run(policy, minAge, trace + [r], was, r.after)
  {
    hide MayTake;
    assert (trace + [r])[..|trace|] == trace;
  }

  /** Every snapshot that is gone was deletable at the look of one of the batches. */
  ghost predicate Protected(minAge: int, trace: seq<Removal>, was: seq<Snapshot>, now: seq<Snapshot>) {
    forall x | x in was && x !in now :: exists r :: r in trace && Deletable(r.view, minAge, x)
  }

  lemma {:induction false} BatchIsSafe(policy: Policy, minAge: int, r: Removal)
    requires Allowed(policy, minAge, r)
    ensures forall x | x in r.before && x !in r.after :: Deletable(r.view, minAge, x)
    ensures Orderly(policy, r.before) ==> Spared(policy, r.before, r.after) && Orderly(policy, r.after)
  {
    if Orderly(policy, r.before) { BatchSpares(policy, r.before, r.after, r.bound, r.candidates); }
  }

  lemma {:induction false} BatchSpares(policy: Policy, was: seq<Snapshot>, now: seq<Snapshot>, b: Bound,
                                       candidates: seq<Snapshot>)
    requires Ascending(was) && Sublist(now, was) && Orderly(policy, was) && MayTake(policy, was, b, candidates)
    requires forall x | x in was && x !in candidates :: x in now
    ensures Spared(policy, was, now) && Orderly(policy, now)
  {
    MinKeepsLess(policy, was);
    CandidatesAre(policy, was, b);
    forall x | x in was && (x.cleanup != Tag(policy) || x.num in Kept(policy, was, MIN)) ensures x in now {
      assert x !in Candidates(policy, was, b);
    }
    KeptStable(policy, was, now, MIN);
  }

  lemma {:induction false} BatchKeepsPairs(policy: Policy, minAge: int, r: Removal)
    requires Allowed(policy, minAge, r) && r.complete && OnePost(r.before)
    ensures OnePost(r.after) && PairsWhole(r.before, r.after)
  {
    FilterKeepsPairs(r.before, r.view, minAge, r.candidates, r.batch);
    OnePostOfPart(r.before, r.after);
  }

  /**
   Whatever the outside answers and wherever a run is cut short, what the policy keeps at its lower bound and
   what is not its own stays, and nothing is deleted that was the default or active snapshot or too young.
   */
  lemma {:induction false} RunIsSafe(policy: Policy, minAge: int, trace: seq<Removal>, was: seq<Snapshot>,
                                     now: seq<Snapshot>)
    requires Ascending(was) && Run(policy, minAge, trace, was, now)
    ensures Sublist(now, was) && Protected(minAge, trace, was, now)
    ensures Orderly(policy, was) ==> Spared(policy, was, now) && Orderly(policy, now)
  {
    if trace != [] {
      var n := |trace| - 1;
      var r := trace[n];
      RunIsSafe(policy, minAge, trace[..n], was, r.before);
      BatchIsSafe(policy, minAge, r);
      ProtectedOn(minAge, trace, was, r);
      if Orderly(policy, was) { SparedTransitive(policy, was, r.before, r.after); }
    }
  }

  lemma {:induction false} ProtectedOn(minAge: int, trace: seq<Removal>, was: seq<Snapshot>, r: Removal)
    requires trace != [] && r == trace[|trace| - 1]
    requires Protected(minAge, trace[..|trace| - 1], was, r.before)
    requires forall x | x in r.before && x !in r.after :: Deletable(r.view, minAge, x)
    ensures Protected(minAge, trace, was, r.after)
  {
    forall x | x in was && x !in r.after ensures exists q :: q in trace && Deletable(q.view, minAge, x) {
      if x in r.before {
        assert r in trace;
      } else {
        var q :| q in trace[..|trace| - 1] && Deletable(q.view, minAge, x);
        assert q in trace;
      }
    }
  }

  /** A run whose batches are all complete leaves or deletes pairs as a whole. */
  lemma {:induction false} RunKeepsPairs(policy: Policy, minAge: int, trace: seq<Removal>, was: seq<Snapshot>,
                                         now: seq<Snapshot>)
    requires Ascending(was) && OnePost(was) && Run(policy, minAge, trace, was, now)
    requires forall r | r in trace :: r.complete
    ensures Sublist(now, was) && OnePost(now) && PairsWhole(was, now)
  {
    if trace == [] {
    } else {
      var n := |trace| - 1;
      var r := trace[n];
      assert r in trace;
      RunKeepsPairs(policy, minAge, trace[..n], was, r.before);
      BatchKeepsPairs(policy, minAge, r);
      PairsTransitive(was, r.before, r.after);
    }
  }

  /** Exactly what the filters leave of the candidates is gone. */
  ghost predicate Cleaned(was: seq<Snapshot>, now: seq<Snapshot>, v: View, minAge: int, candidates: seq<Snapshot>) {
    forall x :: x in now <==> x in was && !MayGo(was, v, minAge, candidates, x)
  }

  lemma {:induction false} BatchCleans(was: seq<Snapshot>, now: seq<Snapshot>, v: View, minAge: int,
                                       candidates: seq<Snapshot>, batch: seq<Snapshot>)
    requires Filtered(was, v, minAge, candidates, batch)
    requires forall x | x in now :: x in was && x !in batch
    requires forall x | x in was && x !in batch :: x in now
    ensures Cleaned(was, now, v, minAge, candidates)
  {
  }

  /** The trace goes on; only its last batch can be incomplete. */
  ghost predicate Follows(was: seq<Removal>, now: seq<Removal>, ok: bool) {
    && was <= now
    && forall i | |was| <= i < |now| :: now[i].complete || (!ok && i == |now| - 1)
  }

  /** None of the candidates may be deleted. */
  ghost predicate Stuck(s: seq<Snapshot>, v: View, minAge: int, candidates: seq<Snapshot>) {
    Filtered(s, v, minAge, candidates, [])
  }

  /**
   The answers of the outside, each in the order in which it is asked: what the filters see, whether the quota and
   whether the free space is satisfied, and whether a deletion is refused.
   */
  datatype Outside = Outside(looks: nat -> View, quota: Condition, free: Condition, refuses: nat -> bool)

  /** The answers to the questions of one conditional pass. */
  type Condition = nat -> bool

  /** The first n parts of the candidates had nothing that may be deleted, each at its own look. */
  ghost predicate PassedOver(o: Outside, first: nat, s: seq<Snapshot>, minAge: int, candidates: seq<Snapshot>, n: nat)
    requires n <= |candidates|
  {
    forall i | 0 <= i < n :: PartStuck(o, first, s, minAge, candidates, i)
  }

  ghost predicate PartStuck(o: Outside, first: nat, s: seq<Snapshot>, minAge: int, candidates: seq<Snapshot>, i: nat)
    requires i < |candidates|
  {
    Stuck(s, o.looks(first + i), minAge, candidates[..i + 1])
  }

  /** The deletions from one number on up to another: none was refused, or just the last. */
  ghost predicate Refusals(o: Outside, from: nat, to: nat, ok: bool) {
    && from <= to && (!ok ==> from < to && o.refuses(to - 1))
    && forall i | from <= i < (if ok then to else to - 1) :: !o.refuses(i)
  }

  /** The batches were decided at looks that were made. */
  ghost predicate AtLooks(o: Outside, trace: seq<Removal>, looked: nat) {
    forall i | 0 <= i < |trace| :: trace[i].look < looked && trace[i].view == o.looks(trace[i].look)
  }

  /**
   A conditional pass has come to its end: of its questions only the last can have been answered with yes. If it was
   not, then at the last of its looks, which begin with number first, no candidate of the lower bound could be deleted.
   */
  ghost predicate Ended(o: Outside, condition: Condition, policy: Policy, minAge: int, s: seq<Snapshot>, asked: nat,
                        first: nat, looked: nat) {
    && asked > 0 && (forall i | 0 <= i < asked - 1 :: !condition(i))
    && (!condition(asked - 1) && Orderly(policy, s) ==>
          var left := Candidates(policy, s, MIN);
          first + |left| <= looked && PassedOver(o, looked - |left|, s, minAge, left, |left|))
  }

  /** A batch of a conditional pass: the first part of the candidates of the lower bound that survived the filters. */
  ghost predicate Stepwise(o: Outside, policy: Policy, minAge: int, r: Removal) {
    && r.bound == MIN && r.batch != [] && r.candidates != []
    && (Orderly(policy, r.before) ==>
          var left, e := Candidates(policy, r.before, MIN), |r.candidates| - 1;
          && r.candidates <= left && e <= r.look
          && PassedOver(o, r.look - e, r.before, minAge, left, e)
          && Rule(r.before, minAge, o.looks(if e > 0 then r.look - 1 else r.look), r.view, left, e, r.batch))
  }

  /** The batches of conditional passes, from some number on. */
  ghost predicate AllStepwise(o: Outside, policy: Policy, minAge: int, trace: seq<Removal>, from: nat) {
    forall i | from <= i < |trace| :: Stepwise(o, policy, minAge, trace[i])
  }

  /** The same after the pass without a condition, which has one batch at most. */
  ghost predicate OnceThenStepwise(o: Outside, policy: Policy, minAge: int, trace: seq<Removal>, from: nat) {
    forall i | from <= i < |trace| ::
      Stepwise(o, policy, minAge, trace[i]) || (i == from && trace[i].bound == MAX)
  }

  /** One unpaired snapshot or one pair goes, unless a passed candidate matured between the last two looks. */
  ghost predicate Rule(was: seq<Snapshot>, minAge: int, v: View, w: View, candidates: seq<Snapshot>, e: nat,
                       batch: seq<Snapshot>)
    requires e <= |candidates|
  {
    OnePost(was) && (forall x | x in candidates[..e] :: !Matured(minAge, v, w, x)) ==> OneOrPair(was, batch)
  }

  lemma {:induction false} RoundBatch(was: seq<Snapshot>, minAge: int, v: View, w: View, candidates: seq<Snapshot>,
                                      e: nat, batch: seq<Snapshot>)
    requires Ascending(was) && Sublist(candidates, was) && e < |candidates|
    requires e > 0 ==> Stuck(was, v, minAge, candidates[..e])
    requires Filtered(was, w, minAge, candidates[..e + 1], batch) && batch != []
    ensures Rule(was, minAge, v, w, candidates, e, batch)
  {
    if OnePost(was) && e == 0 {
      assert candidates[..e] == [];
      FirstBatch(was, minAge, w, w, candidates, 0, batch);
    } else if OnePost(was) && forall x | x in candidates[..e] :: !Matured(minAge, v, w, x) {
      FirstBatch(was, minAge, v, w, candidates, e, batch);
    }
  }

  lemma {:induction false} PartMayGo(policy: Policy, s: seq<Snapshot>, candidates: seq<Snapshot>, i: nat)
    requires Sublist(candidates, s) && MayTake(policy, s, MIN, candidates) && i <= |candidates|
    ensures Ascending(candidates[..i]) && Sublist(candidates[..i], s) && MayTake(policy, s, MIN, candidates[..i])
  {
  }

  /** The cleaner, with the answers that the outside is going to give. */
  class Cleaner {
    const policy: Policy
    const minAge: int
    const outside: Outside
    var snapshots: seq<Snapshot>
    /** How many looks and deletions there have been. */
    var looked: nat
    var tried: nat
    ghost const origin: seq<Snapshot>
    ghost var trace: seq<Removal>

    ghost predicate Valid()
      reads this
    {
      && Ascending(snapshots) && Run(policy, minAge, trace, origin, snapshots) && AtLooks(outside, trace, looked)
    }

    constructor (policy: Policy, minAge: int, outside: Outside, snapshots: seq<Snapshot>)
      requires Ascending(snapshots)
      ensures this.policy == policy && this.minAge == minAge && this.outside == outside
      ensures this.snapshots == origin == snapshots && trace == [] && Valid()
      ensures looked == tried == 0
    {
      this.policy, this.minAge, this.outside, this.snapshots := policy, minAge, outside, snapshots;
      looked, tried := 0, 0;
      origin, trace := snapshots, [];
    }

    /** Deletes the snapshots one after the other until one is refused. */
    method Remove(tmp: seq<Snapshot>) returns (ok: bool)
      requires Ascending(snapshots) && Sublist(tmp, snapshots)
      modifies this`snapshots, this`tried
      ensures Sublist(snapshots, old(snapshots))
      ensures forall x | x in old(snapshots) && x !in tmp :: x in snapshots
      ensures ok ==> (forall x | x in tmp :: x !in snapshots) && tried == old(tried) + |tmp|
      ensures Refusals(outside, old(tried), tried, ok)
      ensures |old(snapshots)| - |snapshots| == tried - old(tried) - (if ok then 0 else 1)
    {
      for i := 0 to |tmp|
        invariant Sublist(snapshots, old(snapshots)) && tried == old(tried) + i
        invariant |snapshots| == |old(snapshots)| - i
        invariant forall x | x in old(snapshots) && x !in tmp[..i] :: x in snapshots
        invariant forall x | x in tmp[..i] :: x !in snapshots
        invariant Refusals(outside, old(tried), tried, true)
      {
        var refused := outside.refuses(tried);
        tried := tried + 1;
        if refused { return false; }
        assert tmp[..i + 1] == tmp[..i] + [tmp[i]];
        EarlierDiffers(tmp, i);
        assert tmp[i] in snapshots;
        snapshots := EraseSnapshot(snapshots, tmp[i]);
      }
      assert tmp[..|tmp|] == tmp;
      return true;
    }

    /** Deletes what the filters left at the last look, as one batch of the run. */
    method RemoveBatch(tmp: seq<Snapshot>, ghost bound: Bound, ghost candidates: seq<Snapshot>) returns (ok: bool)
      requires Valid() && Sublist(candidates, snapshots) && MayTake(policy, snapshots, bound, candidates) && looked > 0
      requires Filtered(snapshots, outside.looks(looked - 1), minAge, candidates, tmp) && tmp != []
      modifies this`snapshots, this`tried, this`trace
      ensures Valid() && Sublist(snapshots, old(snapshots))
      ensures trace == old(trace) + [Removal(old(snapshots), snapshots, bound, candidates, tmp, looked - 1,
                                             outside.looks(looked - 1), ok)]
      ensures ok ==> Cleaned(old(snapshots), snapshots, outside.looks(looked - 1), minAge, candidates)
      ensures ok ==> |snapshots| < |old(snapshots)|
      ensures Refusals(outside, old(tried), tried, ok)
      ensures |old(snapshots)| - |snapshots| == tried - old(tried) - (if ok then 0 else 1)
    {
      hide Cleaned, MayTake, Refusals, AtLooks, Run, Allowed;
      ghost var was, v := snapshots, outside.looks(looked - 1);
      ok := Remove(tmp);
      ghost var r := Removal(was, snapshots, bound, candidates, tmp, looked - 1, v, ok);
      BatchAllowed(policy, minAge, trace, origin, r);
      if ok { BatchCleans(was, snapshots, v, minAge, candidates, tmp); }
      AtLooksOn(outside, trace, looked, r);
      trace := trace + [r];
    }

    /** The unconditional pass, with one look at all candidates of the upper bound. */
    method CleanupOnce() returns (ok: bool)
      requires Valid()
      modifies this
      ensures Valid() && Follows(old(trace), trace, ok) && |trace| <= |old(trace)| + 1
      ensures |trace| > |old(trace)| ==> trace[|old(trace)|].bound == MAX
      ensures Sublist(snapshots, old(snapshots))
      ensures looked == old(looked) + 1
      ensures ok && Orderly(policy, old(snapshots)) ==>
                Cleaned(old(snapshots), snapshots, outside.looks(old(looked)), minAge,
                        Candidates(policy, old(snapshots), MAX))
      ensures Refusals(outside, old(tried), tried, ok)
      ensures |old(snapshots)| - |snapshots| == tried - old(tried) - (if ok then 0 else 1)
    {
      hide Cleaned, Run, MayTake;
      var candidates := CalculateCandidates(snapshots, policy, MAX);
      MayTakeAll(policy, snapshots, MAX, candidates);
      var view := outside.looks(looked);
      looked := looked + 1;
      var tmp := Filter(snapshots, view, minAge, candidates);
      if tmp == [] {
        BatchCleans(snapshots, snapshots, view, minAge, candidates, tmp);
        ok := true;
      } else {
        ok := RemoveBatch(tmp, MAX, candidates);
      }
    }

    /** Looks at longer and longer parts of the candidates and deletes the first that survives the filters. */
    method Round(candidates: seq<Snapshot>) returns (exhausted: bool, ok: bool)
      requires Valid() && Sublist(candidates, snapshots) && candidates != []
      requires MayTake(policy, snapshots, MIN, candidates)
      modifies this
      ensures Valid() && Follows(old(trace), trace, ok) && Sublist(snapshots, old(snapshots))
      ensures exhausted ==> ok && snapshots == old(snapshots) && trace == old(trace) && tried == old(tried)
      ensures exhausted ==> looked == old(looked) + |candidates|
      ensures exhausted ==> PassedOver(outside, old(looked), snapshots, minAge, candidates, |candidates|)
      ensures !exhausted ==> |trace| == |old(trace)| + 1 && old(looked) < looked <= old(looked) + |candidates|
      ensures !exhausted ==> var r, e := trace[|old(trace)|], looked - old(looked) - 1;
                && r.before == old(snapshots) && r.after == snapshots && r.complete == ok && r.bound == MIN
                && r.candidates == candidates[..e + 1] && r.look == looked - 1 && r.batch != []
                && r.view == outside.looks(r.look)
                && PassedOver(outside, old(looked), r.before, minAge, candidates, e)
                && Rule(r.before, minAge, outside.looks(if e > 0 then looked - 2 else looked - 1), r.view, candidates,
                        e, r.batch)
      ensures ok && !exhausted ==> |snapshots| < |old(snapshots)|
      ensures Refusals(outside, old(tried), tried, ok)
      ensures |old(snapshots)| - |snapshots| == tried - old(tried) - (if ok then 0 else 1)
    {
      hide MayTake, Rule, Sublist, Ascending, Run, Filtered, Cleaned;
      SublistSelf(snapshots);
      for i := 0 to |candidates|
        invariant Valid() && snapshots == old(snapshots) && trace == old(trace) && looked == old(looked) + i
        invariant tried == old(tried)
        invariant PassedOver(outside, old(looked), snapshots, minAge, candidates, i)
      {
        var view := outside.looks(looked);
        looked := looked + 1;
        PartMayGo(policy, snapshots, candidates, i + 1);
        var tmp := Filter(snapshots, view, minAge, candidates[..i + 1]);
        if tmp != [] {
          assert i > 0 ==> PartStuck(outside, old(looked), snapshots, minAge, candidates, i - 1);
          RoundBatch(snapshots, minAge, outside.looks(if i > 0 then looked - 2 else looked - 1), view, candidates, i,
                     tmp);
          ok := RemoveBatch(tmp, MIN, candidates[..i + 1]);
          return false, ok;
        }
        assert PartStuck(outside, old(looked), snapshots, minAge, candidates, i);
      }
      return true, true;
    }

    /** Deletes, round by round, until the condition is satisfied or no candidate can go. */
    method CleanupUntil(condition: Condition) returns (ok: bool, asked: nat)
      requires Valid()
      modifies this
      ensures Valid() && Follows(old(trace), trace, ok) && Sublist(snapshots, old(snapshots))
      ensures looked >= old(looked)
      ensures ok ==> Ended(outside, condition, policy, minAge, snapshots, asked, old(looked), looked)
      ensures !ok ==> forall i | 0 <= i < asked :: !condition(i)
      ensures asked == |trace| - |old(trace)| + (if ok then 1 else 0)
      ensures AllStepwise(outside, policy, minAge, trace, |old(trace)|)
      ensures Refusals(outside, old(tried), tried, ok)
      ensures |old(snapshots)| - |snapshots| == tried - old(tried) - (if ok then 0 else 1)
    {
      hide Run, AtLooks, MayTake, Ascending, Sublist, Rule, PassedOver, Ended, Refusals, Candidates, Orderly, Stepwise;
      NoRefusals(outside, tried);
      SublistSelf(snapshots);
      asked := 0;
      while true
        invariant Valid() && Follows(old(trace), trace, true) && looked >= old(looked)
        invariant Sublist(snapshots, old(snapshots))
        invariant asked == |trace| - |old(trace)|
        invariant forall i | 0 <= i < asked :: !condition(i)
        invariant AllStepwise(outside, policy, minAge, trace, |old(trace)|)
        invariant Refusals(outside, old(tried), tried, true)
        invariant |old(snapshots)| - |snapshots| == tried - old(tried)
        decreases |snapshots|
      {
        asked := asked + 1;
        if condition(asked - 1) {
          EndsSatisfied(outside, condition, policy, minAge, snapshots, asked, old(looked), looked);
          return true, asked;
        }
        var candidates := CalculateCandidates(snapshots, policy, MIN);
        MayTakeAll(policy, snapshots, MIN, candidates);
        if candidates == [] {
          NothingLeft(outside, looked, snapshots, minAge);
          EndsStuck(outside, condition, policy, minAge, snapshots, asked, old(looked), looked, []);
          return true, asked;
        }
        var exhausted;
        ghost var tries, was, before, looks := tried, trace, snapshots, looked;
        exhausted, ok := Round(candidates);
        RefusalsOn(outside, old(tried), tries, tried, ok);
        if exhausted {
          EndsStuck(outside, condition, policy, minAge, snapshots, asked, old(looked), looked, candidates);
          return true, asked;
        }
        RoundIsStepwise(outside, policy, minAge, candidates, looks, looked, trace[|was|]);
        SublistOn(snapshots, before, old(snapshots));
        if !ok { return false, asked; }
      }
    }

    /** The conditional passes, the one for the quota and then the one for free space. */
    method CleanupConditions(quotaAware: bool, freeAware: bool)
      returns (ok: bool, askedQuota: nat, askedFree: nat, middle: seq<Snapshot>, mid: nat)
      requires Valid()
      modifies this
      ensures Valid() && Follows(old(trace), trace, ok) && Sublist(snapshots, old(snapshots))
      ensures !quotaAware ==> askedQuota == 0
      ensures !freeAware ==> askedFree == 0
      ensures !quotaAware && !freeAware ==> ok && snapshots == old(snapshots) && trace == old(trace)
      ensures ok && quotaAware ==>
                Ended(outside, outside.quota, policy, minAge, middle, askedQuota, old(looked), mid)
      ensures ok && freeAware ==> Ended(outside, outside.free, policy, minAge, snapshots, askedFree, mid, looked)
      ensures ok ==> Sublist(snapshots, middle) && Sublist(middle, old(snapshots)) && old(looked) <= mid <= looked
      ensures ok && !freeAware ==> middle == snapshots
      ensures AllStepwise(outside, policy, minAge, trace, |old(trace)|)
      ensures Refusals(outside, old(tried), tried, ok)
      ensures |old(snapshots)| - |snapshots| == tried - old(tried) - (if ok then 0 else 1)
    {
      hide Run, AtLooks, Ended, Refusals, Stepwise, Sublist, Ascending;
      askedQuota, askedFree, ok := 0, 0, true;
      NoRefusals(outside, tried);
      SublistSelf(snapshots);
      if quotaAware {
        ok, askedQuota := CleanupUntil(outside.quota);
      }
      middle, mid := snapshots, looked;
      if !ok { return; }
      SublistSelf(snapshots);
      if freeAware {
        ghost var tries := tried;
        ok, askedFree := CleanupUntil(outside.free);
        RefusalsOn(outside, old(tried), tries, tried, ok);
        SublistOn(snapshots, middle, old(snapshots));
      }
    }

    /**
     The pass without a condition and then, if the policy has anything to give, the conditional ones. middle is what
     there is after the one for the quota.
     */
    method Cleanup(quotaAware: bool, freeAware: bool)
      returns (ok: bool, askedQuota: nat, askedFree: nat, middle: seq<Snapshot>, mid: nat)
      requires Valid()
      modifies this
      ensures Valid() && Follows(old(trace), trace, ok)
      ensures ok && Orderly(policy, old(snapshots)) ==>
                AllGone(old(snapshots), snapshots, outside.looks(old(looked)), minAge,
                        Candidates(policy, old(snapshots), MAX))
      ensures ok && Orderly(policy, old(snapshots)) && (!HasRange(policy) || (!quotaAware && !freeAware)) ==>
                Cleaned(old(snapshots), snapshots, outside.looks(old(looked)), minAge,
                        Candidates(policy, old(snapshots), MAX))
      ensures !HasRange(policy) || !quotaAware ==> askedQuota == 0
      ensures !HasRange(policy) || !freeAware ==> askedFree == 0
      ensures ok && HasRange(policy) && quotaAware ==>
                Ended(outside, outside.quota, policy, minAge, middle, askedQuota, old(looked) + 1, mid)
      ensures ok && HasRange(policy) && freeAware ==>
                Ended(outside, outside.free, policy, minAge, snapshots, askedFree, mid, looked)
      ensures ok ==> Sublist(snapshots, middle) && Sublist(middle, old(snapshots)) && old(looked) < mid <= looked
      ensures ok && (!HasRange(policy) || !freeAware) ==> middle == snapshots
      ensures OnceThenStepwise(outside, policy, minAge, trace, |old(trace)|)
      ensures Refusals(outside, old(tried), tried, ok)
      ensures |old(snapshots)| - |snapshots| == tried - old(tried) - (if ok then 0 else 1)
    {
      hide Run, AtLooks, Ended, Cleaned, AllGone, Refusals, Stepwise, Sublist, Ascending, HasRange, IsDegenerated;
      NoRangeNoMore(policy, []);
      ok := CleanupOnce();
      if !ok { return false, 0, 0, snapshots, looked; }
      ghost var tries, left := tried, snapshots;
      ok, askedQuota, askedFree, middle, mid :=
        CleanupConditions(!IsDegenerated(policy) && quotaAware, !IsDegenerated(policy) && freeAware);
      RefusalsOn(outside, old(tried), tries, tried, ok);
      if ok {
        SublistOn(middle, left, old(snapshots));
        if Orderly(policy, old(snapshots)) {
          StayGone(old(snapshots), left, snapshots, outside.looks(old(looked)), minAge,
                   Candidates(policy, old(snapshots), MAX));
        }
      }
    }

    /** A whole cleanup, from a new cleaner on, cut short or not. */
    static method Clean(policy: Policy, minAge: int, outside: Outside, s: seq<Snapshot>, quotaAware: bool,
                        freeAware: bool)
      returns (ok: bool, now: seq<Snapshot>, looked: nat, askedQuota: nat, askedFree: nat, tried: nat,
               middle: seq<Snapshot>, mid: nat)
      requires Ascending(s)
      ensures Sublist(now, s)
      ensures forall x | x in s && x !in now :: exists j: nat :: j < looked && Deletable(outside.looks(j), minAge, x)
      ensures Orderly(policy, s) ==> Spared(policy, s, now) && Orderly(policy, now)
      ensures ok && OnePost(s) ==> PairsWhole(s, now)
      ensures ok && Orderly(policy, s) ==>
                forall x | MayGo(s, outside.looks(0), minAge, Candidates(policy, s, MAX), x) :: x !in now
      ensures ok && Orderly(policy, s) && (!HasRange(policy) || (!quotaAware && !freeAware)) ==> forall x ::
                x in now <==> x in s && !MayGo(s, outside.looks(0), minAge, Candidates(policy, s, MAX), x)
      ensures !HasRange(policy) || !quotaAware ==> askedQuota == 0
      ensures !HasRange(policy) || !freeAware ==> askedFree == 0
      ensures ok && HasRange(policy) && quotaAware ==>
                Ended(outside, outside.quota, policy, minAge, middle, askedQuota, 1, mid)
      ensures ok && HasRange(policy) && freeAware ==>
                Ended(outside, outside.free, policy, minAge, now, askedFree, mid, looked)
      ensures ok ==> Sublist(now, middle) && Sublist(middle, s) && 0 < mid <= looked
      ensures ok && (!HasRange(policy) || !freeAware) ==> middle == now
      ensures exists trace :: Run(policy, minAge, trace, s, now) && AtLooks(outside, trace, looked)
                              && OnceThenStepwise(outside, policy, minAge, trace, 0)
      ensures Refusals(outside, 0, tried, ok) && |s| - |now| == tried - (if ok then 0 else 1)
    {
      hide Run, Ended, Refusals, PairsWhole, OnceThenStepwise, Candidates, Orderly, MayGo, HasRange;
      var c := new Cleaner(policy, minAge, outside, s);
      ok, askedQuota, askedFree, middle, mid := c.Cleanup(quotaAware, freeAware);
      now, looked, tried := c.snapshots, c.looked, c.tried;
      RunIsSafe(policy, minAge, c.trace, s, now);
      DeletedAtLooks(outside, minAge, c.trace, looked, s, now);
      if ok && OnePost(s) { RunKeepsPairs(policy, minAge, c.trace, s, now); }
    }
  }

  /** What the filters left of the candidates is gone. */
  ghost predicate AllGone(was: seq<Snapshot>, now: seq<Snapshot>, v: View, minAge: int, candidates: seq<Snapshot>) {
    forall x | MayGo(was, v, minAge, candidates, x) :: x !in now
  }

  lemma {:induction false} StayGone(was: seq<Snapshot>, left: seq<Snapshot>, now: seq<Snapshot>, v: View, minAge: int,
                                    candidates: seq<Snapshot>)
    requires Cleaned(was, left, v, minAge, candidates) && Sublist(now, left)
    ensures AllGone(was, now, v, minAge, candidates)
  {
    hide MayGo;
  }

  lemma {:induction false} SublistSelf(s: seq<Snapshot>)
    requires Ascending(s)
    ensures Sublist(s, s)
  {
  }

  lemma {:induction false} SublistOn(a: seq<Snapshot>, b: seq<Snapshot>, c: seq<Snapshot>)
    requires Sublist(a, b) && Sublist(b, c)
    ensures Sublist(a, c)
  {
  }

  lemma {:induction false} RoundIsStepwise(o: Outside, policy: Policy, minAge: int, candidates: seq<Snapshot>,
                                           first: nat, looked: nat, r: Removal)
    requires first < looked <= first + |candidates| && r.view == o.looks(r.look)
    requires Orderly(policy, r.before) ==> candidates == Candidates(policy, r.before, MIN)
    requires var e := looked - first - 1;
      && r.bound == MIN && r.candidates == candidates[..e + 1] && r.look == looked - 1 && r.batch != []
      && PassedOver(o, first, r.before, minAge, candidates, e)
      && Rule(r.before, minAge, o.looks(if e > 0 then looked - 2 else looked - 1), r.view, candidates, e, r.batch)
    ensures Stepwise(o, policy, minAge, r)
  {
    hide PassedOver, Rule, Orderly, Candidates;
  }

  lemma {:induction false} DeletedAtLooks(o: Outside, minAge: int, trace: seq<Removal>, looked: nat, was: seq<Snapshot>,
                                          now: seq<Snapshot>)
    requires Protected(minAge, trace, was, now) && AtLooks(o, trace, looked)
    ensures forall x | x in was && x !in now :: exists j: nat :: j < looked && Deletable(o.looks(j), minAge, x)
  {
    forall x | x in was && x !in now ensures exists j: nat :: j < looked && Deletable(o.looks(j), minAge, x) {
      var r :| r in trace && Deletable(r.view, minAge, x);
      assert r.look < looked && r.view == o.looks(r.look);
    }
  }

  lemma {:induction false} MayTakeAll(policy: Policy, s: seq<Snapshot>, b: Bound, candidates: seq<Snapshot>)
    requires Orderly(policy, s) ==> candidates == Candidates(policy, s, b)
    ensures MayTake(policy, s, b, candidates)
  {
  }

  lemma {:induction false} NoRefusals(o: Outside, from: nat)
    ensures Refusals(o, from, from, true)
  {
  }

  lemma {:induction false} RefusalsOn(o: Outside, from: nat, mid: nat, to: nat, ok: bool)
    requires Refusals(o, from, mid, true) && Refusals(o, mid, to, ok)
    ensures Refusals(o, from, to, ok)
  {
  }

  lemma {:induction false} EndsSatisfied(o: Outside, condition: Condition, policy: Policy, minAge: int,
                                         s: seq<Snapshot>, asked: nat, first: nat, looked: nat)
    requires asked > 0 && condition(asked - 1) && forall i | 0 <= i < asked - 1 :: !condition(i)
    ensures Ended(o, condition, policy, minAge, s, asked, first, looked)
  {
  }

  lemma {:induction false} EndsStuck(o: Outside, condition: Condition, policy: Policy, minAge: int, s: seq<Snapshot>,
                                     asked: nat, first: nat, looked: nat, left: seq<Snapshot>)
    requires asked > 0 && forall i | 0 <= i < asked :: !condition(i)
    requires first + |left| <= looked && PassedOver(o, looked - |left|, s, minAge, left, |left|)
    requires Orderly(policy, s) ==> left == Candidates(policy, s, MIN)
    ensures Ended(o, condition, policy, minAge, s, asked, first, looked)
  {
    hide PassedOver, Candidates, Orderly;
  }

  lemma {:induction false} AtLooksOn(o: Outside, trace: seq<Removal>, looked: nat, r: Removal)
    requires AtLooks(o, trace, looked) && r.look < looked && r.view == o.looks(r.look)
    ensures AtLooks(o, trace + [r], looked)
  {
  }

  lemma {:induction false} NothingLeft(o: Outside, looked: nat, s: seq<Snapshot>, minAge: int)
    ensures PassedOver(o, looked, s, minAge, [], 0)
  {
  }

  /** A second unconditional pass at the same time has nothing to delete. */
  lemma {:induction false} SecondPassIsIdle(policy: Policy, minAge: int, v: View, s: seq<Snapshot>, now: seq<Snapshot>)
    requires Ascending(s) && OnePost(s) && Orderly(policy, s) && Sublist(now, s)
    requires Cleaned(s, now, v, minAge, Candidates(policy, s, MAX))
    ensures Filtered(now, v, minAge, Candidates(policy, now, MAX), [])
  {
    var cs, cn := Candidates(policy, s, MAX), Candidates(policy, now, MAX);
    CandidatesAre(policy, s, MAX);
    KeptStable(policy, s, now, MAX);
    CandidatesAre(policy, now, MAX);
    assert Ascending([]);
    forall x ensures !MayGo(now, v, minAge, cn, x) {
      if x in cn {
        assert x in cs && x in s && !MayGo(s, v, minAge, cs, x);
        if Partner(s, x).Some? {
          PartnerMatches(s, x);
          var y := Partner(s, x).value;
          PartnersMutual(s, x);
          assert !MayGo(s, v, minAge, cs, y);
          PartnerStays(s, now, x);
        }
      }
    }
  }

  lemma {:induction false} EarlierDiffers(tmp: seq<Snapshot>, i: nat)
    requires Ascending(tmp) && i < |tmp|
    ensures tmp[i] !in tmp[..i]
  {
  }

  method EraseSnapshot(s: seq<Snapshot>, x: Snapshot) returns (r: seq<Snapshot>)
    requires Ascending(s) && x in s
    ensures Ascending(r) && |r| == |s| - 1 && forall y :: y in r <==> y in s && y != x
  {
    var i :| 0 <= i < |s| && s[i] == x;
    r := s[..i] + s[i + 1..];
    assert s == s[..i] + [s[i]] + s[i + 1..];
  }
}
