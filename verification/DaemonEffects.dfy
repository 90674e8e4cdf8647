/**
 What the requests to the daemon bring about (server/Client.cc, server/MetaSnapper.cc, server/Background.cc): which
 snapshots are listed, which configs are there, which comparisons are kept and which tasks are done, in every run.
 */
module DaemonEffects {
  import opened Wrappers
  import opened Daemon

  ghost function NodesOf(s: State, c: string): map<nat, nat>
    requires IsLoaded(s, c)
  {
    s.configs[c].snapper.value.nodes
  }

  /** No comparison, running method or unfinished task holds the config. */
  ghost predicate Unheld(s: State, c: string) {
    forall h | h in Holds(s) :: h.config != c
  }

  lemma {:induction false} ZeroIffUnheld(s: State, c: string)
    requires Inv(s) && c in s.configs
    ensures s.configs[c].count == 0 <==> Unheld(s, c)
  {
    NoUses(Holds(s), c);
  }

  // Snappers

  /** The steps that load, unload or change a Snapper, or create or delete a config. */
  predicate OnSnapper(a: Action) {
    || a.CreateConfig? || a.DeleteConfig? || a.Load? || a.Unload?
    || a.CreateSnapshot? || a.CreatePostSnapshot? || a.DeleteSnapshots?
  }

  /** The same configs with the same Snappers. */
  ghost predicate SameSnappers(a: map<string, Config>, b: map<string, Config>) {
    a.Keys == b.Keys && forall c | c in a :: c in b && a[c].snapper == b[c].snapper
  }

  lemma {:induction false} DecAllSnappers(s: State, holds: seq<Hold>)
    ensures SameSnappers(s.configs, DecAll(s, holds).configs)
    decreases |holds|
  {
    if holds != [] { DecAllSnappers(DecEqual(s, holds[0].snapper), holds[1..]); }
  }

  lemma {:induction false} UseSnappers(s: State, c: string)
    ensures SameSnappers(s.configs, IncUse(s, c).configs) && SameSnappers(s.configs, DecUse(s, c).configs)
  {
    if c in s.configs {
      ReplacedSnappers(s.configs, c, s.configs[c].count + 1);
      ReplacedSnappers(s.configs, c, s.configs[c].count - 1);
    }
  }

  lemma {:induction false} ReplacedSnappers(configs: map<string, Config>, c: string, count: int)
    requires c in configs
    ensures SameSnappers(configs, configs[c := configs[c].(count := count)])
  {
  }

  lemma {:induction false} EndCallSnappers(s: State, name: nat, failed: bool)
    ensures SameSnappers(s.configs, EndCallStep(s, name, failed).configs)
  {
    hide Good, IncUse, DecUse, SameSnappers;
    Self(s.configs);
    var i := IndexOf(s.clients, name);
    if i < |s.clients| && !s.clients[i].call.Idle? {
      var cl := s.clients[i];
      var h := cl.call.hold;
      var used := s.(crashed := s.crashed || !Good(s.configs, h));
      var kept := WithClient(used, name, cl.(comparisons := cl.comparisons + [h], call := Idle));
      UseSnappers(kept, h.config);
      UseSnappers(IncUse(kept, h.config), h.config);
      Chain(s.configs, IncUse(kept, h.config).configs, DecUse(IncUse(kept, h.config), h.config).configs);
      UseSnappers(WithClient(used, name, cl.(call := Idle)), h.config);
    }
  }

  lemma {:induction false} Chain(a: map<string, Config>, b: map<string, Config>, c: map<string, Config>)
    requires SameSnappers(a, b) && SameSnappers(b, c)
    ensures SameSnappers(a, c)
  {
  }

  lemma {:induction false} OtherSnappers(s: State, a: Action)
    requires !OnSnapper(a)
    ensures SameSnappers(s.configs, Step(s, a).configs)
  {
    hide Good, FindNode, DecAll, DecEqual, EndCallStep, SameSnappers;
    Self(s.configs);
    match a
    case RemoveZombie(name) =>
      var i := IndexOf(s.clients, name);
      if i < |s.clients| { DecAllSnappers(Erased(s, i), s.clients[i].comparisons); }
    case EndCall(name, failed) => EndCallSnappers(s, name, failed);
    case DeleteComparison(name, c, num1, num2) => DeleteComparisonSnappers(s, name, c, num1, num2);
    case BeginComparison(name, c, num1, num2) => BeginSnappers(s, name, c, num1, num2);
    case BeginUse(name, c) => BeginSnappers(s, name, c, 0, 0);
    case FinishTask => if s.tasks != [] { FinishSnappers(s); }
    case _ =>
  }

  lemma {:induction false} Self(a: map<string, Config>)
    ensures SameSnappers(a, a)
  {
  }

  lemma {:induction false} BeginSnappers(s: State, name: nat, c: string, num1: nat, num2: nat)
    ensures SameSnappers(s.configs, BeginComparisonStep(s, name, c, num1, num2).configs)
    ensures SameSnappers(s.configs, BeginUseStep(s, name, c).configs)
  {
    hide FindNode;
  }

  lemma {:induction false} FinishSnappers(s: State)
    ensures SameSnappers(s.configs, FinishTaskStep(s).configs)
  {
    hide Good;
  }

  lemma {:induction false} DeleteComparisonSnappers(s: State, name: nat, c: string, num1: nat, num2: nat)
    ensures SameSnappers(s.configs, DeleteComparisonStep(s, name, c, num1, num2).configs)
  {
    hide FindNode;
  }

  // Listed snapshots

  /** In every list of snapshots the numbers are different. */
  ghost predicate AllDistinct(s: State) {
    forall c | IsLoaded(s, c) :: Distinct(NodesOf(s, c))
  }

  lemma {:induction false} StepDistinct(s: State, a: Action)
    requires AllDistinct(s)
    ensures AllDistinct(Step(s, a))
  {
    hide *;
    if !OnSnapper(a) {
      OtherSnappers(s, a);
      SameDistinct(s, Step(s, a));
    } else if a.DeleteSnapshots? {
      DeleteDistinct(s, a);
    } else if a.CreatePostSnapshot? {
      PostDistinct(s, a);
    } else {
      ConfigDistinct(s, a);
    }
  }

  lemma {:induction false} SameDistinct(s: State, r: State)
    requires AllDistinct(s) && SameSnappers(s.configs, r.configs)
    ensures AllDistinct(r)
  {
    hide Distinct;
    forall c | IsLoaded(r, c) ensures Distinct(NodesOf(r, c)) { assert IsLoaded(s, c); }
  }

  lemma {:induction false} PostDistinct(s: State, a: Action)
    requires AllDistinct(s) && a.CreatePostSnapshot?
    ensures AllDistinct(Step(s, a))
  {
    hide AllDistinct, CreatePostStep, CreateSnapshotStep, SameSnappers;
    CreateDistinct(s, a.config, a.num);
    PostSnappers(s, a.config, a.pre, a.num, a.background);
    if Step(s, a) != s { SameDistinct(CreateSnapshotStep(s, a.config, a.num), Step(s, a)); }
  }

  lemma {:induction false} ConfigDistinct(s: State, a: Action)
    requires AllDistinct(s) && OnSnapper(a) && !a.DeleteSnapshots? && !a.CreatePostSnapshot?
    ensures AllDistinct(Step(s, a))
  {
    hide Distinct, LockedByOther, CanCall, Daemon.Bound, CreateSnapshotStep;
    var r := Step(s, a);
    if a.CreateSnapshot? {
      CreateDistinct(s, a.config, a.num);
    } else {
      forall e | IsLoaded(r, e) ensures Distinct(NodesOf(r, e)) {
        assert (IsLoaded(s, e) && NodesOf(r, e) == NodesOf(s, e)) || (a.Load? && NodesOf(r, e) == a.nodes);
      }
    }
  }

  /** Queueing the comparison of a post snapshot with its pre snapshot does not change any list. */
  lemma {:induction false} PostSnappers(s: State, c: string, pre: nat, num: nat, background: bool)
    ensures var r := CreatePostStep(s, c, pre, num, background);
      r == s || SameSnappers(CreateSnapshotStep(s, c, num).configs, r.configs)
  {
    hide CreateSnapshotStep, FindNode, IncUse, SameSnappers;
    if CreatePostStep(s, c, pre, num, background) != s {
      var created, snapper := CreateSnapshotStep(s, c, num), s.configs[c].snapper.value;
      var task := Hold(c, snapper.id, FindNode(snapper.nodes, pre), Some(s.unused));
      Self(created.configs);
      UseSnappers(created.(tasks := created.tasks + [task]), c);
    }
  }

  lemma {:induction false} CreateDistinct(s: State, c: string, num: nat)
    requires AllDistinct(s)
    ensures AllDistinct(CreateSnapshotStep(s, c, num))
  {
    var r := CreateSnapshotStep(s, c, num);
    if r != s {
      assert forall k | k in NodesOf(s, c) :: NodesOf(s, c)[k] != num;
      assert Distinct(NodesOf(r, c));
      assert forall e | IsLoaded(r, e) && e != c :: IsLoaded(s, e) && NodesOf(r, e) == NodesOf(s, e);
    }
  }

  lemma {:induction false} DeleteDistinct(s: State, a: Action)
    requires AllDistinct(s) && a.DeleteSnapshots?
    ensures AllDistinct(Step(s, a))
  {
    hide DeleteNums, Mounted, LockedByOther, CanCall;
    if Step(s, a) != s {
      var c := a.config;
      DeleteNumsShrinks(s.clients, c, NodesOf(s, c), a.nums, a.refused);
      assert Distinct(NodesOf(Step(s, a), c));
      assert forall e | IsLoaded(Step(s, a), e) && e != c :: IsLoaded(s, e) && NodesOf(Step(s, a), e) == NodesOf(s, e);
    }
  }

  lemma {:induction false} RunDistinct(actions: seq<Action>)
    ensures AllDistinct(Run(actions))
  {
    if actions != [] {
      RunDistinct(actions[..|actions| - 1]);
      StepDistinct(Run(actions[..|actions| - 1]), actions[|actions| - 1]);
    }
  }

  ghost predicate Lists(nodes: map<nat, nat>, num: nat) {
    exists k :: k in nodes && nodes[k] == num
  }

  /** A number that stops the deletion: mounted, refused by the library, or not listed after the earlier ones. */
  ghost predicate Stops(clients: seq<Client>, c: string, nodes: map<nat, nat>, nums: seq<nat>, refused: set<nat>,
                        i: nat)
    requires i < |nums|
  {
    Mounted(clients, c, nums[i]) || nums[i] in refused || !Lists(nodes, nums[i]) || nums[i] in nums[..i]
  }

  /** The first number that stops the deletion, or the length if none does. */
  ghost predicate FirstStop(clients: seq<Client>, c: string, nodes: map<nat, nat>, nums: seq<nat>, refused: set<nat>,
                            i: nat) {
    && i <= |nums| && (forall k | 0 <= k < i :: !Stops(clients, c, nodes, nums, refused, k))
    && (i < |nums| ==> Stops(clients, c, nodes, nums, refused, i))
  }

  lemma {:induction false} FirstStopExists(clients: seq<Client>, c: string, nodes: map<nat, nat>, nums: seq<nat>,
                                           refused: set<nat>)
    returns (i: nat)
    ensures FirstStop(clients, c, nodes, nums, refused, i)
  {
    i := 0;
    while i < |nums| && !Stops(clients, c, nodes, nums, refused, i)
      invariant i <= |nums| && forall k | 0 <= k < i :: !Stops(clients, c, nodes, nums, refused, k)
    {
      i := i + 1;
    }
  }

  lemma {:induction false} StopsAfterFirst(clients: seq<Client>, c: string, nodes: map<nat, nat>, nums: seq<nat>,
                                           refused: set<nat>, n: nat, k: nat)
    requires Distinct(nodes) && k + 1 < |nums| && n in nodes && nodes[n] == nums[0]
    ensures Stops(clients, c, nodes - {n}, nums[1..], refused, k) <==> Stops(clients, c, nodes, nums, refused, k + 1)
  {
    assert nums[1..][k] == nums[k + 1];
    assert nums[..k + 1] == [nums[0]] + nums[1..][..k];
    assert Lists(nodes - {n}, nums[k + 1]) <==> Lists(nodes, nums[k + 1]) && nums[k + 1] != nums[0] by {
      if Lists(nodes, nums[k + 1]) && nums[k + 1] != nums[0] {
        var m :| m in nodes && nodes[m] == nums[k + 1];
        assert m in nodes - {n};
      }
    }
  }

  /** Exactly the numbers before the first that stops the deletion go. */
  lemma {:induction false} DeleteNumsExact(clients: seq<Client>, c: string, nodes: map<nat, nat>, nums: seq<nat>,
                                           refused: set<nat>, i: nat)
    requires Distinct(nodes) && FirstStop(clients, c, nodes, nums, refused, i)
    ensures var left := DeleteNums(clients, c, nodes, nums, refused);
      forall n :: n in left <==> n in nodes && nodes[n] !in nums[..i]
  {
    if i == 0 {
      if nums != [] { assert Stops(clients, c, nodes, nums, refused, 0); }
    } else {
      assert !Stops(clients, c, nodes, nums, refused, 0);
      var n := FindNode(nodes, nums[0]).value;
      forall k: nat | k + 1 < |nums|
        ensures Stops(clients, c, nodes - {n}, nums[1..], refused, k) <==>
                Stops(clients, c, nodes, nums, refused, k + 1)
      {
        StopsAfterFirst(clients, c, nodes, nums, refused, n, k);
      }
      DeleteNumsExact(clients, c, nodes - {n}, nums[1..], refused, i - 1);
      assert nums[..i] == [nums[0]] + nums[1..][..i - 1];
    }
  }

  /** A client may delete what belongs to a config: no other live client has locked it and nothing holds it. */
  ghost predicate MayDelete(s: State, name: nat, c: string) {
    CanCall(s, name) && !LockedByOther(s.clients, name, c) && Unheld(s, c)
  }

  /**
   DeleteSnapshots, in any reachable state: if the client may delete at all, the snapshots before the first number that
   stops the deletion go, and only these; otherwise none. Other configs, clients and tasks stay as they are.
   */
  lemma {:induction false} SnapshotsDeleted(actions: seq<Action>, name: nat, c: string, nums: seq<nat>,
                                            refused: set<nat>, i: nat)
    requires IsLoaded(Run(actions), c) && i <= |nums|
    requires FirstStop(Run(actions).clients, c, NodesOf(Run(actions), c), nums, refused, i)
    ensures var s, t := Run(actions), Step(Run(actions), DeleteSnapshots(name, c, nums, refused));
      && IsLoaded(t, c) && t.(configs := s.configs) == s && t.configs.Keys == s.configs.Keys
      && (forall e | e in s.configs && e != c :: t.configs[e] == s.configs[e])
      && (forall num :: Lists(NodesOf(t, c), num) <==>
            Lists(NodesOf(s, c), num) && !(MayDelete(s, name, c) && num in nums[..i]))
  {
    hide Run, DeleteNums, CanCall, LockedByOther, FirstStop, Inv, Unheld, AllDistinct;
    var s := Run(actions);
    RunsAreSafe(actions);
    ZeroIffUnheld(s, c);
    assert Distinct(NodesOf(s, c)) by { RunDistinct(actions); DistinctAt(s, c); }
    var nodes := NodesOf(s, c);
    DeleteNumsExact(s.clients, c, nodes, nums, refused, i);
    DeleteNumsShrinks(s.clients, c, nodes, nums, refused);
    NumbersLeft(nodes, DeleteNums(s.clients, c, nodes, nums, refused), nums[..i]);
  }

  lemma {:induction false} DistinctAt(s: State, c: string)
    requires AllDistinct(s) && IsLoaded(s, c)
    ensures Distinct(NodesOf(s, c))
  {
  }

  lemma {:induction false} NumbersLeft(nodes: map<nat, nat>, left: map<nat, nat>, gone: seq<nat>)
    requires forall n :: n in left <==> n in nodes && nodes[n] !in gone
    requires forall n | n in left :: n in nodes && left[n] == nodes[n]
    ensures forall num :: Lists(left, num) <==> Lists(nodes, num) && num !in gone
  {
    forall num ensures Lists(left, num) <==> Lists(nodes, num) && num !in gone {
      if n :| n in nodes && nodes[n] == num && num !in gone { assert n in left; }
    }
  }

  /** DeleteConfig deletes the config exactly if the client may. */
  lemma {:induction false} ConfigDeleted(actions: seq<Action>, name: nat, c: string)
    requires c in Run(actions).configs
    ensures var s, t := Run(actions), Step(Run(actions), DeleteConfig(name, c));
      t == s.(configs := if MayDelete(s, name, c) then s.configs - {c} else s.configs)
  {
    hide Run, CanCall, LockedByOther, Inv, Unheld;
    RunsAreSafe(actions);
    ZeroIffUnheld(Run(actions), c);
  }

  /** An idle config is unloaded exactly if nothing holds it. */
  lemma {:induction false} ConfigUnloaded(actions: seq<Action>, c: string)
    requires IsLoaded(Run(actions), c)
    ensures var s, t := Run(actions), Step(Run(actions), Unload(c));
      && t.(configs := s.configs) == s && t.configs.Keys == s.configs.Keys
      && (forall e | e in s.configs && e != c :: t.configs[e] == s.configs[e])
      && (IsLoaded(t, c) <==> !Unheld(s, c)) && (IsLoaded(t, c) ==> t == s)
  {
    hide Run, Inv, Unheld;
    RunsAreSafe(actions);
    ZeroIffUnheld(Run(actions), c);
  }

  ghost predicate Listed(s: State, c: string, num: nat) {
    IsLoaded(s, c) && Lists(NodesOf(s, c), num)
  }

  /** Which snapshots are listed after any other request than DeleteSnapshots, in any reachable state. */
  ghost predicate ListedNext(s: State, a: Action, c: string, num: nat) {
    match a
    case Load(e, nodes) =>
      Listed(s, c, num) || (e == c && c in s.configs && !IsLoaded(s, c) && Readable(s, nodes) && Lists(nodes, num))
    case CreateSnapshot(e, n) => Listed(s, c, num) || (e == c && IsLoaded(s, c) && n == num)
    case CreatePostSnapshot(e, pre, n, _) => Listed(s, c, num) || (e == c && Listed(s, c, pre) && n == num)
    case DeleteConfig(name, e) => Listed(s, c, num) && !(e == c && MayDelete(s, name, c))
    case Unload(e) => Listed(s, c, num) && !(e == c && Unheld(s, c))
    case _ => Listed(s, c, num)
  }

  lemma {:induction false} CreateLists(s: State, e: string, n: nat, c: string, num: nat)
    requires Inv(s)
    ensures Listed(CreateSnapshotStep(s, e, n), c, num) <==>
            Listed(s, c, num) || (e == c && IsLoaded(s, c) && n == num)
  {
    if IsLoaded(s, e) && FindNode(NodesOf(s, e), n).None? {
      var nodes := NodesOf(s, e);
      assert Addressed(s.configs, s.unused);
      assert s.unused !in nodes;
      var more := nodes[s.unused := n];
      assert s.unused in more && more[s.unused] == n;
      assert Lists(more, num) <==> Lists(nodes, num) || n == num by {
        if k :| k in nodes && nodes[k] == num { assert k in more && more[k] == num; }
      }
    }
  }

  lemma {:induction false} PostLists(s: State, a: Action, c: string, num: nat)
    requires Inv(s) && a.CreatePostSnapshot?
    ensures Listed(Step(s, a), c, num) <==> ListedNext(s, a, c, num)
  {
    CreateLists(s, a.config, a.num, c, num);
    if IsLoaded(s, a.config) {
      Found(NodesOf(s, a.config), a.pre);
      Found(NodesOf(s, a.config), a.num);
    }
    hide CreateSnapshotStep, FindNode, Lists, Inv;
    PostSnappers(s, a.config, a.pre, a.num, a.background);
  }

  lemma {:induction false} ConfigLists(s: State, a: Action, c: string, num: nat)
    requires Inv(s) && (a.CreateConfig? || a.DeleteConfig? || a.Load? || a.Unload?)
    ensures Listed(Step(s, a), c, num) <==> ListedNext(s, a, c, num)
  {
    hide Lists, Inv, Unheld, CanCall, LockedByOther, Daemon.Bound, Readable, MayDelete;
    match a
    case DeleteConfig(name, e) => DeleteConfigLists(s, name, e, c, num);
    case Unload(e) => UnloadLists(s, e, c, num);
    case _ =>
  }

  lemma {:induction false} DeleteConfigLists(s: State, name: nat, e: string, c: string, num: nat)
    requires Inv(s)
    ensures Listed(DeleteConfigStep(s, name, e), c, num) <==> Listed(s, c, num) && !(e == c && MayDelete(s, name, c))
  {
    hide Lists, Inv, Unheld, CanCall, LockedByOther;
    if c in s.configs { ZeroIffUnheld(s, c); }
  }

  lemma {:induction false} UnloadLists(s: State, e: string, c: string, num: nat)
    requires Inv(s)
    ensures Listed(UnloadStep(s, e), c, num) <==> Listed(s, c, num) && !(e == c && Unheld(s, c))
  {
    hide Lists, Inv, Unheld;
    if c in s.configs { ZeroIffUnheld(s, c); }
  }

  lemma {:induction false} RequestsList(actions: seq<Action>, a: Action, c: string, num: nat)
    requires !a.DeleteSnapshots?
    ensures Listed(Step(Run(actions), a), c, num) <==> ListedNext(Run(actions), a, c, num)
  {
    hide Run, Step, Inv, Lists, Unheld, MayDelete, Readable;
    var s := Run(actions);
    RunsAreSafe(actions);
    if !OnSnapper(a) {
      OtherSnappers(s, a);
    } else if a.CreateSnapshot? {
      StepIsCreate(s, a);
      CreateLists(s, a.config, a.num, c, num);
    } else if a.CreatePostSnapshot? {
      PostLists(s, a, c, num);
    } else {
      ConfigLists(s, a, c, num);
    }
  }

  // What is held stays

  /** The config has the same Snapper, and its list has lost nothing. */
  ghost predicate Kept(s: State, t: State, c: string) {
    && IsLoaded(s, c) && IsLoaded(t, c) && t.configs[c].snapper.value.id == s.configs[c].snapper.value.id
    && forall k | k in NodesOf(s, c) :: k in NodesOf(t, c) && NodesOf(t, c)[k] == NodesOf(s, c)[k]
  }

  lemma {:induction false} SameKept(s: State, t: State, c: string)
    requires IsLoaded(s, c) && SameSnappers(s.configs, t.configs)
    ensures Kept(s, t, c)
  {
  }

  lemma {:induction false} CreatedKept(s: State, c: string, e: string, num: nat)
    requires Inv(s) && IsLoaded(s, c)
    ensures Kept(s, CreateSnapshotStep(s, e, num), c)
  {
    hide FindNode;
    var r := CreateSnapshotStep(s, e, num);
    if r != s {
      assert s.unused !in NodesOf(s, c) by { assert Addressed(s.configs, s.unused); }
      assert e == c ==> NodesOf(r, c) == NodesOf(s, c)[s.unused := num];
      assert e != c ==> r.configs[c] == s.configs[c];
    }
  }

  lemma {:induction false} PostKept(s: State, c: string, a: Action)
    requires Inv(s) && IsLoaded(s, c) && a.CreatePostSnapshot?
    ensures Kept(s, Step(s, a), c)
  {
    hide CreatePostStep, CreateSnapshotStep, Inv;
    CreatedKept(s, c, a.config, a.num);
    PostSnappers(s, a.config, a.pre, a.num, a.background);
    if Step(s, a) != s { SameKept(CreateSnapshotStep(s, a.config, a.num), Step(s, a), c); }
  }

  lemma {:induction false} ConfigKept(s: State, c: string, a: Action)
    requires Inv(s) && IsLoaded(s, c) && s.configs[c].count > 0
    requires OnSnapper(a) && !a.CreateSnapshot? && !a.CreatePostSnapshot?
    ensures Kept(s, Step(s, a), c)
  {
    hide LockedByOther, CanCall, Daemon.Bound, DeleteNums, FindNode, Inv, Readable;
  }

  /** While something holds a config its Snapper stays loaded and all its snapshots stay listed. */
  lemma {:induction false} HeldStays(s: State, c: string, a: Action)
    requires Inv(s) && IsLoaded(s, c) && !Unheld(s, c)
    ensures Kept(s, Step(s, a), c)
  {
    hide *;
    assert s.configs[c].count > 0 by { HeldCount(s, c); }
    if !OnSnapper(a) {
      OtherSnappers(s, a);
      SameKept(s, Step(s, a), c);
    } else if a.CreateSnapshot? {
      CreatedKept(s, c, a.config, a.num);
      StepIsCreate(s, a);
    } else if a.CreatePostSnapshot? {
      PostKept(s, c, a);
    } else {
      ConfigKept(s, c, a);
    }
  }

  lemma {:induction false} StepIsCreate(s: State, a: Action)
    requires a.CreateSnapshot?
    ensures Step(s, a) == CreateSnapshotStep(s, a.config, a.num)
  {
  }

  lemma {:induction false} HeldCount(s: State, c: string)
    requires Inv(s) && IsLoaded(s, c) && !Unheld(s, c)
    ensures c in s.configs && s.configs[c].count > 0
  {
    ZeroIffUnheld(s, c);
    assert Counted(s.configs, Holds(s));
  }

  // Clients

  ghost predicate SameNames(a: seq<Client>, b: seq<Client>) {
    |a| == |b| && forall i | 0 <= i < |a| :: a[i].name == b[i].name
  }

  lemma {:induction false} SameConnected(s: State, t: State, name: nat)
    requires SameNames(s.clients, t.clients)
    ensures Connected(s, name) <==> Connected(t, name)
  {
    var i, j := IndexOf(s.clients, name), IndexOf(t.clients, name);
    if i < |s.clients| { assert t.clients[i].name == name; }
    if j < |t.clients| { assert s.clients[j].name == name; }
  }

  lemma {:induction false} RecordsSameNames(s: State, a: Action)
    requires a.LockConfig? || a.UnlockConfig? || a.MountSnapshot? || a.UmountSnapshot?
    ensures SameNames(s.clients, Step(s, a).clients)
  {
    hide FindNode, Increment, Decrement;
  }

  lemma {:induction false} RemovedConnected(s: State, who: nat, name: nat)
    requires Named(s.clients)
    ensures Connected(RemoveStep(s, who), name) <==>
            Connected(s, name) && !(who == name && CanCall(s, name) && ClientOf(s, name).zombie)
  {
    hide Named, DecAll, MountLost;
    var i := IndexOf(s.clients, who);
    if i < |s.clients| {
      DecAllClients(Erased(s, i), s.clients[i].comparisons);
      IndexAfterErase(s.clients, i, name);
    }
  }

  /** Clients come with their first message, and go when they have disconnected and no method of theirs runs. */
  lemma {:induction false} ClientsComeAndGo(actions: seq<Action>, a: Action, name: nat)
    ensures var s := Run(actions); Connected(Step(s, a), name) <==>
      a == Connect(name)
      || (Connected(s, name) && !(a == RemoveZombie(name) && CanCall(s, name) && ClientOf(s, name).zombie))
  {
    hide Run, Named, RemoveStep, SameNames;
    var s := Run(actions);
    RecordsAreCalls(actions, name, Locked(""));
    match a
    case Connect(who) => IndexAfterAppend(s.clients, Client(who, false, [], map[], map[], Idle), name);
    case RemoveZombie(who) => RemovedConnected(s, who, name);
    case _ =>
      hide Step, Connected;
      if Quiet(a) { QuietNames(s, a); } else { RecordsSameNames(s, a); }
      SameConnected(s, Step(s, a), name);
  }

  lemma {:induction false} QuietNames(s: State, a: Action)
    requires Quiet(a)
    ensures SameNames(s.clients, Step(s, a).clients)
  {
    hide Step;
    QuietStep(s, a);
  }

  // Comparisons

  ghost predicate Busy(s: State, name: nat) {
    Connected(s, name) && !ClientOf(s, name).call.Idle?
  }

  /** The client is still in the same method and has the same comparisons. */
  ghost predicate StillBusy(before: seq<Client>, now: seq<Client>, name: nat) {
    var i, j := IndexOf(before, name), IndexOf(now, name);
    i < |before| && j < |now| && now[j].call == before[i].call && now[j].comparisons == before[i].comparisons
  }

  lemma {:induction false} OtherReplaced(clients: seq<Client>, who: nat, cl: Client, name: nat)
    requires IndexOf(clients, who) < |clients| && cl.name == who && IndexOf(clients, name) < |clients|
    requires who == name ==> var was := clients[IndexOf(clients, name)];
                             cl.call == was.call && cl.comparisons == was.comparisons
    ensures StillBusy(clients, clients[IndexOf(clients, who) := cl], name)
  {
    IndexAfterReplace(clients, IndexOf(clients, who), cl, name);
  }

  lemma {:induction false} SameBusy(clients: seq<Client>, name: nat)
    requires IndexOf(clients, name) < |clients|
    ensures StillBusy(clients, clients, name)
  {
  }

  /** Locking and mounting change the records of a client, and nothing else of it. */
  lemma {:induction false} RecordStep(s: State, a: Action) returns (cl: Client)
    requires a.LockConfig? || a.UnlockConfig? || a.MountSnapshot? || a.UmountSnapshot?
    ensures Step(s, a).clients != s.clients ==>
      && CanCall(s, a.client) && var was := ClientOf(s, a.client);
      && cl.name == was.name && cl.call == was.call && cl.comparisons == was.comparisons
      && Step(s, a).clients == s.clients[IndexOf(s.clients, a.client) := cl]
  {
    hide FindNode, Increment, Decrement;
    cl := Client(a.client, false, [], map[], map[], Idle);
    if Connected(s, a.client) {
      var was := ClientOf(s, a.client);
      cl := match a
        case LockConfig(_, c) => was.(locks := Increment(was.locks, c))
        case UnlockConfig(_, c) => was.(locks := Decrement(was.locks, c))
        case MountSnapshot(_, c, num) => was.(mounts := Increment(was.mounts, (c, num)))
        case UmountSnapshot(_, c, num) => was.(mounts := Decrement(was.mounts, (c, num)));
    }
  }

  lemma {:induction false} LoudBusy(s: State, a: Action, name: nat)
    requires Named(s.clients) && Busy(s, name) && !Quiet(a)
    ensures StillBusy(s.clients, Step(s, a).clients, name)
  {
    hide Named, StillBusy, RemoveStep;
    SameBusy(s.clients, name);
    if a.Connect? {
      if !Connected(s, a.client) { ConnectBusy(s, a.client, name); }
    } else if a.RemoveZombie? {
      RemoveBusy(s, a.client, name);
    } else {
      hide Step;
      var cl := RecordStep(s, a);
      if Step(s, a).clients != s.clients { OtherReplaced(s.clients, a.client, cl, name); }
    }
  }

  lemma {:induction false} ConnectBusy(s: State, who: nat, name: nat)
    requires Busy(s, name) && !Connected(s, who)
    ensures StillBusy(s.clients, ConnectStep(s, who).clients, name)
  {
    IndexAfterAppend(s.clients, Client(who, false, [], map[], map[], Idle), name);
  }

  lemma {:induction false} RemoveBusy(s: State, who: nat, name: nat)
    requires Named(s.clients) && Busy(s, name)
    ensures StillBusy(s.clients, RemoveStep(s, who).clients, name)
  {
    hide DecAll, MountLost, Named;
    if CanCall(s, who) && ClientOf(s, who).zombie {
      var i := IndexOf(s.clients, who);
      DecAllClients(Erased(s, i), s.clients[i].comparisons);
      IndexAfterErase(s.clients, i, name);
    }
  }

  lemma {:induction false} ClientBusy(s: State, a: Action, name: nat)
    requires Busy(s, name) && ForClient(a) && !(a.EndCall? && a.client == name)
    ensures StillBusy(s.clients, Step(s, a).clients, name)
  {
    hide FindNode, StillBusy, Good, IncUse, DecUse, DecEqual;
    SameBusy(s.clients, name);
    if Connected(s, a.client) {
      var who, cl := a.client, ClientOf(s, a.client);
      match a
      case Disconnect(_) => OtherReplaced(s.clients, who, cl.(zombie := true), name);
      case BeginComparison(_, c, num1, num2) => BeginBusy(s, a, name);
      case BeginUse(_, c) => BeginBusy(s, a, name);
      case EndCall(_, failed) => EndCallBusy(s, who, failed, name);
      case DeleteComparison(_, c, num1, num2) => DeleteComparisonBusy(s, a, name);
    }
  }

  lemma {:induction false} BeginBusy(s: State, a: Action, name: nat)
    requires Busy(s, name) && (a.BeginComparison? || a.BeginUse?)
    ensures StillBusy(s.clients, Step(s, a).clients, name)
  {
    hide FindNode, StillBusy, IncUse;
    SameBusy(s.clients, name);
    var who, c := a.client, a.config;
    if CanCall(s, who) && IsLoaded(s, c) {
      var snapper := s.configs[c].snapper.value;
      var call := if a.BeginUse? then Using(Hold(c, snapper.id, None, None))
                  else Comparing(Hold(c, snapper.id, FindNode(snapper.nodes, a.num1), FindNode(snapper.nodes, a.num2)));
      UsesLeaveClients(WithClient(s, who, ClientOf(s, who).(call := call)), c);
      OtherReplaced(s.clients, who, ClientOf(s, who).(call := call), name);
    }
  }

  lemma {:induction false} EndCallBusy(s: State, who: nat, failed: bool, name: nat)
    requires Busy(s, name) && who != name
    ensures StillBusy(s.clients, EndCallStep(s, who, failed).clients, name)
  {
    hide StillBusy, Good, IncUse, DecUse;
    SameBusy(s.clients, name);
    var i := IndexOf(s.clients, who);
    if i < |s.clients| && !s.clients[i].call.Idle? {
      var cl := s.clients[i];
      var h := cl.call.hold;
      var used := s.(crashed := s.crashed || !Good(s.configs, h));
      var given, kept := cl.(call := Idle), cl.(comparisons := cl.comparisons + [h], call := Idle);
      OtherReplaced(s.clients, who, given, name);
      OtherReplaced(s.clients, who, kept, name);
      UsesLeaveClients(WithClient(used, who, kept), h.config);
      UsesLeaveClients(IncUse(WithClient(used, who, kept), h.config), h.config);
      UsesLeaveClients(WithClient(used, who, given), h.config);
    }
  }

  lemma {:induction false} DeleteComparisonBusy(s: State, a: Action, name: nat)
    requires Busy(s, name) && a.DeleteComparison?
    ensures StillBusy(s.clients, Step(s, a).clients, name)
  {
    hide StillBusy, FindNode, DecEqual;
    SameBusy(s.clients, name);
    if CanCall(s, a.client) && IsLoaded(s, a.config) {
      var snapper, cl := s.configs[a.config].snapper.value, ClientOf(s, a.client);
      var k := IndexOfComparison(cl.comparisons, snapper.id, FindNode(snapper.nodes, a.num1),
                                 FindNode(snapper.nodes, a.num2));
      if k < |cl.comparisons| {
        var left := cl.(comparisons := cl.comparisons[..k] + cl.comparisons[k + 1..]);
        OtherReplaced(s.clients, a.client, left, name);
        DecEqualClients(WithClient(s, a.client, left), snapper.id);
      }
    }
  }

  /** A method that runs without the mutex is not touched by the steps of others. */
  lemma {:induction false} BusyStays(s: State, a: Action, name: nat)
    requires Named(s.clients) && Busy(s, name) && !(a.EndCall? && a.client == name)
    ensures StillBusy(s.clients, Step(s, a).clients, name)
  {
    hide *;
    if !Quiet(a) {
      LoudBusy(s, a, name);
    } else if ForClient(a) {
      ClientBusy(s, a, name);
    } else {
      ConfigStep(s, a);
      ConnectedBusy(s, name);
      SameBusy(s.clients, name);
    }
  }

  lemma {:induction false} ConnectedBusy(s: State, name: nat)
    requires Busy(s, name)
    ensures IndexOf(s.clients, name) < |s.clients|
  {
  }

  lemma {:induction false} CallIsHeld(s: State, name: nat)
    requires Busy(s, name)
    ensures ClientOf(s, name).call.hold in Holds(s)
  {
    var i := IndexOf(s.clients, name);
    HoldsAround(s, i);
    assert ClientOf(s, name).call.hold in HoldsOf(s.clients[i]);
  }

  /** A comparison is being made: the method holds h, and what it began with in state s is still there. */
  ghost predicate Making(s: State, t: State, name: nat, comparisons: seq<Hold>, h: Hold) {
    && Busy(t, name) && ClientOf(t, name).call == Comparing(h) && ClientOf(t, name).comparisons == comparisons
    && Kept(s, t, h.config)
  }

  lemma {:induction false} MakingOn(s: State, t: State, name: nat, comparisons: seq<Hold>, h: Hold, a: Action)
    requires Inv(t) && Named(t.clients) && Making(s, t, name, comparisons, h) && !(a.EndCall? && a.client == name)
    ensures Making(s, Step(t, a), name, comparisons, h)
  {
    hide Step, Inv, Named, IndexOf, Holds;
    BusyStays(t, a, name);
    CallIsHeld(t, name);
    HeldStays(t, h.config, a);
  }

  lemma {:induction false} Began(s: State, name: nat, c: string, num1: nat, num2: nat)
    requires CanCall(s, name) && IsLoaded(s, c)
    ensures var nodes := NodesOf(s, c);
      Making(s, Step(s, BeginComparison(name, c, num1, num2)), name, ClientOf(s, name).comparisons,
             Hold(c, s.configs[c].snapper.value.id, FindNode(nodes, num1), FindNode(nodes, num2)))
  {
    hide FindNode, IncUse, SameSnappers, Kept;
    var snapper, cl := s.configs[c].snapper.value, ClientOf(s, name);
    var call := Comparing(Hold(c, snapper.id, FindNode(snapper.nodes, num1), FindNode(snapper.nodes, num2)));
    var begun := WithClient(s, name, cl.(call := call));
    IndexAfterReplace(s.clients, IndexOf(s.clients, name), cl.(call := call), name);
    UsesLeaveClients(begun, c);
    BeginSnappers(s, name, c, num1, num2);
    SameKept(s, Step(s, BeginComparison(name, c, num1, num2)), c);
  }

  /** Any other method that gives the mutex back holds its config while it runs. */
  lemma {:induction false} UseIsHeld(s: State, name: nat, c: string)
    requires CanCall(s, name) && IsLoaded(s, c)
    ensures var t := Step(s, BeginUse(name, c));
      Busy(t, name) && ClientOf(t, name).call.hold.config == c && !Unheld(t, c)
  {
    hide IncUse;
    var cl := ClientOf(s, name);
    var call := Using(Hold(c, s.configs[c].snapper.value.id, None, None));
    IndexAfterReplace(s.clients, IndexOf(s.clients, name), cl.(call := call), name);
    UsesLeaveClients(WithClient(s, name, cl.(call := call)), c);
    CallIsHeld(Step(s, BeginUse(name, c)), name);
  }

  lemma {:induction false} StillMaking(actions: seq<Action>, between: seq<Action>, name: nat, c: string, num1: nat,
                                       num2: nat)
    requires CanCall(Run(actions), name) && IsLoaded(Run(actions), c)
    requires forall a | a in between :: !(a.EndCall? && a.client == name)
    ensures var s := Run(actions);
      Making(s, Run(actions + [BeginComparison(name, c, num1, num2)] + between), name, ClientOf(s, name).comparisons,
             Hold(c, s.configs[c].snapper.value.id, FindNode(NodesOf(s, c), num1), FindNode(NodesOf(s, c), num2)))
    decreases |between|
  {
    hide Run, FindNode, Making, Step;
    var begun := actions + [BeginComparison(name, c, num1, num2)];
    if between == [] {
      assert begun + between == begun;
      RunOn(actions, BeginComparison(name, c, num1, num2));
      Began(Run(actions), name, c, num1, num2);
    } else {
      var n := |between| - 1;
      var past := begun + between[..n];
      StillMaking(actions, between[..n], name, c, num1, num2);
      assert begun + between == past + [between[n]];
      RunOn(past, between[n]);
      RunsAreSafe(past);
      RecordsAreCalls(past, name, Locked(c));
      var s := Run(actions);
      MakingOn(s, Run(past), name, ClientOf(s, name).comparisons,
               Hold(c, s.configs[c].snapper.value.id, FindNode(NodesOf(s, c), num1), FindNode(NodesOf(s, c), num2)),
               between[n]);
    }
  }

  lemma {:induction false} Ended(t: State, name: nat, h: Hold, failed: bool)
    requires Busy(t, name) && ClientOf(t, name).call == Comparing(h)
    ensures var r := Step(t, EndCall(name, failed));
      && Connected(r, name) && ClientOf(r, name).call.Idle?
      && ClientOf(r, name).comparisons == ClientOf(t, name).comparisons +
           (if h.snap1.Some? && h.snap2.Some? && h.snap1 != h.snap2 && !failed then [h] else [])
  {
    hide Good, IncUse, DecUse, WithClient;
    var cl := ClientOf(t, name);
    var used := t.(crashed := t.crashed || !Good(t.configs, h));
    if h.snap1.Some? && h.snap2.Some? && h.snap1 != h.snap2 && !failed {
      var kept := WithClient(used, name, cl.(comparisons := cl.comparisons + [h], call := Idle));
      assert Step(t, EndCall(name, failed)) == DecUse(IncUse(kept, h.config), h.config);
      hide Step, EndCallStep;
      ReplacedIs(used, name, cl.(comparisons := cl.comparisons + [h], call := Idle));
      UsesLeaveClients(kept, h.config);
      UsesLeaveClients(IncUse(kept, h.config), h.config);
    } else {
      var given := WithClient(used, name, cl.(call := Idle));
      assert Step(t, EndCall(name, failed)) == DecUse(given, h.config);
      hide Step, EndCallStep;
      ReplacedIs(used, name, cl.(call := Idle));
      UsesLeaveClients(given, h.config);
    }
  }

  lemma {:induction false} ReplacedIs(s: State, name: nat, cl: Client)
    requires Connected(s, name) && cl.name == name
    ensures Connected(WithClient(s, name, cl), name) && ClientOf(WithClient(s, name, cl), name) == cl
  {
    IndexAfterReplace(s.clients, IndexOf(s.clients, name), cl, name);
  }

  lemma {:induction false} Found(nodes: map<nat, nat>, num: nat)
    ensures FindNode(nodes, num).Some? <==> Lists(nodes, num)
    ensures FindNode(nodes, num).Some? ==>
              FindNode(nodes, num).value in nodes && nodes[FindNode(nodes, num).value] == num
  {
  }

  /**
   CreateComparison gives the mutex back while it compares. Whatever happens in between, in the end the client has a new
   comparison of the two snapshots with these numbers, which are still listed, exactly if both were listed, they are
   not the same, and the comparing did not fail; otherwise it has the comparisons it had.
   */
  lemma {:induction false} ComparisonMade(actions: seq<Action>, between: seq<Action>, name: nat, c: string, num1: nat,
                                          num2: nat, failed: bool)
    returns (h: Hold)
    requires CanCall(Run(actions), name) && IsLoaded(Run(actions), c)
    requires forall a | a in between :: !(a.EndCall? && a.client == name)
    ensures var s := Run(actions);
      var t := Run(actions + [BeginComparison(name, c, num1, num2)] + between + [EndCall(name, failed)]);
      var made := Lists(NodesOf(s, c), num1) && Lists(NodesOf(s, c), num2) && num1 != num2 && !failed;
      && Connected(t, name) && ClientOf(t, name).call.Idle? && Kept(s, t, c)
      && ClientOf(t, name).comparisons == ClientOf(s, name).comparisons + (if made then [h] else [])
      && (made ==> Compares(t, h, c, num1, num2))
  {
    hide Run, FindNode, CanCall, IndexOf, Step, Kept, Lists;
    var s, nodes := Run(actions), NodesOf(Run(actions), c);
    h := Hold(c, s.configs[c].snapper.value.id, FindNode(nodes, num1), FindNode(nodes, num2));
    var past := actions + [BeginComparison(name, c, num1, num2)] + between;
    StillMaking(actions, between, name, c, num1, num2);
    RunOn(past, EndCall(name, failed));
    var t := Run(past);
    Ended(t, name, h, failed);
    Found(nodes, num1);
    Found(nodes, num2);
    OtherSnappers(t, EndCall(name, failed));
    KeptOn(s, t, Step(t, EndCall(name, failed)), c);
    if Lists(nodes, num1) && Lists(nodes, num2) {
      KeptNodes(s, Step(t, EndCall(name, failed)), c, h.snap1.value);
      KeptNodes(s, Step(t, EndCall(name, failed)), c, h.snap2.value);
    }
  }

  lemma {:induction false} KeptOn(s: State, t: State, r: State, c: string)
    requires Kept(s, t, c) && SameSnappers(t.configs, r.configs)
    ensures Kept(s, r, c)
  {
  }

  lemma {:induction false} KeptNodes(s: State, t: State, c: string, k: nat)
    requires Kept(s, t, c) && k in NodesOf(s, c)
    ensures IsLoaded(s, c) && IsLoaded(t, c) && k in NodesOf(t, c) && NodesOf(t, c)[k] == NodesOf(s, c)[k]
    ensures t.configs[c].snapper.value.id == s.configs[c].snapper.value.id
  {
  }

  /** A comparison of the snapshots of a loaded config that have these numbers. */
  ghost predicate Compares(s: State, h: Hold, c: string, num1: nat, num2: nat) {
    && h.config == c && IsLoaded(s, c) && h.snapper == s.configs[c].snapper.value.id
    && h.snap1.Some? && h.snap1.value in NodesOf(s, c) && NodesOf(s, c)[h.snap1.value] == num1
    && h.snap2.Some? && h.snap2.value in NodesOf(s, c) && NodesOf(s, c)[h.snap2.value] == num2
  }

  lemma {:induction false} CompareIs(actions: seq<Action>, name: nat, c: string, num1: nat, num2: nat, h: Hold)
    requires Connected(Run(actions), name) && h in ClientOf(Run(actions), name).comparisons && IsLoaded(Run(actions), c)
    ensures var s := Run(actions); var nodes := NodesOf(s, c);
      Compares(s, h, c, num1, num2) <==>
        && h.snapper == s.configs[c].snapper.value.id && FindNode(nodes, num1).Some? && FindNode(nodes, num2).Some?
        && h.snap1 == FindNode(nodes, num1) && h.snap2 == FindNode(nodes, num2)
  {
    hide Run, IndexOf, FindNode, Lists;
    var s := Run(actions);
    RunsAreSafe(actions);
    ComparisonIsHeld(s, name, h);
    GoodHold(s, h, c);
    assert Distinct(NodesOf(s, c)) by { RunDistinct(actions); DistinctAt(s, c); }
    OnlyNode(NodesOf(s, c), num1);
    OnlyNode(NodesOf(s, c), num2);
  }

  lemma {:induction false} OnlyNode(nodes: map<nat, nat>, num: nat)
    requires Distinct(nodes)
    ensures forall k :: FindNode(nodes, num) == Some(k) <==> k in nodes && nodes[k] == num
  {
    Found(nodes, num);
    forall k | k in nodes && nodes[k] == num ensures FindNode(nodes, num) == Some(k) { assert Lists(nodes, num); }
  }

  lemma {:induction false} ComparisonIsHeld(s: State, name: nat, h: Hold)
    requires Connected(s, name) && h in ClientOf(s, name).comparisons
    ensures h in Holds(s)
  {
    var i := IndexOf(s.clients, name);
    HoldsAround(s, i);
    assert h in HoldsOf(s.clients[i]);
  }

  lemma {:induction false} GoodHold(s: State, h: Hold, c: string)
    requires Inv(s) && h in Holds(s) && IsLoaded(s, c)
    ensures h.snapper == s.configs[c].snapper.value.id <==> h.config == c
    ensures h.config == c && h.snap1.Some? ==> h.snap1.value in NodesOf(s, c)
    ensures h.config == c && h.snap2.Some? ==> h.snap2.value in NodesOf(s, c)
  {
    assert Good(s.configs, h) && Addressed(s.configs, s.unused);
    if h.config in s.configs { assert IsEqual(s.configs[h.config], h.snapper); }
  }

  /** All comparisons of all clients have both snapshots. */
  ghost predicate BothThere(clients: seq<Client>) {
    forall i, k | 0 <= i < |clients| && 0 <= k < |clients[i].comparisons| ::
      var h := clients[i].comparisons[k]; h.snap1.Some? && h.snap2.Some?
  }

  lemma {:induction false} BothReplaced(clients: seq<Client>, i: nat, cl: Client)
    requires BothThere(clients) && i < |clients|
    requires forall h | h in cl.comparisons :: h in clients[i].comparisons || (h.snap1.Some? && h.snap2.Some?)
    ensures BothThere(clients[i := cl])
  {
  }

  lemma {:induction false} BothErased(clients: seq<Client>, i: nat)
    requires BothThere(clients) && i < |clients|
    ensures BothThere(clients[..i] + clients[i + 1..])
  {
    var r := clients[..i] + clients[i + 1..];
    assert forall j | 0 <= j < |r| :: r[j] == if j < i then clients[j] else clients[j + 1];
  }

  lemma {:induction false} BothAppended(clients: seq<Client>, name: nat)
    requires BothThere(clients)
    ensures BothThere(clients + [Client(name, false, [], map[], map[], Idle)])
  {
  }

  lemma {:induction false} LoudBoth(s: State, a: Action)
    requires BothThere(s.clients) && !Quiet(a)
    ensures BothThere(Step(s, a).clients)
  {
    hide DecAll, MountLost, BothThere;
    var i := IndexOf(s.clients, a.client);
    if a.Connect? {
      BothAppended(s.clients, a.client);
    } else if a.RemoveZombie? {
      if i < |s.clients| {
        DecAllClients(Erased(s, i), s.clients[i].comparisons);
        BothErased(s.clients, i);
      }
    } else {
      hide Step;
      var cl := RecordStep(s, a);
      if Step(s, a).clients != s.clients { BothReplaced(s.clients, i, cl); }
    }
  }

  lemma {:induction false} ClientBoth(s: State, a: Action)
    requires BothThere(s.clients) && ForClient(a)
    ensures BothThere(Step(s, a).clients)
  {
    hide FindNode, BothThere, Good, IncUse, DecUse, DecEqual;
    if Connected(s, a.client) {
      var i, cl := IndexOf(s.clients, a.client), ClientOf(s, a.client);
      match a
      case Disconnect(_) => BothReplaced(s.clients, i, cl.(zombie := true));
      case BeginComparison(_, c, num1, num2) => BeginBoth(s, a);
      case BeginUse(_, c) => BeginBoth(s, a);
      case EndCall(who, failed) => EndCallBoth(s, who, failed);
      case DeleteComparison(_, c, num1, num2) => DeleteBoth(s, a);
    }
  }

  lemma {:induction false} BeginBoth(s: State, a: Action)
    requires BothThere(s.clients) && (a.BeginComparison? || a.BeginUse?)
    ensures BothThere(Step(s, a).clients)
  {
    hide FindNode, BothThere, IncUse;
    var who, c := a.client, a.config;
    if CanCall(s, who) && IsLoaded(s, c) {
      var snapper := s.configs[c].snapper.value;
      var call := if a.BeginUse? then Using(Hold(c, snapper.id, None, None))
                  else Comparing(Hold(c, snapper.id, FindNode(snapper.nodes, a.num1), FindNode(snapper.nodes, a.num2)));
      UsesLeaveClients(WithClient(s, who, ClientOf(s, who).(call := call)), c);
      BothReplaced(s.clients, IndexOf(s.clients, who), ClientOf(s, who).(call := call));
    }
  }

  lemma {:induction false} EndCallBoth(s: State, who: nat, failed: bool)
    requires BothThere(s.clients)
    ensures BothThere(EndCallStep(s, who, failed).clients)
  {
    hide BothThere, Good, IncUse, DecUse;
    var i := IndexOf(s.clients, who);
    if i < |s.clients| && !s.clients[i].call.Idle? {
      var cl := s.clients[i];
      var h := cl.call.hold;
      var used := s.(crashed := s.crashed || !Good(s.configs, h));
      var given, kept := cl.(call := Idle), cl.(comparisons := cl.comparisons + [h], call := Idle);
      BothReplaced(s.clients, i, given);
      if h.snap1.Some? && h.snap2.Some? { BothReplaced(s.clients, i, kept); }
      UsesLeaveClients(WithClient(used, who, kept), h.config);
      UsesLeaveClients(IncUse(WithClient(used, who, kept), h.config), h.config);
      UsesLeaveClients(WithClient(used, who, given), h.config);
    }
  }

  lemma {:induction false} DeleteBoth(s: State, a: Action)
    requires BothThere(s.clients) && a.DeleteComparison?
    ensures BothThere(Step(s, a).clients)
  {
    hide BothThere, FindNode, DecEqual;
    if CanCall(s, a.client) && IsLoaded(s, a.config) {
      var snapper, cl := s.configs[a.config].snapper.value, ClientOf(s, a.client);
      var k := IndexOfComparison(cl.comparisons, snapper.id, FindNode(snapper.nodes, a.num1),
                                 FindNode(snapper.nodes, a.num2));
      if k < |cl.comparisons| {
        var left := cl.(comparisons := cl.comparisons[..k] + cl.comparisons[k + 1..]);
        BothReplaced(s.clients, IndexOf(s.clients, a.client), left);
        DecEqualClients(WithClient(s, a.client, left), snapper.id);
      }
    }
  }

  lemma {:induction false} RunBoth(actions: seq<Action>)
    ensures BothThere(Run(actions).clients)
  {
    if actions != [] {
      var past, a := actions[..|actions| - 1], actions[|actions| - 1];
      RunBoth(past);
      assert Run(actions) == Step(Run(past), a);
      hide *;
      if !Quiet(a) {
        LoudBoth(Run(past), a);
      } else if ForClient(a) {
        ClientBoth(Run(past), a);
      } else {
        ConfigStep(Run(past), a);
      }
    }
  }

  lemma {:induction false} BothAt(s: State, name: nat, h: Hold)
    requires BothThere(s.clients) && Connected(s, name) && h in ClientOf(s, name).comparisons
    ensures h.snap1.Some? && h.snap2.Some?
  {
    var i := IndexOf(s.clients, name);
    var k :| 0 <= k < |s.clients[i].comparisons| && s.clients[i].comparisons[k] == h;
  }

  /** What DeleteComparison looks for is a comparison of these two snapshots. */
  ghost predicate Sought(s: State, h: Hold, c: string, num1: nat, num2: nat)
    requires IsLoaded(s, c)
  {
    && h.snapper == s.configs[c].snapper.value.id
    && h.snap1 == FindNode(NodesOf(s, c), num1) && h.snap2 == FindNode(NodesOf(s, c), num2)
  }

  lemma {:induction false} SoughtIs(actions: seq<Action>, name: nat, c: string, num1: nat, num2: nat)
    requires Connected(Run(actions), name) && IsLoaded(Run(actions), c)
    ensures var s := Run(actions); forall h | h in ClientOf(s, name).comparisons ::
      Compares(s, h, c, num1, num2) <==> Sought(s, h, c, num1, num2)
  {
    hide Run, IndexOf, FindNode, BothThere, Compares;
    var s := Run(actions);
    forall h | h in ClientOf(s, name).comparisons
      ensures Compares(s, h, c, num1, num2) <==> Sought(s, h, c, num1, num2)
    {
      CompareIs(actions, name, c, num1, num2, h);
      RunBoth(actions);
      BothAt(s, name, h);
    }
  }

  /** DeleteComparison takes one comparison of these two snapshots from the client, exactly if there is one. */
  lemma {:induction false} ComparisonDeleted(actions: seq<Action>, name: nat, c: string, num1: nat, num2: nat)
    requires CanCall(Run(actions), name) && IsLoaded(Run(actions), c)
    ensures var s, t := Run(actions), Step(Run(actions), DeleteComparison(name, c, num1, num2));
      var before := ClientOf(s, name).comparisons;
      && ((forall h | h in before :: !Compares(s, h, c, num1, num2)) ==> t == s)
      && (forall h | h in before && Compares(s, h, c, num1, num2) ::
            Connected(t, name) && multiset(ClientOf(t, name).comparisons) == multiset(before) - multiset{h})
  {
    hide Run, FindNode, Compares, Step;
    var s := Run(actions);
    SoughtIs(actions, name, c, num1, num2);
    SoughtDeleted(s, name, c, num1, num2);
  }

  lemma {:induction false} SoughtDeleted(s: State, name: nat, c: string, num1: nat, num2: nat)
    requires CanCall(s, name) && IsLoaded(s, c)
    requires forall h | h in ClientOf(s, name).comparisons ::
               Compares(s, h, c, num1, num2) <==> Sought(s, h, c, num1, num2)
    ensures var t := Step(s, DeleteComparison(name, c, num1, num2));
      var before := ClientOf(s, name).comparisons;
      && ((forall h | h in before :: !Sought(s, h, c, num1, num2)) ==> t == s)
      && (forall h | h in before && Compares(s, h, c, num1, num2) ::
            Connected(t, name) && multiset(ClientOf(t, name).comparisons) == multiset(before) - multiset{h})
  {
    hide FindNode, Step;
    var before := ClientOf(s, name).comparisons;
    var k := ErasedAt(s, name, c, num1, num2);
    if k < |before| {
      WithoutOne(before, k);
      assert before[k] in before;
      forall h | h in before && Compares(s, h, c, num1, num2) ensures h == before[k] {
        SameComparison(s, h, before[k], c, num1, num2);
      }
    } else {
      forall h | h in before ensures !Sought(s, h, c, num1, num2) {
        var j :| 0 <= j < |before| && before[j] == h;
      }
    }
  }

  lemma {:induction false} SameComparison(s: State, h: Hold, g: Hold, c: string, num1: nat, num2: nat)
    requires IsLoaded(s, c) && Sought(s, h, c, num1, num2) && Sought(s, g, c, num1, num2)
    requires Compares(s, h, c, num1, num2) && Compares(s, g, c, num1, num2)
    ensures h == g
  {
    hide FindNode;
  }

  lemma {:induction false} WithoutOne(holds: seq<Hold>, k: nat)
    requires k < |holds|
    ensures multiset(holds[..k] + holds[k + 1..]) == multiset(holds) - multiset{holds[k]}
  {
    assert holds == holds[..k] + [holds[k]] + holds[k + 1..];
  }

  /** The step erases the first comparison that is sought, or does nothing. */
  lemma {:induction false} ErasedAt(s: State, name: nat, c: string, num1: nat, num2: nat) returns (k: nat)
    requires CanCall(s, name) && IsLoaded(s, c)
    ensures var before := ClientOf(s, name).comparisons;
      var t := Step(s, DeleteComparison(name, c, num1, num2));
      && k <= |before| && (forall j | 0 <= j < k :: !Sought(s, before[j], c, num1, num2))
      && (k == |before| ==> t == s)
      && (k < |before| ==> Sought(s, before[k], c, num1, num2) && Connected(t, name))
      && (k < |before| ==> ClientOf(t, name).comparisons == before[..k] + before[k + 1..])
  {
    hide FindNode, DecEqual;
    var snapper, cl := s.configs[c].snapper.value, ClientOf(s, name);
    var before := cl.comparisons;
    k := IndexOfComparison(before, snapper.id, FindNode(snapper.nodes, num1), FindNode(snapper.nodes, num2));
    if k < |before| {
      var left := cl.(comparisons := before[..k] + before[k + 1..]);
      DecEqualClients(WithClient(s, name, left), snapper.id);
      IndexAfterReplace(s.clients, IndexOf(s.clients, name), left, name);
    }
  }

  // Tasks

  /** A request for a post snapshot that is granted: its pre snapshot is listed and its number is new. */
  ghost predicate Granted(s: State, a: Action) {
    a.CreatePostSnapshot? && IsLoaded(s, a.config) && Lists(NodesOf(s, a.config), a.pre)
    && !Lists(NodesOf(s, a.config), a.num)
  }

  ghost function TaskOf(s: State, a: Action): Hold
    requires Granted(s, a)
  {
    Hold(a.config, s.configs[a.config].snapper.value.id, FindNode(NodesOf(s, a.config), a.pre), Some(s.unused))
  }

  /** The tasks that were ever queued. */
  ghost function Queued(actions: seq<Action>): seq<Hold> {
    if actions == [] then []
    else
      var past := actions[..|actions| - 1];
      Queued(past) + NewTasks(Run(past), actions[|actions| - 1])
  }

  /** How many tasks were finished, and how many of these were taken from the queue. */
  datatype Tally = Tally(finished: nat, popped: nat)

  ghost function TallyNext(t: Tally, a: Action, queued: nat): Tally {
    if a.FinishTask? && t.popped == t.finished < queued then t.(finished := t.finished + 1)
    else if a.PopTask? && t.popped < t.finished then t.(popped := t.popped + 1)
    else t
  }

  ghost function TallyOf(actions: seq<Action>): Tally {
    if actions == [] then Tally(0, 0)
    else
      var past := actions[..|actions| - 1];
      TallyNext(TallyOf(past), actions[|actions| - 1], |Queued(past)|)
  }

  lemma {:induction false} DecAllTasks(s: State, holds: seq<Hold>)
    ensures DecAll(s, holds).tasks == s.tasks && DecAll(s, holds).worker == s.worker
    decreases |holds|
  {
    if holds != [] { DecAllTasks(DecEqual(s, holds[0].snapper), holds[1..]); }
  }

  lemma {:induction false} OtherTasks(s: State, a: Action)
    requires !a.CreatePostSnapshot? && !a.FinishTask? && !a.PopTask?
    ensures Step(s, a).tasks == s.tasks && Step(s, a).worker == s.worker
  {
    hide FindNode, DecAll, MountLost, Good, EndCallStep, DeleteNums, Daemon.Bound, LockedByOther, Readable,
      DeleteComparisonStep;
    match a
    case RemoveZombie(who) =>
      var i := IndexOf(s.clients, who);
      if i < |s.clients| { DecAllTasks(Erased(s, i), s.clients[i].comparisons); }
    case EndCall(who, failed) => EndCallTasks(s, who, failed);
    case DeleteComparison(name, c, num1, num2) => DeleteComparisonTasks(s, name, c, num1, num2);
    case _ =>
  }

  lemma {:induction false} EndCallTasks(s: State, who: nat, failed: bool)
    ensures EndCallStep(s, who, failed).tasks == s.tasks && EndCallStep(s, who, failed).worker == s.worker
  {
    hide Good;
  }

  lemma {:induction false} DeleteComparisonTasks(s: State, name: nat, c: string, num1: nat, num2: nat)
    ensures var r := DeleteComparisonStep(s, name, c, num1, num2); r.tasks == s.tasks && r.worker == s.worker
  {
    hide FindNode;
  }

  lemma {:induction false} PostTasks(s: State, a: Action)
    requires a.CreatePostSnapshot?
    ensures Step(s, a).worker == s.worker
    ensures Step(s, a).tasks == s.tasks + (if Granted(s, a) && a.background then [TaskOf(s, a)] else [])
  {
    if IsLoaded(s, a.config) {
      Found(NodesOf(s, a.config), a.pre);
      Found(NodesOf(s, a.config), a.num);
    }
    hide FindNode, Lists;
  }

  lemma {:induction false} FinishTasks(s: State)
    ensures var r := FinishTaskStep(s); r.tasks == s.tasks && (r.worker.Done? <==> s.worker.Done? || s.tasks != [])
  {
    hide Good;
  }

  /** The queue is what was queued and not yet taken, and of that only the first can be finished. */
  ghost predicate InOrder(s: State, q: seq<Hold>, t: Tally) {
    && t.popped <= t.finished <= |q| && t.finished <= t.popped + 1
    && s.tasks == q[t.popped..] && (s.worker.Done? <==> t.popped < t.finished)
  }

  lemma {:induction false} QueueOn(s: State, r: State, q: seq<Hold>, t: Tally, more: seq<Hold>)
    requires InOrder(s, q, t) && r.tasks == s.tasks + more && r.worker == s.worker
    ensures InOrder(r, q + more, t)
  {
    assert (q + more)[t.popped..] == q[t.popped..] + more;
  }

  lemma {:induction false} FinishOn(s: State, q: seq<Hold>, t: Tally)
    requires InOrder(s, q, t)
    ensures InOrder(Step(s, FinishTask), q, TallyNext(t, FinishTask, |q|))
  {
    FinishTasks(s);
    hide FinishTaskStep;
  }

  lemma {:induction false} PopOn(s: State, q: seq<Hold>, t: Tally)
    requires InOrder(s, q, t)
    ensures InOrder(Step(s, PopTask), q, TallyNext(t, PopTask, |q|))
  {
    assert t.popped < |q| ==> q[t.popped..][1..] == q[t.popped + 1..];
  }

  ghost function NewTasks(s: State, a: Action): seq<Hold> {
    if Granted(s, a) && a.background then [TaskOf(s, a)] else []
  }

  lemma {:induction false} StepInOrder(s: State, a: Action, q: seq<Hold>, t: Tally)
    requires InOrder(s, q, t)
    ensures InOrder(Step(s, a), q + NewTasks(s, a), TallyNext(t, a, |q|))
  {
    hide Step, InOrder, Granted, TaskOf;
    if a.CreatePostSnapshot? {
      PostTasks(s, a);
      QueueOn(s, Step(s, a), q, t, NewTasks(s, a));
    } else {
      NotGranted(s, a);
      assert q + NewTasks(s, a) == q;
      if a.FinishTask? {
        FinishOn(s, q, t);
      } else if a.PopTask? {
        PopOn(s, q, t);
      } else {
        OtherTasks(s, a);
        QueueOn(s, Step(s, a), q, t, []);
      }
    }
  }

  /** The background tasks of every run are done in the order in which they were queued, each once. */
  lemma {:induction false} TasksInOrder(actions: seq<Action>)
    ensures InOrder(Run(actions), Queued(actions), TallyOf(actions))
  {
    hide InOrder, NewTasks, TallyNext, Step;
    if actions == [] {
      NothingQueued();
    } else {
      var past, a := actions[..|actions| - 1], actions[|actions| - 1];
      TasksInOrder(past);
      StepInOrder(Run(past), a, Queued(past), TallyOf(past));
    }
  }

  lemma {:induction false} NothingQueued()
    ensures InOrder(START, [], Tally(0, 0))
  {
  }

  lemma {:induction false} NotGranted(s: State, a: Action)
    requires !a.CreatePostSnapshot?
    ensures !Granted(s, a)
  {
  }

  /** A queued task compares the post snapshot, once it is listed, with its pre snapshot. */
  lemma {:induction false} TaskCompares(actions: seq<Action>, a: Action)
    requires Granted(Run(actions), a)
    ensures Compares(Step(Run(actions), a), TaskOf(Run(actions), a), a.config, a.pre, a.num)
  {
    hide Run;
    var s := Run(actions);
    RunsAreSafe(actions);
    Found(NodesOf(s, a.config), a.pre);
    Found(NodesOf(s, a.config), a.num);
    hide FindNode, Lists, Inv;
    CreatedKept(s, a.config, a.config, a.num);
  }

  // Locks and mounts

  /** A config is locked for a client by the calls of the other live clients. */
  lemma {:induction false} LockedByCalls(actions: seq<Action>, name: nat, c: string)
    ensures LockedByOther(Run(actions).clients, name, c) <==>
      exists k :: 0 <= k < |Run(actions).clients| && var cl := Run(actions).clients[k];
        !cl.zombie && cl.name != name && NetCalls(actions, cl.name, Locked(c)) > 0
  {
    hide Run, NetCalls;
    var clients := Run(actions).clients;
    forall k | 0 <= k < |clients| ensures c in clients[k].locks <==> NetCalls(actions, clients[k].name, Locked(c)) > 0 {
      RecordAt(actions, k, Locked(c));
    }
  }

  /** A snapshot is mounted by the calls of any client. */
  lemma {:induction false} MountedByCalls(actions: seq<Action>, c: string, num: nat)
    ensures Mounted(Run(actions).clients, c, num) <==>
      exists k :: 0 <= k < |Run(actions).clients| &&
        NetCalls(actions, Run(actions).clients[k].name, MountOf(c, num)) > 0
  {
    hide Run, NetCalls;
    var clients := Run(actions).clients;
    forall k | 0 <= k < |clients|
      ensures (c, num) in clients[k].mounts <==> NetCalls(actions, clients[k].name, MountOf(c, num)) > 0
    {
      RecordAt(actions, k, MountOf(c, num));
    }
  }
}
