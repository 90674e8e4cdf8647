/**
 The daemon (server/): clients with comparisons, locks and mounts, configs with a lazily loaded Snapper and a use
 count, and the background worker. Every step happens under the big mutex or touches a use count only; what a method
 does after giving the mutex back is a step of its own.
 */
module Daemon {
  import opened Wrappers

  /** A loaded Snapper: its address, and the list nodes of its snapshots with their numbers. */
  datatype Snapper = Snapper(id: nat, nodes: map<nat, nat>)

  datatype Config = Config(snapper: Option<Snapper>, count: int)

  /** A pointer to a Snapper and up to two iterators into its list; an iterator can be the end of the list. */
  datatype Hold = Hold(config: string, snapper: nat, snap1: Option<nat>, snap2: Option<nat>)

  /** A method that runs without the mutex and keeps a RefHolder. */
  datatype Call = Idle | Comparing(hold: Hold) | Using(hold: Hold)

  datatype Client = Client(name: nat, zombie: bool, comparisons: seq<Hold>, locks: map<string, nat>,
                           mounts: map<(string, nat), nat>, call: Call)

  /** The first task of the queue is done, but still in the queue, or not. */
  datatype Worker = Working | Done

  /**
   crashed: an assertion failed, or a pointer or iterator was used that led nowhere.
   thrown: an exception left a destructor.
   */
  datatype State = State(configs: map<string, Config>, clients: seq<Client>, tasks: seq<Hold>, worker: Worker,
                         unused: nat, crashed: bool, thrown: bool)

  const START := State(map[], [], [], Working, 0, false, false)

  datatype Action =
    | Connect(client: nat)
    | Disconnect(client: nat)
    | RemoveZombie(client: nat)
    | LockConfig(client: nat, config: string)
    | UnlockConfig(client: nat, config: string)
    | CreateConfig(config: string)
    | DeleteConfig(client: nat, config: string)
    | Load(config: string, nodes: map<nat, nat>)
    | Unload(config: string)
    | CreateSnapshot(config: string, num: nat)
    | CreatePostSnapshot(config: string, pre: nat, num: nat, background: bool)
    | DeleteSnapshots(client: nat, config: string, nums: seq<nat>, refused: set<nat>)
    | MountSnapshot(client: nat, config: string, num: nat)
    | UmountSnapshot(client: nat, config: string, num: nat)
    | BeginComparison(client: nat, config: string, num1: nat, num2: nat)
    | BeginUse(client: nat, config: string)
    | EndCall(client: nat, failed: bool)
    | DeleteComparison(client: nat, config: string, num1: nat, num2: nat)
    | FinishTask
    | PopTask

  // Use counts

  /** What a hold relies on: the Snapper is the loaded one and the nodes are still listed. */
  ghost predicate Good(configs: map<string, Config>, h: Hold) {
    && h.config in configs && configs[h.config].snapper.Some?
    && var snapper := configs[h.config].snapper.value;
    && snapper.id == h.snapper
    && (h.snap1.Some? ==> h.snap1.value in snapper.nodes)
    && (h.snap2.Some? ==> h.snap2.value in snapper.nodes)
  }

  ghost function IncUse(s: State, c: string): State {
    if c !in s.configs then s.(crashed := true)
    else s.(configs := s.configs[c := s.configs[c].(count := s.configs[c].count + 1)])
  }

  ghost function DecUse(s: State, c: string): State {
    if c !in s.configs || s.configs[c].count <= 0 then s.(crashed := true)
    else s.(configs := s.configs[c := s.configs[c].(count := s.configs[c].count - 1)])
  }

  predicate IsEqual(config: Config, id: nat) {
    config.snapper.Some? && config.snapper.value.id == id
  }

  /** Every config with that Snapper gives up one use. */
  ghost function DecEqual(s: State, id: nat): State {
    if exists c :: c in s.configs && IsEqual(s.configs[c], id) && s.configs[c].count <= 0 then s.(crashed := true)
    else s.(configs := map c | c in s.configs ::
                         if IsEqual(s.configs[c], id) then s.configs[c].(count := s.configs[c].count - 1)
                         else s.configs[c])
  }

  ghost function DecAll(s: State, holds: seq<Hold>): State
    decreases |holds|
  {
    if holds == [] then s else DecAll(DecEqual(s, holds[0].snapper), holds[1..])
  }

  // Looking things up

  function IndexOf(clients: seq<Client>, name: nat): (i: nat)
    ensures i <= |clients| && (i < |clients| ==> clients[i].name == name)
    ensures forall k | 0 <= k < i :: clients[k].name != name
  {
    if clients == [] then 0 else if clients[0].name == name then 0 else IndexOf(clients[1..], name) + 1
  }

  ghost function FindNode(nodes: map<nat, nat>, num: nat): Option<nat> {
    if exists k :: k in nodes && nodes[k] == num then
      var k :| k in nodes && nodes[k] == num;
      Some(k)
    else None
  }

  /** The numbers of a list are different. */
  ghost predicate Distinct(nodes: map<nat, nat>) {
    forall j, k | j in nodes && k in nodes && nodes[j] == nodes[k] :: j == k
  }

  function IndexOfComparison(comparisons: seq<Hold>, id: nat, n1: Option<nat>, n2: Option<nat>): (i: nat)
    ensures i <= |comparisons|
    ensures i < |comparisons| ==>
              comparisons[i].snapper == id && comparisons[i].snap1 == n1 && comparisons[i].snap2 == n2
    ensures forall k | 0 <= k < i ::
              !(comparisons[k].snapper == id && comparisons[k].snap1 == n1 && comparisons[k].snap2 == n2)
  {
    if comparisons == [] then 0
    else if comparisons[0].snapper == id && comparisons[0].snap1 == n1 && comparisons[0].snap2 == n2 then 0
    else IndexOfComparison(comparisons[1..], id, n1, n2) + 1
  }

  /** The config exists and its Snapper is loaded. */
  predicate IsLoaded(s: State, c: string) {
    c in s.configs && s.configs[c].snapper.Some?
  }

  /** The client is there and not in the middle of another method. */
  predicate CanCall(s: State, name: nat) {
    var i := IndexOf(s.clients, name);
    i < |s.clients| && s.clients[i].call.Idle?
  }

  // Checks

  predicate LockedByOther(clients: seq<Client>, name: nat, c: string) {
    exists k :: 0 <= k < |clients| && !clients[k].zombie && clients[k].name != name && c in clients[k].locks
  }

  predicate Mounted(clients: seq<Client>, c: string, num: nat) {
    exists k :: 0 <= k < |clients| && (c, num) in clients[k].mounts
  }

  /** Deletes one number after the other and stops at the first that is mounted, unknown or refused. */
  ghost function DeleteNums(clients: seq<Client>, c: string, nodes: map<nat, nat>, nums: seq<nat>,
                            refused: set<nat>): map<nat, nat> {
    if nums == [] || Mounted(clients, c, nums[0]) || nums[0] in refused then nodes
    else match FindNode(nodes, nums[0])
      case None => nodes
      case Some(k) => DeleteNums(clients, c, nodes - {k}, nums[1..], refused)
  }

  function Increment<K>(m: map<K, nat>, k: K): map<K, nat> {
    m[k := if k in m then m[k] + 1 else 1]
  }

  function Decrement<K>(m: map<K, nat>, k: K): map<K, nat> {
    if k !in m then m else if m[k] <= 1 then m - {k} else m[k := m[k] - 1]
  }

  // Steps

  ghost function WithClient(s: State, name: nat, cl: Client): State
    requires IndexOf(s.clients, name) < |s.clients|
  {
    s.(clients := s.clients[IndexOf(s.clients, name) := cl])
  }

  ghost function ClientOf(s: State, name: nat): Client
    requires IndexOf(s.clients, name) < |s.clients|
  {
    s.clients[IndexOf(s.clients, name)]
  }

  ghost function ConnectStep(s: State, name: nat): State {
    if IndexOf(s.clients, name) < |s.clients| then s
    else s.(clients := s.clients + [Client(name, false, [], map[], map[], Idle)])
  }

  ghost function DisconnectStep(s: State, name: nat): State {
    if IndexOf(s.clients, name) == |s.clients| then s
    else WithClient(s, name, ClientOf(s, name).(zombie := true))
  }

  /** The config of a recorded mount is not there any more, so that looking it up throws. */
  predicate MountLost(s: State, cl: Client) {
    exists k :: k in cl.mounts && k.0 !in s.configs
  }

  /** The state without a client, whose mounts have been looked up. */
  ghost function Erased(s: State, i: nat): State
    requires i < |s.clients|
  {
    s.(clients := s.clients[..i] + s.clients[i + 1..], thrown := s.thrown || MountLost(s, s.clients[i]))
  }

  /** A zombie whose thread has come to its end is destroyed, and its comparisons with it. */
  ghost function RemoveStep(s: State, name: nat): State {
    if !CanCall(s, name) || !ClientOf(s, name).zombie then s
    else
      var i := IndexOf(s.clients, name);
      DecAll(Erased(s, i), s.clients[i].comparisons)
  }

  ghost function LockStep(s: State, name: nat, c: string): State {
    if !CanCall(s, name) || c !in s.configs then s
    else WithClient(s, name, ClientOf(s, name).(locks := Increment(ClientOf(s, name).locks, c)))
  }

  ghost function UnlockStep(s: State, name: nat, c: string): State {
    if !CanCall(s, name) || c !in s.configs then s
    else WithClient(s, name, ClientOf(s, name).(locks := Decrement(ClientOf(s, name).locks, c)))
  }

  ghost function CreateConfigStep(s: State, c: string): State {
    if c in s.configs then s else s.(configs := s.configs[c := Config(None, 0)])
  }

  ghost function DeleteConfigStep(s: State, name: nat, c: string): State {
    if !CanCall(s, name) || c !in s.configs || LockedByOther(s.clients, name, c) || s.configs[c].count != 0 then s
    else s.(configs := s.configs - {c})
  }

  /** The list that is read from the file system: at addresses of its own, and no number twice. */
  ghost predicate Readable(s: State, nodes: map<nat, nat>) {
    Distinct(nodes) && forall k | k in nodes :: k > s.unused
  }

  ghost function LoadStep(s: State, c: string, nodes: map<nat, nat>): State {
    if c !in s.configs || s.configs[c].snapper.Some? || !Readable(s, nodes) then s
    else
      var above := Bound(nodes.Keys, s.unused + 1);
      s.(configs := s.configs[c := s.configs[c].(snapper := Some(Snapper(s.unused, nodes)))], unused := above)
  }

  /** A number above all of a set. */
  ghost function Bound(f: set<nat>, low: nat): (b: nat)
    ensures b >= low && forall k | k in f :: k < b
    decreases |f|
  {
    if f == {} then low
    else
      var k :| k in f;
      assert f == (f - {k}) + {k};
      var b := Bound(f - {k}, low);
      if k < b then b else k + 1
  }

  /** Unused for a while; how long does not matter here. */
  ghost function UnloadStep(s: State, c: string): State {
    if !IsLoaded(s, c) || s.configs[c].count != 0 then s
    else s.(configs := s.configs[c := s.configs[c].(snapper := None)])
  }

  ghost function WithNodes(s: State, c: string, nodes: map<nat, nat>): State
    requires IsLoaded(s, c)
  {
    var config := s.configs[c];
    s.(configs := s.configs[c := config.(snapper := Some(config.snapper.value.(nodes := nodes)))])
  }

  /** The library gives a snapshot a number that is not listed. */
  ghost function CreateSnapshotStep(s: State, c: string, num: nat): State {
    if !IsLoaded(s, c) || FindNode(s.configs[c].snapper.value.nodes, num).Some? then s
    else WithNodes(s, c, s.configs[c].snapper.value.nodes[s.unused := num]).(unused := s.unused + 1)
  }

  /** A post snapshot may be compared with its pre snapshot in the background. */
  ghost function CreatePostStep(s: State, c: string, pre: nat, num: nat, background: bool): State {
    if !IsLoaded(s, c) || FindNode(s.configs[c].snapper.value.nodes, pre).None?
       || FindNode(s.configs[c].snapper.value.nodes, num).Some? then s
    else
      var created := CreateSnapshotStep(s, c, num);
      if !background then created
      else
        var snapper := s.configs[c].snapper.value;
        var task := Hold(c, snapper.id, FindNode(snapper.nodes, pre), Some(s.unused));
        IncUse(created.(tasks := created.tasks + [task]), c)
  }

  ghost function DeleteSnapshotsStep(s: State, name: nat, c: string, nums: seq<nat>, refused: set<nat>): State {
    if !CanCall(s, name) || !IsLoaded(s, c) || LockedByOther(s.clients, name, c) || s.configs[c].count != 0 then s
    else WithNodes(s, c, DeleteNums(s.clients, c, s.configs[c].snapper.value.nodes, nums, refused))
  }

  ghost function MountStep(s: State, name: nat, c: string, num: nat): State {
    if !CanCall(s, name) || !IsLoaded(s, c) || FindNode(s.configs[c].snapper.value.nodes, num).None? then s
    else WithClient(s, name, ClientOf(s, name).(mounts := Increment(ClientOf(s, name).mounts, (c, num))))
  }

  ghost function UmountStep(s: State, name: nat, c: string, num: nat): State {
    if !CanCall(s, name) || !IsLoaded(s, c) || FindNode(s.configs[c].snapper.value.nodes, num).None? then s
    else WithClient(s, name, ClientOf(s, name).(mounts := Decrement(ClientOf(s, name).mounts, (c, num))))
  }

  ghost function BeginStep(s: State, name: nat, call: Call): State
    requires !call.Idle? && IndexOf(s.clients, name) < |s.clients|
  {
    IncUse(WithClient(s, name, ClientOf(s, name).(call := call)), call.hold.config)
  }

  ghost function BeginComparisonStep(s: State, name: nat, c: string, num1: nat, num2: nat): State {
    if !CanCall(s, name) || !IsLoaded(s, c) then s
    else
      var snapper := s.configs[c].snapper.value;
      BeginStep(s, name, Comparing(Hold(c, snapper.id, FindNode(snapper.nodes, num1), FindNode(snapper.nodes, num2))))
  }

  ghost function BeginUseStep(s: State, name: nat, c: string): State {
    if !CanCall(s, name) || !IsLoaded(s, c) then s
    else BeginStep(s, name, Using(Hold(c, s.configs[c].snapper.value.id, None, None)))
  }

  /** The method used what it held; a comparison of two listed snapshots is kept, unless it failed half-way. */
  ghost function EndCallStep(s: State, name: nat, failed: bool): State {
    var i := IndexOf(s.clients, name);
    if i == |s.clients| || s.clients[i].call.Idle? then s
    else
      var cl := s.clients[i];
      var h := cl.call.hold;
      var used := s.(crashed := s.crashed || !Good(s.configs, h));
      var kept := cl.call.Comparing? && h.snap1.Some? && h.snap2.Some? && h.snap1 != h.snap2 && !failed;
      if kept then
        var now := WithClient(used, name, cl.(comparisons := cl.comparisons + [h], call := Idle));
        DecUse(IncUse(now, h.config), h.config)
      else
        DecUse(WithClient(used, name, cl.(call := Idle)), h.config)
  }

  ghost function DeleteComparisonStep(s: State, name: nat, c: string, num1: nat, num2: nat): State {
    if !CanCall(s, name) || !IsLoaded(s, c) then s
    else
      var snapper, cl := s.configs[c].snapper.value, ClientOf(s, name);
      var k := IndexOfComparison(cl.comparisons, snapper.id, FindNode(snapper.nodes, num1),
                                 FindNode(snapper.nodes, num2));
      if k == |cl.comparisons| then s
      else DecEqual(WithClient(s, name, cl.(comparisons := cl.comparisons[..k] + cl.comparisons[k + 1..])), snapper.id)
  }

  ghost function FinishTaskStep(s: State): State {
    if s.worker.Done? || s.tasks == [] then s
    else
      var used := s.(crashed := s.crashed || !Good(s.configs, s.tasks[0]), worker := Done);
      DecUse(used, s.tasks[0].config)
  }

  ghost function PopTaskStep(s: State): State {
    if s.worker.Working? || s.tasks == [] then s else s.(tasks := s.tasks[1..], worker := Working)
  }

  ghost function Step(s: State, a: Action): State {
    match a
    case Connect(name) => ConnectStep(s, name)
    case Disconnect(name) => DisconnectStep(s, name)
    case RemoveZombie(name) => RemoveStep(s, name)
    case LockConfig(name, c) => LockStep(s, name, c)
    case UnlockConfig(name, c) => UnlockStep(s, name, c)
    case CreateConfig(c) => CreateConfigStep(s, c)
    case DeleteConfig(name, c) => DeleteConfigStep(s, name, c)
    case Load(c, nodes) => LoadStep(s, c, nodes)
    case Unload(c) => UnloadStep(s, c)
    case CreateSnapshot(c, num) => CreateSnapshotStep(s, c, num)
    case CreatePostSnapshot(c, pre, num, background) => CreatePostStep(s, c, pre, num, background)
    case DeleteSnapshots(name, c, nums, refused) => DeleteSnapshotsStep(s, name, c, nums, refused)
    case MountSnapshot(name, c, num) => MountStep(s, name, c, num)
    case UmountSnapshot(name, c, num) => UmountStep(s, name, c, num)
    case BeginComparison(name, c, num1, num2) => BeginComparisonStep(s, name, c, num1, num2)
    case BeginUse(name, c) => BeginUseStep(s, name, c)
    case EndCall(name, failed) => EndCallStep(s, name, failed)
    case DeleteComparison(name, c, num1, num2) => DeleteComparisonStep(s, name, c, num1, num2)
    case FinishTask => FinishTaskStep(s)
    case PopTask => PopTaskStep(s)
  }

  ghost function Run(actions: seq<Action>): State {
    if actions == [] then START else Step(Run(actions[..|actions| - 1]), actions[|actions| - 1])
  }

  // The invariant

  function HoldsOf(cl: Client): seq<Hold> {
    cl.comparisons + (if cl.call.Idle? then [] else [cl.call.hold])
  }

  function HoldsOfAll(clients: seq<Client>): seq<Hold> {
    if clients == [] then [] else HoldsOf(clients[0]) + HoldsOfAll(clients[1..])
  }

  function Unfinished(s: State): seq<Hold> {
    if s.worker.Done? && s.tasks != [] then s.tasks[1..] else s.tasks
  }

  /** Whatever holds a use: comparisons, methods that run without the mutex, and tasks to be done. */
  function Holds(s: State): seq<Hold> {
    HoldsOfAll(s.clients) + Unfinished(s)
  }

  function Uses(holds: seq<Hold>, c: string): nat {
    if holds == [] then 0 else (if holds[0].config == c then 1 else 0) + Uses(holds[1..], c)
  }

  ghost predicate Counted(configs: map<string, Config>, holds: seq<Hold>) {
    forall c | c in configs :: configs[c].count == Uses(holds, c)
  }

  ghost predicate AllGood(configs: map<string, Config>, holds: seq<Hold>) {
    forall h | h in holds :: Good(configs, h)
  }

  /** Addresses are not shared and all are below the next one. */
  ghost predicate Addressed(configs: map<string, Config>, unused: nat) {
    && (forall c, e | c in configs && e in configs && configs[c].snapper.Some?
                      && IsEqual(configs[e], configs[c].snapper.value.id) :: c == e)
    && (forall c | c in configs && configs[c].snapper.Some? :: configs[c].snapper.value.id < unused)
    && (forall c, k | c in configs && configs[c].snapper.Some? && k in configs[c].snapper.value.nodes :: k < unused)
  }

  /** Use counts are what is held, and everything held can be used. */
  ghost predicate Balanced(s: State, holds: seq<Hold>) {
    && !s.crashed
    && Counted(s.configs, holds) && AllGood(s.configs, holds) && Addressed(s.configs, s.unused)
    && (s.worker.Done? ==> s.tasks != [])
  }

  ghost predicate Inv(s: State) {
    Balanced(s, Holds(s))
  }

  lemma {:induction false} UsesConcat(a: seq<Hold>, b: seq<Hold>, c: string)
    ensures Uses(a + b, c) == Uses(a, c) + Uses(b, c)
  {
    if a == [] {
      assert a + b == b;
    } else {
      assert (a + b)[0] == a[0] && (a + b)[1..] == a[1..] + b;
      UsesConcat(a[1..], b, c);
    }
  }

  /** No use means no holder. */
  lemma {:induction false} NoUses(holds: seq<Hold>, c: string)
    ensures Uses(holds, c) == 0 <==> forall h | h in holds :: h.config != c
  {
    if holds != [] {
      NoUses(holds[1..], c);
      assert holds == [holds[0]] + holds[1..];
    }
  }

  lemma {:induction false} HoldsSplit(clients: seq<Client>, i: nat)
    requires i < |clients|
    ensures HoldsOfAll(clients) == HoldsOfAll(clients[..i]) + (HoldsOf(clients[i]) + HoldsOfAll(clients[i + 1..]))
  {
    if i == 0 {
      assert clients[..0] == [];
    } else {
      HoldsSplit(clients[1..], i - 1);
      assert clients[..i][0] == clients[0] && clients[..i][1..] == clients[1..][..i - 1];
      assert clients[1..][i..] == clients[i + 1..];
    }
  }

  lemma {:induction false} HoldsConcat(a: seq<Client>, b: seq<Client>)
    ensures HoldsOfAll(a + b) == HoldsOfAll(a) + HoldsOfAll(b)
  {
    if a == [] {
      assert a + b == b;
    } else {
      assert (a + b)[0] == a[0] && (a + b)[1..] == a[1..] + b;
      HoldsConcat(a[1..], b);
    }
  }

  /** The holds around those of one client. */
  ghost function Around(s: State, i: nat): (seq<Hold>, seq<Hold>)
    requires i < |s.clients|
  {
    (HoldsOfAll(s.clients[..i]), HoldsOfAll(s.clients[i + 1..]) + Unfinished(s))
  }

  lemma {:induction false} HoldsAround(s: State, i: nat)
    requires i < |s.clients|
    ensures Holds(s) == Around(s, i).0 + (HoldsOf(s.clients[i]) + Around(s, i).1)
  {
    HoldsSplit(s.clients, i);
  }

  lemma {:induction false} AroundReplaced(s: State, i: nat, cl: Client)
    requires i < |s.clients|
    ensures var r := s.(clients := s.clients[i := cl]); Around(r, i) == Around(s, i) && Unfinished(r) == Unfinished(s)
  {
    assert s.clients[i := cl][..i] == s.clients[..i] && s.clients[i := cl][i + 1..] == s.clients[i + 1..];
  }

  lemma {:induction false} UsesAround(a: seq<Hold>, m: seq<Hold>, b: seq<Hold>, c: string)
    ensures Uses(a + (m + b), c) == Uses(a, c) + Uses(m, c) + Uses(b, c)
  {
    UsesConcat(a, m + b, c);
    UsesConcat(m, b, c);
  }

  /** Replacing one client replaces its holds. */
  lemma {:induction false} ClientReplaced(s: State, i: nat, cl: Client)
    requires i < |s.clients|
    ensures var r := s.(clients := s.clients[i := cl]);
      && (forall c :: Uses(Holds(r), c) == Uses(Holds(s), c) - Uses(HoldsOf(s.clients[i]), c) + Uses(HoldsOf(cl), c))
      && (forall h | h in Holds(r) :: h in Holds(s) || h in HoldsOf(cl))
      && (forall h | h in HoldsOf(s.clients[i]) :: h in Holds(s))
  {
    var r := s.(clients := s.clients[i := cl]);
    HoldsAround(s, i);
    HoldsAround(r, i);
    AroundReplaced(s, i, cl);
    var (a, b) := Around(s, i);
    forall c ensures Uses(Holds(r), c) == Uses(Holds(s), c) - Uses(HoldsOf(s.clients[i]), c) + Uses(HoldsOf(cl), c) {
      UsesAround(a, HoldsOf(cl), b, c);
      UsesAround(a, HoldsOf(s.clients[i]), b, c);
    }
  }

  /** Steps of clients that do not touch what is held. */
  lemma {:induction false} ClientKeepsInv(s: State, i: nat, cl: Client)
    requires Inv(s) && i < |s.clients| && HoldsOf(cl) == HoldsOf(s.clients[i])
    ensures Inv(s.(clients := s.clients[i := cl]))
  {
    var r := s.(clients := s.clients[i := cl]);
    HoldsAround(s, i);
    HoldsAround(r, i);
    AroundReplaced(s, i, cl);
    assert Holds(r) == Holds(s);
  }

  lemma {:induction false} ConnectKeepsInv(s: State, name: nat)
    requires Inv(s)
    ensures Inv(ConnectStep(s, name))
  {
    var cl := Client(name, false, [], map[], map[], Idle);
    HoldsConcat(s.clients, [cl]);
    assert HoldsOfAll([cl]) == [] by { assert [cl][1..] == []; }
    assert HoldsOfAll(s.clients + [cl]) == HoldsOfAll(s.clients);
    assert IndexOf(s.clients, name) == |s.clients| ==> Holds(ConnectStep(s, name)) == Holds(s);
  }

  // Configs

  /** A change to one config that keeps its count and keeps everything held in it. */
  lemma {:induction false} ConfigKeepsInv(s: State, c: string, config: Config, unused: nat)
    requires Inv(s) && c in s.configs && config.count == s.configs[c].count && unused >= s.unused
    requires forall h | h in Holds(s) && h.config == c :: Good(s.configs[c := config], h)
    requires Addressed(s.configs[c := config], unused)
    ensures Inv(s.(configs := s.configs[c := config], unused := unused))
  {
    var r := s.(configs := s.configs[c := config], unused := unused);
    assert Holds(r) == Holds(s);
    forall h | h in Holds(r) ensures Good(r.configs, h) { assert Good(s.configs, h); }
  }

  lemma {:induction false} IdleConfig(s: State, c: string)
    requires Inv(s) && c in s.configs && s.configs[c].count == 0
    ensures forall h | h in Holds(s) :: h.config != c
  {
    NoUses(Holds(s), c);
  }

  lemma {:induction false} CreateConfigKeepsInv(s: State, c: string)
    requires Inv(s)
    ensures Inv(CreateConfigStep(s, c))
  {
    if c !in s.configs {
      var r := CreateConfigStep(s, c);
      assert Holds(r) == Holds(s);
      forall h | h in Holds(s) ensures h.config != c && Good(r.configs, h) { assert Good(s.configs, h); }
      NoUses(Holds(s), c);
    }
  }

  lemma {:induction false} DeleteConfigKeepsInv(s: State, name: nat, c: string)
    requires Inv(s)
    ensures Inv(DeleteConfigStep(s, name, c))
  {
    var r := DeleteConfigStep(s, name, c);
    if r != s {
      IdleConfig(s, c);
      assert Holds(r) == Holds(s);
      forall h | h in Holds(r) ensures Good(r.configs, h) { assert Good(s.configs, h); }
    }
  }

  lemma {:induction false} LoadKeepsInv(s: State, c: string, nodes: map<nat, nat>)
    requires Inv(s)
    ensures Inv(LoadStep(s, c, nodes))
  {
    var r := LoadStep(s, c, nodes);
    if r != s {
      forall h | h in Holds(s) ensures h.config != c { assert Good(s.configs, h); }
      ConfigKeepsInv(s, c, r.configs[c], r.unused);
    }
  }

  lemma {:induction false} UnloadKeepsInv(s: State, c: string)
    requires Inv(s)
    ensures Inv(UnloadStep(s, c))
  {
    var r := UnloadStep(s, c);
    if r != s {
      IdleConfig(s, c);
      ConfigKeepsInv(s, c, r.configs[c], s.unused);
    }
  }

  lemma {:induction false} CreateSnapshotKeepsInv(s: State, c: string, num: nat)
    requires Inv(s)
    ensures Inv(CreateSnapshotStep(s, c, num))
  {
    hide FindNode;
    var r := CreateSnapshotStep(s, c, num);
    if r != s {
      forall h | h in Holds(s) && h.config == c ensures Good(r.configs, h) { assert Good(s.configs, h); }
      ConfigKeepsInv(s, c, r.configs[c], r.unused);
    }
  }

  lemma {:induction false} DeleteNumsShrinks(clients: seq<Client>, c: string, nodes: map<nat, nat>, nums: seq<nat>,
                                             refused: set<nat>)
    ensures forall k | k in DeleteNums(clients, c, nodes, nums, refused) ::
              k in nodes && DeleteNums(clients, c, nodes, nums, refused)[k] == nodes[k]
    ensures forall k | k in nodes && k !in DeleteNums(clients, c, nodes, nums, refused) ::
              nodes[k] in nums && nodes[k] !in refused && !Mounted(clients, c, nodes[k])
  {
    if !(nums == [] || Mounted(clients, c, nums[0]) || nums[0] in refused) && FindNode(nodes, nums[0]).Some? {
      DeleteNumsShrinks(clients, c, nodes - {FindNode(nodes, nums[0]).value}, nums[1..], refused);
    }
  }

  lemma {:induction false} DeleteSnapshotsKeepsInv(s: State, name: nat, c: string, nums: seq<nat>, refused: set<nat>)
    requires Inv(s)
    ensures Inv(DeleteSnapshotsStep(s, name, c, nums, refused))
  {
    var r := DeleteSnapshotsStep(s, name, c, nums, refused);
    if r != s {
      DeleteNumsShrinks(s.clients, c, s.configs[c].snapper.value.nodes, nums, refused);
      IdleConfig(s, c);
      FewerNodes(s, c, DeleteNums(s.clients, c, s.configs[c].snapper.value.nodes, nums, refused));
      ConfigKeepsInv(s, c, r.configs[c], s.unused);
    }
  }

  lemma {:induction false} FewerNodes(s: State, c: string, nodes: map<nat, nat>)
    requires Addressed(s.configs, s.unused) && IsLoaded(s, c)
    requires forall k | k in nodes :: k in s.configs[c].snapper.value.nodes
    ensures Addressed(WithNodes(s, c, nodes).configs, s.unused)
  {
  }

  // Uses that come and go

  function One(h: Hold, c: string): nat { if h.config == c then 1 else 0 }

  lemma {:induction false} IncBalances(s: State, before: seq<Hold>, after: seq<Hold>, h: Hold)
    requires Balanced(s, before) && Good(s.configs, h)
    requires forall c :: Uses(after, c) == Uses(before, c) + One(h, c)
    requires forall x | x in after :: x in before || x == h
    ensures Balanced(IncUse(s, h.config), after)
  {
    var r := IncUse(s, h.config);
    forall x | x in after ensures Good(r.configs, x) { assert Good(s.configs, x); }
  }

  lemma {:induction false} DecBalances(s: State, before: seq<Hold>, after: seq<Hold>, h: Hold)
    requires Balanced(s, before) && h in before
    requires forall c :: Uses(after, c) == Uses(before, c) - One(h, c)
    requires forall x | x in after :: x in before
    ensures Balanced(DecUse(s, h.config), after)
  {
    assert Good(s.configs, h);
    assert Uses(after, h.config) == Uses(before, h.config) - One(h, h.config);
    var r := DecUse(s, h.config);
    forall x | x in after ensures Good(r.configs, x) { assert Good(s.configs, x); }
  }

  /** Looking for the Snapper finds the one config whose use it is. */
  lemma {:induction false} DecEqualIsDecUse(s: State, h: Hold)
    requires Good(s.configs, h) && Addressed(s.configs, s.unused)
    ensures DecEqual(s, h.snapper) == DecUse(s, h.config)
  {
    assert IsEqual(s.configs[h.config], h.snapper);
    forall c | c in s.configs && IsEqual(s.configs[c], h.snapper) ensures c == h.config {}
    var r := map c | c in s.configs ::
               if IsEqual(s.configs[c], h.snapper) then s.configs[c].(count := s.configs[c].count - 1)
               else s.configs[c];
    assert r == s.configs[h.config := s.configs[h.config].(count := s.configs[h.config].count - 1)];
  }

  lemma {:induction false} UsesOne(h: Hold, c: string)
    ensures Uses([h], c) == One(h, c)
  {
    assert [h][1..] == [];
  }

  lemma {:induction false} UsesAppend(holds: seq<Hold>, h: Hold)
    ensures forall c :: Uses(holds + [h], c) == Uses(holds, c) + One(h, c)
  {
    forall c ensures Uses(holds + [h], c) == Uses(holds, c) + One(h, c) {
      UsesConcat(holds, [h], c);
      UsesOne(h, c);
    }
  }

  /** A method that gives the mutex back is begun. */
  lemma {:induction false} BeginKeepsInv(s: State, name: nat, call: Call)
    requires Inv(s) && CanCall(s, name) && !call.Idle? && Good(s.configs, call.hold)
    ensures Inv(BeginStep(s, name, call))
  {
    var i := IndexOf(s.clients, name);
    var cl := s.clients[i].(call := call);
    var m := WithClient(s, name, cl);
    ClientReplaced(s, i, cl);
    assert HoldsOf(s.clients[i]) == s.clients[i].comparisons;
    UsesAppend(s.clients[i].comparisons, call.hold);
    assert Balanced(m, Holds(s));
    IncBalances(m, Holds(s), Holds(m), call.hold);
    assert Holds(IncUse(m, call.hold.config)) == Holds(m);
  }

  lemma {:induction false} BeginComparisonKeepsInv(s: State, name: nat, c: string, num1: nat, num2: nat)
    requires Inv(s)
    ensures Inv(BeginComparisonStep(s, name, c, num1, num2))
  {
    if CanCall(s, name) && IsLoaded(s, c) {
      var snapper := s.configs[c].snapper.value;
      BeginKeepsInv(s, name, Comparing(Hold(c, snapper.id, FindNode(snapper.nodes, num1),
                                            FindNode(snapper.nodes, num2))));
    }
  }

  lemma {:induction false} BeginUseKeepsInv(s: State, name: nat, c: string)
    requires Inv(s)
    ensures Inv(BeginUseStep(s, name, c))
  {
    if CanCall(s, name) && IsLoaded(s, c) {
      BeginKeepsInv(s, name, Using(Hold(c, s.configs[c].snapper.value.id, None, None)));
    }
  }

  /** A method that ends without a comparison gives its use back. */
  lemma {:induction false} GiveUpKeepsInv(s: State, i: nat, h: Hold)
    requires Inv(s) && i < |s.clients| && !s.clients[i].call.Idle? && h == s.clients[i].call.hold
    ensures Inv(DecUse(s.(clients := s.clients[i := s.clients[i].(call := Idle)]), h.config))
    ensures Good(s.configs, h)
  {
    var cl := s.clients[i].(call := Idle);
    var m := s.(clients := s.clients[i := cl]);
    ClientReplaced(s, i, cl);
    assert h in HoldsOf(s.clients[i]);
    UsesAppend(cl.comparisons, h);
    assert HoldsOf(cl) == cl.comparisons;
    assert forall x | x in HoldsOf(cl) :: x in HoldsOf(s.clients[i]);
    assert Balanced(m, Holds(s));
    DecBalances(m, Holds(s), Holds(m), h);
    assert Holds(DecUse(m, h.config)) == Holds(m);
  }

  /** A comparison that is kept takes over the use of the method. */
  lemma {:induction false} KeepKeepsInv(s: State, i: nat, h: Hold)
    requires Inv(s) && i < |s.clients| && !s.clients[i].call.Idle? && h == s.clients[i].call.hold
    ensures var cl := s.clients[i].(comparisons := s.clients[i].comparisons + [h], call := Idle);
            Inv(DecUse(IncUse(s.(clients := s.clients[i := cl]), h.config), h.config))
  {
    var cl := s.clients[i].(comparisons := s.clients[i].comparisons + [h], call := Idle);
    assert HoldsOf(cl) == HoldsOf(s.clients[i]);
    var m := s.(clients := s.clients[i := cl]);
    ClientKeepsInv(s, i, cl);
    ClientReplaced(s, i, cl);
    assert h in HoldsOf(s.clients[i]);
    assert Good(s.configs, h);
    UseIsPositive(Holds(m), h);
    assert DecUse(IncUse(m, h.config), h.config).configs == m.configs;
    assert DecUse(IncUse(m, h.config), h.config) == m;
  }

  lemma {:induction false} UseIsPositive(holds: seq<Hold>, h: Hold)
    ensures h in holds ==> Uses(holds, h.config) > 0
  {
    NoUses(holds, h.config);
  }

  lemma {:induction false} EndCallKeepsInv(s: State, name: nat, failed: bool)
    requires Inv(s)
    ensures Inv(EndCallStep(s, name, failed))
  {
    var i := IndexOf(s.clients, name);
    if i < |s.clients| && !s.clients[i].call.Idle? {
      var h := s.clients[i].call.hold;
      GiveUpKeepsInv(s, i, h);
      KeepKeepsInv(s, i, h);
      assert s.(crashed := false) == s;
    }
  }

  lemma {:induction false} EraseUses(holds: seq<Hold>, k: nat)
    requires k < |holds|
    ensures forall c :: Uses(holds[..k] + holds[k + 1..], c) == Uses(holds, c) - One(holds[k], c)
  {
    forall c ensures Uses(holds[..k] + holds[k + 1..], c) == Uses(holds, c) - One(holds[k], c) {
      assert holds == holds[..k] + ([holds[k]] + holds[k + 1..]);
      UsesAround(holds[..k], [holds[k]], holds[k + 1..], c);
      UsesConcat(holds[..k], holds[k + 1..], c);
      UsesOne(holds[k], c);
    }
  }

  lemma {:induction false} DeleteComparisonKeepsInv(s: State, name: nat, c: string, num1: nat, num2: nat)
    requires Inv(s)
    ensures Inv(DeleteComparisonStep(s, name, c, num1, num2))
  {
    hide Inv, DecEqual, FindNode;
    if CanCall(s, name) && IsLoaded(s, c) {
      var i, snapper := IndexOf(s.clients, name), s.configs[c].snapper.value;
      var cl := s.clients[i];
      var k := IndexOfComparison(cl.comparisons, snapper.id, FindNode(snapper.nodes, num1),
                                 FindNode(snapper.nodes, num2));
      if k < |cl.comparisons| {
        EraseKeepsInv(s, i, k);
      }
    }
  }

  lemma {:induction false} EraseKeepsInv(s: State, i: nat, k: nat)
    requires Inv(s) && i < |s.clients| && s.clients[i].call.Idle? && k < |s.clients[i].comparisons|
    ensures var cs := s.clients[i].comparisons;
            var cl := s.clients[i].(comparisons := cs[..k] + cs[k + 1..]);
            Inv(DecEqual(s.(clients := s.clients[i := cl]), cs[k].snapper))
  {
    var cs := s.clients[i].comparisons;
    var cl := s.clients[i].(comparisons := cs[..k] + cs[k + 1..]);
    var m := s.(clients := s.clients[i := cl]);
    ClientReplaced(s, i, cl);
    assert HoldsOf(cl) == cl.comparisons && HoldsOf(s.clients[i]) == cs;
    assert cs[k] in cs;
    EraseUses(cs, k);
    assert Balanced(m, Holds(s));
    assert Good(m.configs, cs[k]);
    DecBalances(m, Holds(s), Holds(m), cs[k]);
    DecEqualIsDecUse(m, cs[k]);
    assert Holds(DecUse(m, cs[k].config)) == Holds(m);
  }

  lemma {:induction false} DecAllBalances(s: State, holds: seq<Hold>, rest: seq<Hold>)
    requires Balanced(s, holds + rest)
    ensures Balanced(DecAll(s, holds), rest)
    ensures DecAll(s, holds).clients == s.clients && DecAll(s, holds).tasks == s.tasks
    ensures DecAll(s, holds).worker == s.worker
    decreases |holds|
  {
    if holds == [] {
      assert holds + rest == rest;
    } else {
      var h := holds[0];
      assert h in holds + rest;
      assert (holds + rest)[..0] + (holds + rest)[1..] == holds[1..] + rest;
      EraseUses(holds + rest, 0);
      assert Good(s.configs, h);
      DecBalances(s, holds + rest, holds[1..] + rest, h);
      DecEqualIsDecUse(s, h);
      DecAllBalances(DecEqual(s, h.snapper), holds[1..], rest);
    }
  }

  lemma {:induction false} HoldsErased(s: State, i: nat)
    requires i < |s.clients|
    ensures Holds(Erased(s, i)) == Around(s, i).0 + Around(s, i).1
  {
    HoldsConcat(s.clients[..i], s.clients[i + 1..]);
  }

  /** The holds of a destroyed client are still to be given back. */
  lemma {:induction false} ErasedBalances(s: State, i: nat)
    requires Inv(s) && i < |s.clients| && s.clients[i].call.Idle?
    ensures var m := Erased(s, i); Balanced(m, s.clients[i].comparisons + Holds(m))
  {
    var m := Erased(s, i);
    HoldsAround(s, i);
    HoldsErased(s, i);
    assert HoldsOf(s.clients[i]) == s.clients[i].comparisons;
    MovedUp(m, Around(s, i).0, s.clients[i].comparisons, Around(s, i).1);
  }

  lemma {:induction false} RemoveKeepsInv(s: State, name: nat)
    requires Inv(s)
    ensures Inv(RemoveStep(s, name))
  {
    if CanCall(s, name) && ClientOf(s, name).zombie {
      hide Balanced;
      var i := IndexOf(s.clients, name);
      var m := Erased(s, i);
      ErasedBalances(s, i);
      DecAllBalances(m, s.clients[i].comparisons, Holds(m));
    }
  }

  lemma {:induction false} MovedUp(s: State, a: seq<Hold>, m: seq<Hold>, b: seq<Hold>)
    requires Balanced(s, a + (m + b))
    ensures Balanced(s, m + (a + b))
  {
    forall c ensures Uses(m + (a + b), c) == Uses(a + (m + b), c) {
      UsesAround(a, m, b, c);
      UsesAround(m, a, b, c);
    }
  }

  lemma {:induction false} TaskKeepsInv(s: State, task: Hold)
    requires Inv(s) && Good(s.configs, task)
    ensures Inv(IncUse(s.(tasks := s.tasks + [task]), task.config))
  {
    hide Good, Addressed, AllGood, Counted, IncUse, Uses;
    var m := s.(tasks := s.tasks + [task]);
    TaskHeld(s, task);
    UsesAppend(Holds(s), task);
    assert Balanced(m, Holds(s));
    IncBalances(m, Holds(s), Holds(m), task);
    assert Holds(IncUse(m, task.config)) == Holds(m) by { UsesKeepHolds(m, task.config); }
  }

  lemma {:induction false} TaskHeld(s: State, task: Hold)
    requires s.worker.Done? ==> s.tasks != []
    ensures Holds(s.(tasks := s.tasks + [task])) == Holds(s) + [task]
  {
    assert Unfinished(s.(tasks := s.tasks + [task])) == Unfinished(s) + [task];
  }

  lemma {:induction false} UsesKeepHolds(s: State, c: string)
    ensures Holds(IncUse(s, c)) == Holds(s)
  {
  }

  lemma {:induction false} CreatePostKeepsInv(s: State, c: string, pre: nat, num: nat, background: bool)
    requires Inv(s)
    ensures Inv(CreatePostStep(s, c, pre, num, background))
  {
    CreateSnapshotKeepsInv(s, c, num);
    if IsLoaded(s, c) && FindNode(s.configs[c].snapper.value.nodes, pre).Some?
       && FindNode(s.configs[c].snapper.value.nodes, num).None? && background {
      var snapper := s.configs[c].snapper.value;
      TaskKeepsInv(CreateSnapshotStep(s, c, num), Hold(c, snapper.id, FindNode(snapper.nodes, pre), Some(s.unused)));
    }
  }

  lemma {:induction false} FinishTaskKeepsInv(s: State)
    requires Inv(s)
    ensures Inv(FinishTaskStep(s))
  {
    if s.worker.Working? && s.tasks != [] {
      var h := s.tasks[0];
      var m := s.(worker := Done);
      var a := HoldsOfAll(s.clients);
      assert h in Holds(s);
      assert s.tasks == [h] + s.tasks[1..];
      forall c ensures Uses(Holds(m), c) == Uses(Holds(s), c) - One(h, c) {
        UsesAround(a, [h], s.tasks[1..], c);
        UsesConcat(a, s.tasks[1..], c);
        UsesOne(h, c);
      }
      assert Balanced(m, Holds(s));
      DecBalances(m, Holds(s), Holds(m), h);
    }
  }

  // All runs

  lemma {:induction false} LockKeepsInv(s: State, name: nat, c: string)
    requires Inv(s)
    ensures Inv(LockStep(s, name, c)) && Inv(UnlockStep(s, name, c))
  {
    if CanCall(s, name) {
      var i, cl := IndexOf(s.clients, name), ClientOf(s, name);
      ClientKeepsInv(s, i, cl.(locks := Increment(cl.locks, c)));
      ClientKeepsInv(s, i, cl.(locks := Decrement(cl.locks, c)));
    }
  }

  lemma {:induction false} MountKeepsInv(s: State, name: nat, c: string, num: nat)
    requires Inv(s)
    ensures Inv(MountStep(s, name, c, num)) && Inv(UmountStep(s, name, c, num))
  {
    if CanCall(s, name) {
      var i, cl := IndexOf(s.clients, name), ClientOf(s, name);
      ClientKeepsInv(s, i, cl.(mounts := Increment(cl.mounts, (c, num))));
      ClientKeepsInv(s, i, cl.(mounts := Decrement(cl.mounts, (c, num))));
    }
  }

  lemma {:induction false} DisconnectKeepsInv(s: State, name: nat)
    requires Inv(s)
    ensures Inv(DisconnectStep(s, name))
  {
    if IndexOf(s.clients, name) < |s.clients| {
      ClientKeepsInv(s, IndexOf(s.clients, name), ClientOf(s, name).(zombie := true));
    }
  }

  /** The steps that leave the records of all clients alone. */
  predicate Quiet(a: Action) {
    && !a.Connect? && !a.RemoveZombie? && !a.LockConfig? && !a.UnlockConfig? && !a.MountSnapshot? && !a.UmountSnapshot?
  }

  /** Quiet steps of clients; the other quiet steps are on configs and tasks. */
  predicate ForClient(a: Action) {
    a.Disconnect? || a.BeginComparison? || a.BeginUse? || a.EndCall? || a.DeleteComparison?
  }

  lemma {:induction false} LoudStepKeepsInv(s: State, a: Action)
    requires Inv(s) && !Quiet(a)
    ensures Inv(Step(s, a))
  {
    hide Inv;
    match a
    case Connect(name) => ConnectKeepsInv(s, name);
    case RemoveZombie(name) => RemoveKeepsInv(s, name);
    case LockConfig(name, c) => LockKeepsInv(s, name, c);
    case UnlockConfig(name, c) => LockKeepsInv(s, name, c);
    case MountSnapshot(name, c, num) => MountKeepsInv(s, name, c, num);
    case UmountSnapshot(name, c, num) => MountKeepsInv(s, name, c, num);
  }

  lemma {:induction false} ClientStepKeepsInv(s: State, a: Action)
    requires Inv(s) && ForClient(a)
    ensures Inv(Step(s, a))
  {
    hide Inv;
    match a
    case Disconnect(name) => DisconnectKeepsInv(s, name);
    case BeginComparison(name, c, num1, num2) => BeginComparisonKeepsInv(s, name, c, num1, num2);
    case BeginUse(name, c) => BeginUseKeepsInv(s, name, c);
    case EndCall(name, failed) => EndCallKeepsInv(s, name, failed);
    case DeleteComparison(name, c, num1, num2) => DeleteComparisonKeepsInv(s, name, c, num1, num2);
  }

  lemma {:induction false} ConfigStepKeepsInv(s: State, a: Action)
    requires Inv(s) && Quiet(a) && !ForClient(a)
    ensures Inv(Step(s, a))
  {
    hide Inv;
    match a
    case CreateConfig(c) => CreateConfigKeepsInv(s, c);
    case DeleteConfig(name, c) => DeleteConfigKeepsInv(s, name, c);
    case Load(c, nodes) => LoadKeepsInv(s, c, nodes);
    case Unload(c) => UnloadKeepsInv(s, c);
    case CreateSnapshot(c, num) => CreateSnapshotKeepsInv(s, c, num);
    case CreatePostSnapshot(c, pre, num, background) => CreatePostKeepsInv(s, c, pre, num, background);
    case DeleteSnapshots(name, c, nums, refused) => DeleteSnapshotsKeepsInv(s, name, c, nums, refused);
    case FinishTask => FinishTaskKeepsInv(s);
    case PopTask => PopTaskKeepsInv(s);
  }

  lemma {:induction false} StepKeepsInv(s: State, a: Action)
    requires Inv(s)
    ensures Inv(Step(s, a))
  {
    hide *;
    if !Quiet(a) {
      LoudStepKeepsInv(s, a);
    } else if ForClient(a) {
      ClientStepKeepsInv(s, a);
    } else {
      ConfigStepKeepsInv(s, a);
    }
  }

  lemma {:induction false} PopTaskKeepsInv(s: State)
    requires Inv(s)
    ensures Inv(PopTaskStep(s))
  {
    assert Holds(PopTaskStep(s)) == Holds(s);
  }

  /**
   In every reachable state the use count of a config is the number of comparisons, running methods and unfinished
   tasks that hold it, everything they hold is loaded and listed, and no assertion has failed.
   */
  lemma {:induction false} RunsAreSafe(actions: seq<Action>)
    ensures Inv(Run(actions))
  {
    if actions != [] {
      RunsAreSafe(actions[..|actions| - 1]);
      StepKeepsInv(Run(actions[..|actions| - 1]), actions[|actions| - 1]);
    }
  }

  /** Nothing leaks: once nothing holds a config, it can be unloaded, and its snapshots and itself deleted. */
  lemma {:induction false} NothingLeaks(actions: seq<Action>, c: string)
    requires c in Run(actions).configs && forall h | h in Holds(Run(actions)) :: h.config != c
    ensures Run(actions).configs[c].count == 0
  {
    RunsAreSafe(actions);
    NoUses(Holds(Run(actions)), c);
  }

  // Locks and mounts

  /** What a client can have recorded: a lock on a config, or a mount of a snapshot. */
  datatype Key = Locked(config: string) | MountOf(config: string, num: nat)

  function Get<K>(m: map<K, nat>, k: K): nat { if k in m then m[k] else 0 }

  function Recorded(cl: Client, key: Key): nat {
    match key
    case Locked(c) => Get(cl.locks, c)
    case MountOf(c, num) => Get(cl.mounts, (c, num))
  }

  ghost function RecordOf(clients: seq<Client>, name: nat, key: Key): nat {
    var i := IndexOf(clients, name);
    if i < |clients| then Recorded(clients[i], key) else 0
  }

  predicate Connected(s: State, name: nat) {
    IndexOf(s.clients, name) < |s.clients|
  }

  /** A call that records a key for a client, and that the daemon carries out. */
  ghost predicate Records(s: State, a: Action, name: nat, key: Key) {
    && CanCall(s, name)
    && match a
       case LockConfig(who, c) => who == name && key == Locked(c) && c in s.configs
       case MountSnapshot(who, c, num) => who == name && key == MountOf(c, num) && HasSnapshot(s, c, num)
       case _ => false
  }

  ghost predicate Unrecords(s: State, a: Action, name: nat, key: Key) {
    && CanCall(s, name)
    && match a
       case UnlockConfig(who, c) => who == name && key == Locked(c) && c in s.configs
       case UmountSnapshot(who, c, num) => who == name && key == MountOf(c, num) && HasSnapshot(s, c, num)
       case _ => false
  }

  ghost predicate HasSnapshot(s: State, c: string, num: nat) {
    IsLoaded(s, c) && FindNode(s.configs[c].snapper.value.nodes, num).Some?
  }

  ghost function Next(s: State, a: Action, name: nat, key: Key, n: nat): nat {
    if Records(s, a, name, key) then n + 1 else if Unrecords(s, a, name, key) && n > 0 then n - 1 else n
  }

  /** The calls for a key that no later call has taken back, of the client that is connected now. */
  ghost function NetCalls(actions: seq<Action>, name: nat, key: Key): nat {
    if actions == [] || !Connected(Run(actions), name) then 0
    else
      var past := actions[..|actions| - 1];
      Next(Run(past), actions[|actions| - 1], name, key, NetCalls(past, name, key))
  }

  /** Names are not shared and every record counts. */
  ghost predicate Named(clients: seq<Client>) {
    && (forall i, j | 0 <= i < j < |clients| :: clients[i].name != clients[j].name)
    && (forall i | 0 <= i < |clients| :: Positive(clients[i]))
  }

  ghost predicate Positive(cl: Client) {
    (forall c | c in cl.locks :: cl.locks[c] > 0) && forall k | k in cl.mounts :: cl.mounts[k] > 0
  }

  lemma {:induction false} IndexOfUnique(clients: seq<Client>, i: nat)
    requires i < |clients| && forall j | 0 <= j < i :: clients[j].name != clients[i].name
    ensures IndexOf(clients, clients[i].name) == i
  {
    if i > 0 { IndexOfUnique(clients[1..], i - 1); }
  }

  /** What a step does to the record of a client. */
  ghost predicate Follows(s: State, a: Action, name: nat, key: Key) {
    var r := Step(s, a);
    RecordOf(r.clients, name, key) ==
    if !Connected(r, name) then 0 else Next(s, a, name, key, RecordOf(s.clients, name, key))
  }

  lemma {:induction false} IndexAfterReplace(clients: seq<Client>, i: nat, cl: Client, name: nat)
    requires i < |clients| && cl.name == clients[i].name
    ensures IndexOf(clients[i := cl], name) == IndexOf(clients, name)
  {
    if i == 0 {
      assert clients[i := cl][1..] == clients[1..];
    } else {
      assert clients[i := cl][1..] == clients[1..][i - 1 := cl];
      IndexAfterReplace(clients[1..], i - 1, cl, name);
    }
  }

  lemma {:induction false} IndexAfterAppend(clients: seq<Client>, cl: Client, name: nat)
    ensures IndexOf(clients + [cl], name) ==
            if IndexOf(clients, name) < |clients| then IndexOf(clients, name)
            else if cl.name == name then |clients| else |clients| + 1
  {
    if clients == [] {
      assert clients + [cl] == [cl] && [cl][1..] == [];
    } else {
      assert (clients + [cl])[1..] == clients[1..] + [cl];
      IndexAfterAppend(clients[1..], cl, name);
    }
  }

  lemma {:induction false} IndexIs(clients: seq<Client>, name: nat, k: nat)
    requires k <= |clients| && (k < |clients| ==> clients[k].name == name)
    requires forall j | 0 <= j < k :: clients[j].name != name
    ensures IndexOf(clients, name) == k
  {
    if k < |clients| { IndexOfUnique(clients, k); }
  }

  lemma {:induction false} NamedOnce(clients: seq<Client>, i: nat, j: nat)
    requires Named(clients) && i < |clients| && j < |clients| && clients[i].name == clients[j].name
    ensures i == j
  {
  }

  lemma {:induction false} IndexAfterErase(clients: seq<Client>, i: nat, name: nat)
    requires Named(clients) && i < |clients|
    ensures var k := IndexOf(clients, name);
            IndexOf(clients[..i] + clients[i + 1..], name) ==
            if k == i then |clients| - 1 else if k > i then k - 1 else k
  {
    hide Named;
    var r, k := clients[..i] + clients[i + 1..], IndexOf(clients, name);
    var m := if k == i then |clients| - 1 else if k > i then k - 1 else k;
    forall j | 0 <= j < m ensures r[j].name != name {
      var at := if j < i then j else j + 1;
      assert r[j] == clients[at];
      if clients[at].name == name && k < |clients| { NamedOnce(clients, at, k); }
    }
    IndexIs(r, name, m);
  }

  lemma {:induction false} RecordAfterErase(clients: seq<Client>, i: nat, name: nat, key: Key)
    requires Named(clients) && i < |clients|
    ensures RecordOf(clients[..i] + clients[i + 1..], name, key) ==
            if name == clients[i].name then 0 else RecordOf(clients, name, key)
  {
    IndexAfterErase(clients, i, name);
    IndexOfUnique(clients, i);
  }

  ghost predicate SameRecords(before: seq<Client>, now: seq<Client>) {
    |before| == |now| &&
    forall i | 0 <= i < |before| ::
      before[i].name == now[i].name && before[i].locks == now[i].locks && before[i].mounts == now[i].mounts
  }

  lemma {:induction false} ConfigStep(s: State, a: Action)
    requires Quiet(a) && !ForClient(a)
    ensures Step(s, a).clients == s.clients
  {
  }

  lemma {:induction false} ClientStep(s: State, a: Action)
    requires ForClient(a)
    ensures SameRecords(s.clients, Step(s, a).clients)
  {
    hide SameRecords;
    match a
    case Disconnect(name) => DisconnectRecords(s, name);
    case BeginComparison(name, c, num1, num2) => BeginRecords(s, name, c, num1, num2);
    case BeginUse(name, c) => BeginRecords(s, name, c, 0, 0);
    case EndCall(name, failed) => EndCallRecords(s, name, failed);
    case DeleteComparison(name, c, num1, num2) => DeleteComparisonRecords(s, name, c, num1, num2);
  }

  lemma {:induction false} DisconnectRecords(s: State, name: nat)
    ensures SameRecords(s.clients, DisconnectStep(s, name).clients)
  {
  }

  lemma {:induction false} BeginRecords(s: State, name: nat, c: string, num1: nat, num2: nat)
    ensures SameRecords(s.clients, BeginComparisonStep(s, name, c, num1, num2).clients)
    ensures SameRecords(s.clients, BeginUseStep(s, name, c).clients)
  {
  }

  lemma {:induction false} ClientKeepsRecords(s: State, name: nat, cl: Client)
    requires IndexOf(s.clients, name) < |s.clients|
    requires var was := ClientOf(s, name); cl.name == was.name && cl.locks == was.locks && cl.mounts == was.mounts
    ensures SameRecords(s.clients, WithClient(s, name, cl).clients)
  {
  }

  lemma {:induction false} EndCallRecords(s: State, name: nat, failed: bool)
    ensures SameRecords(s.clients, EndCallStep(s, name, failed).clients)
  {
    var i := IndexOf(s.clients, name);
    if i < |s.clients| && !s.clients[i].call.Idle? {
      hide IncUse, DecUse, WithClient, SameRecords, Good;
      var cl := s.clients[i];
      var h := cl.call.hold;
      var used := s.(crashed := s.crashed || !Good(s.configs, h));
      var given, kept := cl.(call := Idle), cl.(comparisons := cl.comparisons + [h], call := Idle);
      ClientKeepsRecords(used, name, given);
      ClientKeepsRecords(used, name, kept);
      UsesLeaveClients(WithClient(used, name, kept), h.config);
      UsesLeaveClients(IncUse(WithClient(used, name, kept), h.config), h.config);
      UsesLeaveClients(WithClient(used, name, given), h.config);
    }
  }

  lemma {:induction false} UsesLeaveClients(s: State, c: string)
    ensures IncUse(s, c).clients == s.clients && DecUse(s, c).clients == s.clients
  {
  }

  lemma {:induction false} DecEqualClients(s: State, id: nat)
    ensures DecEqual(s, id).clients == s.clients
  {
  }

  lemma {:induction false} DeleteComparisonRecords(s: State, name: nat, c: string, num1: nat, num2: nat)
    ensures SameRecords(s.clients, DeleteComparisonStep(s, name, c, num1, num2).clients)
  {
    if CanCall(s, name) && IsLoaded(s, c) {
      hide SameRecords, FindNode, DecEqual, WithClient;
      var snapper, cl := s.configs[c].snapper.value, ClientOf(s, name);
      var k := IndexOfComparison(cl.comparisons, snapper.id, FindNode(snapper.nodes, num1),
                                 FindNode(snapper.nodes, num2));
      ClientKeepsRecords(s, name, cl);
      if k < |cl.comparisons| {
        var left := cl.(comparisons := cl.comparisons[..k] + cl.comparisons[k + 1..]);
        ClientKeepsRecords(s, name, left);
        DecEqualClients(WithClient(s, name, left), snapper.id);
      } else {
        SameAsBefore(s.clients);
      }
    } else {
      SameAsBefore(s.clients);
    }
  }

  lemma {:induction false} SameAsBefore(clients: seq<Client>)
    ensures SameRecords(clients, clients)
  {
  }

  lemma {:induction false} QuietStep(s: State, a: Action)
    requires Quiet(a)
    ensures SameRecords(s.clients, Step(s, a).clients)
  {
    if ForClient(a) { ClientStep(s, a); } else { ConfigStep(s, a); }
  }

  lemma {:induction false} SameRecordOf(a: seq<Client>, b: seq<Client>, name: nat, key: Key)
    requires SameRecords(a, b)
    ensures RecordOf(a, name, key) == RecordOf(b, name, key)
    ensures Named(a) ==> Named(b)
  {
    var i := IndexOf(a, name);
    if i < |a| { IndexOfUnique(b, i); }
    var j := IndexOf(b, name);
    assert j < |b| ==> a[j].name == name;
    if Named(a) {
      forall i, j | 0 <= i < j < |b| ensures b[i].name != b[j].name { assert a[i].name != a[j].name; }
      forall i | 0 <= i < |b| ensures Positive(b[i]) { assert Positive(a[i]); }
    }
  }

  lemma {:induction false} DecAllClients(s: State, holds: seq<Hold>)
    ensures DecAll(s, holds).clients == s.clients && DecAll(s, holds).thrown == s.thrown
    decreases |holds|
  {
    if holds != [] { DecAllClients(DecEqual(s, holds[0].snapper), holds[1..]); }
  }

  lemma {:induction false} RecordReplaced(clients: seq<Client>, i: nat, cl: Client, name: nat, key: Key)
    requires i < |clients| && cl.name == clients[i].name && i == IndexOf(clients, cl.name)
    ensures RecordOf(clients[i := cl], name, key) ==
            if name == cl.name then Recorded(cl, key) else RecordOf(clients, name, key)
    ensures IndexOf(clients[i := cl], name) == IndexOf(clients, name)
    ensures Named(clients) && Positive(cl) ==> Named(clients[i := cl])
  {
    IndexAfterReplace(clients, i, cl, name);
  }

  lemma {:induction false} NamedErased(clients: seq<Client>, i: nat)
    requires Named(clients) && i < |clients|
    ensures Named(clients[..i] + clients[i + 1..])
  {
    var r := clients[..i] + clients[i + 1..];
    assert forall j | 0 <= j < |r| :: r[j] == if j < i then clients[j] else clients[j + 1];
  }

  lemma {:induction false} Counting<K>(m: map<K, nat>, c: K)
    requires forall e | e in m :: m[e] > 0
    ensures forall e | e in Increment(m, c) :: Increment(m, c)[e] > 0
    ensures forall e | e in Decrement(m, c) :: Decrement(m, c)[e] > 0
    ensures forall e :: Get(Increment(m, c), e) == if e == c then Get(m, e) + 1 else Get(m, e)
    ensures forall e :: Get(Decrement(m, c), e) == if e == c && Get(m, e) > 0 then Get(m, e) - 1 else Get(m, e)
  {
  }

  lemma {:induction false} ConnectFollows(s: State, who: nat, name: nat, key: Key)
    requires Named(s.clients)
    ensures Named(Step(s, Connect(who)).clients) && Follows(s, Connect(who), name, key)
  {
    var cl := Client(who, false, [], map[], map[], Idle);
    if !Connected(s, who) {
      NamedAppended(s.clients, cl);
      IndexAfterAppend(s.clients, cl, name);
    }
  }

  lemma {:induction false} NamedAppended(clients: seq<Client>, cl: Client)
    requires Named(clients) && Positive(cl) && IndexOf(clients, cl.name) == |clients|
    ensures Named(clients + [cl])
  {
  }

  lemma {:induction false} ErasedIsGone(clients: seq<Client>, i: nat)
    requires Named(clients) && i < |clients|
    ensures IndexOf(clients[..i] + clients[i + 1..], clients[i].name) == |clients| - 1
  {
    IndexAfterErase(clients, i, clients[i].name);
    IndexOfUnique(clients, i);
  }

  lemma {:induction false} RemoveFollows(s: State, who: nat, name: nat, key: Key)
    requires Named(s.clients)
    ensures Named(Step(s, RemoveZombie(who)).clients) && Follows(s, RemoveZombie(who), name, key)
  {
    hide Named;
    if CanCall(s, who) && ClientOf(s, who).zombie {
      hide DecAll;
      var i := IndexOf(s.clients, who);
      DecAllClients(Erased(s, i), s.clients[i].comparisons);
      RecordAfterErase(s.clients, i, name, key);
      NamedErased(s.clients, i);
      ErasedIsGone(s.clients, i);
    }
  }

  /** A step that replaces the records of one client. */
  lemma {:induction false} ReplaceFollows(s: State, a: Action, who: nat, cl: Client, name: nat, key: Key)
    requires Named(s.clients) && Connected(s, who) && cl.name == who && Positive(cl)
    requires Step(s, a) == WithClient(s, who, cl)
    requires Next(s, a, name, key, RecordOf(s.clients, name, key)) ==
             if name == who then Recorded(cl, key) else RecordOf(s.clients, name, key)
    ensures Named(Step(s, a).clients) && Follows(s, a, name, key)
  {
    hide Step, Next, Named;
    RecordReplaced(s.clients, IndexOf(s.clients, who), cl, name, key);
  }

  lemma {:induction false} LockFollows(s: State, who: nat, config: string, name: nat, key: Key)
    requires Named(s.clients)
    ensures Named(Step(s, LockConfig(who, config)).clients) && Follows(s, LockConfig(who, config), name, key)
  {
    if CanCall(s, who) && config in s.configs {
      var cl := ClientOf(s, who);
      assert Positive(cl);
      hide Named, Follows;
      Counting(cl.locks, config);
      ReplaceFollows(s, LockConfig(who, config), who, cl.(locks := Increment(cl.locks, config)), name, key);
    }
  }

  lemma {:induction false} UnlockFollows(s: State, who: nat, config: string, name: nat, key: Key)
    requires Named(s.clients)
    ensures Named(Step(s, UnlockConfig(who, config)).clients) && Follows(s, UnlockConfig(who, config), name, key)
  {
    if CanCall(s, who) && config in s.configs {
      var cl := ClientOf(s, who);
      assert Positive(cl);
      hide Named, Follows;
      Counting(cl.locks, config);
      ReplaceFollows(s, UnlockConfig(who, config), who, cl.(locks := Decrement(cl.locks, config)), name, key);
    }
  }

  lemma {:induction false} MountFollows(s: State, who: nat, config: string, num: nat, name: nat, key: Key)
    requires Named(s.clients)
    ensures Named(Step(s, MountSnapshot(who, config, num)).clients)
    ensures Follows(s, MountSnapshot(who, config, num), name, key)
  {
    if CanCall(s, who) && HasSnapshot(s, config, num) {
      var cl := ClientOf(s, who);
      assert Positive(cl);
      hide Named, Follows;
      Counting(cl.mounts, (config, num));
      var mounts := Increment(cl.mounts, (config, num));
      ReplaceFollows(s, MountSnapshot(who, config, num), who, cl.(mounts := mounts), name, key);
    }
  }

  lemma {:induction false} UmountFollows(s: State, who: nat, config: string, num: nat, name: nat, key: Key)
    requires Named(s.clients)
    ensures Named(Step(s, UmountSnapshot(who, config, num)).clients)
    ensures Follows(s, UmountSnapshot(who, config, num), name, key)
  {
    if CanCall(s, who) && HasSnapshot(s, config, num) {
      var cl := ClientOf(s, who);
      assert Positive(cl);
      hide Named, Follows;
      Counting(cl.mounts, (config, num));
      var mounts := Decrement(cl.mounts, (config, num));
      ReplaceFollows(s, UmountSnapshot(who, config, num), who, cl.(mounts := mounts), name, key);
    }
  }

  lemma {:induction false} QuietFollows(s: State, a: Action, name: nat, key: Key)
    requires Named(s.clients) && Quiet(a) && SameRecords(s.clients, Step(s, a).clients)
    ensures Named(Step(s, a).clients) && Follows(s, a, name, key)
  {
    SameRecordOf(s.clients, Step(s, a).clients, name, key);
  }

  lemma {:induction false} StepFollows(s: State, a: Action, name: nat, key: Key)
    requires Named(s.clients)
    ensures Named(Step(s, a).clients) && Follows(s, a, name, key)
  {
    hide Named, Follows;
    match a
    case Connect(who) => ConnectFollows(s, who, name, key);
    case RemoveZombie(who) => RemoveFollows(s, who, name, key);
    case LockConfig(who, config) => LockFollows(s, who, config, name, key);
    case UnlockConfig(who, config) => UnlockFollows(s, who, config, name, key);
    case MountSnapshot(who, config, num) => MountFollows(s, who, config, num, name, key);
    case UmountSnapshot(who, config, num) => UmountFollows(s, who, config, num, name, key);
    case _ =>
      QuietStep(s, a);
      QuietFollows(s, a, name, key);
  }

  /** The locks and mounts that are recorded are the calls that were made and not taken back. */
  lemma {:induction false} RecordsAreCalls(actions: seq<Action>, name: nat, key: Key)
    ensures Named(Run(actions).clients) && RecordOf(Run(actions).clients, name, key) == NetCalls(actions, name, key)
  {
    if actions != [] {
      var past := actions[..|actions| - 1];
      RecordsAreCalls(past, name, key);
      StepFollows(Run(past), actions[|actions| - 1], name, key);
    }
  }

  lemma {:induction false} RecordAt(actions: seq<Action>, k: nat, key: Key)
    requires k < |Run(actions).clients|
    ensures Recorded(Run(actions).clients[k], key) == NetCalls(actions, Run(actions).clients[k].name, key)
    ensures Positive(Run(actions).clients[k])
  {
    RecordsAreCalls(actions, Run(actions).clients[k].name, key);
    IndexOfUnique(Run(actions).clients, k);
  }

  /**
   Whenever DeleteConfig deletes the config or DeleteSnapshots any snapshot, no other client that is alive has called
   LockConfig more often than UnlockConfig, and no client at all has mounted a snapshot that goes more often than
   unmounted it.
   */
  lemma {:induction false} LocksProtect(actions: seq<Action>, a: Action)
    requires a.DeleteConfig? || a.DeleteSnapshots?
    requires Step(Run(actions), a) != Run(actions)
    ensures forall cl | cl in Run(actions).clients && cl.name != a.client && !cl.zombie ::
              NetCalls(actions, cl.name, Locked(a.config)) == 0
    ensures forall cl, num | cl in Run(actions).clients && Gone(Run(actions), a, num) ::
              NetCalls(actions, cl.name, MountOf(a.config, num)) == 0
  {
    var s := Run(actions);
    forall cl | cl in s.clients && cl.name != a.client && !cl.zombie
      ensures NetCalls(actions, cl.name, Locked(a.config)) == 0
    {
      var k :| 0 <= k < |s.clients| && s.clients[k] == cl;
      RecordAt(actions, k, Locked(a.config));
    }
    forall cl, num | cl in s.clients && Gone(s, a, num)
      ensures NetCalls(actions, cl.name, MountOf(a.config, num)) == 0
    {
      var k :| 0 <= k < |s.clients| && s.clients[k] == cl;
      RecordAt(actions, k, MountOf(a.config, num));
      DeleteNumsShrinks(s.clients, a.config, s.configs[a.config].snapper.value.nodes, a.nums, a.refused);
      assert !Mounted(s.clients, a.config, num);
    }
  }

  /** DeleteSnapshots takes a snapshot with that number from the list. */
  ghost predicate Gone(s: State, a: Action, num: nat) {
    && a.DeleteSnapshots? && IsLoaded(s, a.config) && IsLoaded(Step(s, a), a.config)
    && exists n :: n in s.configs[a.config].snapper.value.nodes && s.configs[a.config].snapper.value.nodes[n] == num
                   && n !in Step(s, a).configs[a.config].snapper.value.nodes
  }

  // Destroying clients

  /** A step that destroys a client with a recorded mount of a config that is gone. */
  ghost predicate Throws(s: State, a: Action) {
    a.RemoveZombie? && CanCall(s, a.client) && ClientOf(s, a.client).zombie && MountLost(s, ClientOf(s, a.client))
  }

  lemma {:induction false} LoudThrows(s: State, a: Action)
    requires !Quiet(a)
    ensures Step(s, a).thrown <==> s.thrown || Throws(s, a)
  {
    if a.RemoveZombie? && CanCall(s, a.client) && ClientOf(s, a.client).zombie {
      hide DecAll, MountLost;
      var i := IndexOf(s.clients, a.client);
      DecAllClients(Erased(s, i), s.clients[i].comparisons);
    }
  }

  lemma {:induction false} EndCallThrows(s: State, name: nat, failed: bool)
    ensures EndCallStep(s, name, failed).thrown == s.thrown
  {
    hide Good;
  }

  lemma {:induction false} ClientThrows(s: State, a: Action)
    requires ForClient(a)
    ensures Step(s, a).thrown == s.thrown
  {
    hide Good, EndCallStep, DecEqual, FindNode;
    match a
    case EndCall(name, failed) => EndCallThrows(s, name, failed);
    case DeleteComparison(name, c, num1, num2) => DeleteComparisonThrows(s, name, c, num1, num2);
    case _ =>
  }

  lemma {:induction false} DeleteComparisonThrows(s: State, name: nat, c: string, num1: nat, num2: nat)
    ensures DeleteComparisonStep(s, name, c, num1, num2).thrown == s.thrown
  {
    hide FindNode;
  }

  lemma {:induction false} ConfigThrows(s: State, a: Action)
    requires Quiet(a) && !ForClient(a)
    ensures Step(s, a).thrown == s.thrown
  {
    hide Good;
  }

  lemma {:induction false} StepThrows(s: State, a: Action)
    ensures Step(s, a).thrown <==> s.thrown || Throws(s, a)
  {
    hide Step, MountLost, CanCall;
    if !Quiet(a) {
      LoudThrows(s, a);
    } else if ForClient(a) {
      ClientThrows(s, a);
    } else {
      ConfigThrows(s, a);
    }
  }

  ghost predicate ThrowsAt(actions: seq<Action>, k: nat)
    requires k < |actions|
  {
    Throws(Run(actions[..k]), actions[k])
  }

  /** In every run an exception leaves a destructor exactly if some step destroys a client with a lost mount. */
  lemma {:induction false} ThrowsExactly(actions: seq<Action>)
    ensures Run(actions).thrown <==> exists k :: 0 <= k < |actions| && ThrowsAt(actions, k)
  {
    hide Step, Throws;
    if actions != [] {
      var n := |actions| - 1;
      var past := actions[..n];
      assert Run(actions) == Step(Run(past), actions[n]);
      hide Run;
      ThrowsExactly(past);
      StepThrows(Run(past), actions[n]);
      forall k | 0 <= k < n ensures ThrowsAt(actions, k) == ThrowsAt(past, k) { assert actions[..k] == past[..k]; }
      assert ThrowsAt(actions, n) == Throws(Run(past), actions[n]);
    }
  }

  lemma {:induction false} MountedIff(actions: seq<Action>, name: nat, c: string, num: nat)
    requires IndexOf(Run(actions).clients, name) < |Run(actions).clients|
    ensures NetCalls(actions, name, MountOf(c, num)) > 0 <==> (c, num) in ClientOf(Run(actions), name).mounts
  {
    RecordAt(actions, IndexOf(Run(actions).clients, name), MountOf(c, num));
  }

  /**
   Destroying a client is safe exactly if every config still exists of which it has called MountSnapshot more often than
   UmountSnapshot.
   */
  lemma {:induction false} DestroyIsSafe(actions: seq<Action>, name: nat)
    requires CanCall(Run(actions), name) && ClientOf(Run(actions), name).zombie
    ensures !Throws(Run(actions), RemoveZombie(name)) <==>
            forall c, num: nat | NetCalls(actions, name, MountOf(c, num)) > 0 :: c in Run(actions).configs
  {
    hide Run, NetCalls;
    var s, cl := Run(actions), ClientOf(Run(actions), name);
    forall c, num: nat ensures NetCalls(actions, name, MountOf(c, num)) > 0 <==> (c, num) in cl.mounts {
      MountedIff(actions, name, c, num);
    }
    if k :| k in cl.mounts && k.0 !in s.configs {
      assert NetCalls(actions, name, MountOf(k.0, k.1)) > 0;
    }
  }

  /** A client has mounted a snapshot, and another client deletes the config: destroying the first one throws. */
  lemma {:induction false} MountCanBeLost(c: string, num: nat)
    ensures Run([CreateConfig(c), Load(c, map[1 := num]), Connect(1), MountSnapshot(1, c, num), Connect(2),
                 DeleteConfig(2, c), Disconnect(1), RemoveZombie(1)]).thrown
  {
    hide Run, Step;
    var mounted := [CreateConfig(c), Load(c, map[1 := num]), Connect(1), MountSnapshot(1, c, num)];
    var a5, a6 := mounted + [Connect(2)], mounted + [Connect(2)] + [DeleteConfig(2, c)];
    AfterMount(c, num);
    RunOn(mounted, Connect(2));
    RunOn(a5, DeleteConfig(2, c));
    RunOn(a6, Disconnect(1));
    RunOn(a6 + [Disconnect(1)], RemoveZombie(1));
    AfterDeletion(Run(mounted), c, num);
    StepThrows(Run(a6 + [Disconnect(1)]), RemoveZombie(1));
    assert a6 + [Disconnect(1)] + [RemoveZombie(1)] ==
           [CreateConfig(c), Load(c, map[1 := num]), Connect(1), MountSnapshot(1, c, num), Connect(2),
            DeleteConfig(2, c), Disconnect(1), RemoveZombie(1)];
  }

  lemma {:induction false} RunOn(actions: seq<Action>, a: Action)
    ensures Run(actions + [a]) == Step(Run(actions), a)
  {
    hide Step;
    assert (actions + [a])[..|actions|] == actions;
  }

  /** One client, with one mount of a config that nothing uses. */
  ghost predicate HasMount(s: State, c: string, num: nat) {
    && s.clients == [Client(1, false, [], map[], map[(c, num) := 1], Idle)]
    && c in s.configs && s.configs[c].count == 0
  }

  lemma {:induction false} AfterLoad(c: string, num: nat)
    ensures var s := Step(Step(START, CreateConfig(c)), Load(c, map[1 := num]));
            && s.clients == [] && IsLoaded(s, c) && s.configs[c].count == 0
            && s.configs[c].snapper.value.nodes == map[1 := num]
  {
    hide Bound;
    var s := Step(START, CreateConfig(c));
    assert c in s.configs && s.configs[c] == Config(None, 0) && s.unused == 0;
  }

  lemma {:induction false} MountAfterLoad(s: State, c: string, num: nat)
    requires s.clients == [] && IsLoaded(s, c) && s.configs[c].count == 0
    requires s.configs[c].snapper.value.nodes == map[1 := num]
    ensures HasMount(Step(Step(s, Connect(1)), MountSnapshot(1, c, num)), c, num)
  {
    var one := Client(1, false, [], map[], map[], Idle);
    assert Step(s, Connect(1)).clients == [one] && IndexOf([one], 1) == 0;
    assert FindNode(map[1 := num], num).Some? by { assert 1 in map[1 := num]; }
    assert [one][0 := one.(mounts := map[(c, num) := 1])] == [one.(mounts := map[(c, num) := 1])];
  }

  lemma {:induction false} AfterMount(c: string, num: nat)
    ensures HasMount(Run([CreateConfig(c), Load(c, map[1 := num]), Connect(1), MountSnapshot(1, c, num)]), c, num)
  {
    assert Run([]) == START;
    hide Run, Step, HasMount, IsLoaded;
    var a1, a2, a3 := [CreateConfig(c)], [CreateConfig(c), Load(c, map[1 := num])],
                      [CreateConfig(c), Load(c, map[1 := num]), Connect(1)];
    assert [] + a1 == a1 && a1 + [Load(c, map[1 := num])] == a2 && a2 + [Connect(1)] == a3;
    assert a3 + [MountSnapshot(1, c, num)] ==
           [CreateConfig(c), Load(c, map[1 := num]), Connect(1), MountSnapshot(1, c, num)];
    RunOn([], CreateConfig(c));
    RunOn(a1, Load(c, map[1 := num]));
    RunOn(a2, Connect(1));
    RunOn(a3, MountSnapshot(1, c, num));
    AfterLoad(c, num);
    MountAfterLoad(Run(a2), c, num);
  }

  lemma {:induction false} AfterDeletion(s: State, c: string, num: nat)
    requires HasMount(s, c, num)
    ensures Throws(Step(Step(Step(s, Connect(2)), DeleteConfig(2, c)), Disconnect(1)), RemoveZombie(1))
  {
    var one, two := s.clients[0], Client(2, false, [], map[], map[], Idle);
    var s1 := Step(s, Connect(2));
    assert s1.clients == [one, two];
    IndexOfUnique([one, two], 1);
    IndexOfUnique([one, two], 0);
    assert CanCall(s1, 2) && !LockedByOther(s1.clients, 2, c);
    var s2 := Step(s1, DeleteConfig(2, c));
    assert s2.clients == [one, two] && c !in s2.configs;
    var s3 := Step(s2, Disconnect(1));
    assert s3.clients == [one.(zombie := true), two];
    IndexOfUnique(s3.clients, 0);
    assert (c, num) in one.mounts;
  }
}
