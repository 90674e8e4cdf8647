/**
 The command that undoes the difference of two snapshots (client/snapper/cmd-undochange.cc): compare, select the files
 that were named or all of them (client/snapper/MyFiles.cc), and run the undo steps in order.
 */
module UndoChange {
  import opened Wrappers
  import opened Trees
  import opened Files
  import Compare
  import Comparison
  import Order
  import Undo
  import UndoPlan

  // Selecting

  /** Files whose names are given, or all. */
  predicate Wanted(names: Option<seq<string>>, name: string) {
    names.None? || name in names.value
  }

  function Marked(files: seq<File>, names: Option<seq<string>>): seq<File> {
    seq(|files|, i requires 0 <= i < |files| => files[i].(undo := Wanted(names, files[i].name)))
  }

  predicate HasName(files: seq<File>, name: string) {
    exists i :: 0 <= i < |files| && files[i].name == name
  }

  /** Looks up every name that was given; a name that is not in the list ends the command. */
  method Mark(files: seq<File>, names: Option<seq<string>>) returns (r: Result<seq<File>>)
    requires Order.StrictlySorted(files, NameOf) && forall f | f in files :: !f.undo
    ensures r.Err? <==> names.Some? && exists k :: 0 <= k < |names.value| && !HasName(files, names.value[k])
    ensures r.Ok? ==> r.value == Marked(files, names)
  {
    if names.None? {
      return Ok(Marked(files, None));
    }
    var all := files;
    NoneMarked(files);
    for k := 0 to |names.value|
      invariant all == Marked(files, Some(names.value[..k]))
      invariant forall j | 0 <= j < k :: HasName(files, names.value[j])
    {
      var name := names.value[k];
      FindExact(files, name);
      var found := Find(files, name);
      if found.None? { return Err; }
      MarkNext(files, names.value[..k], name, found.value);
      assert names.value[..k + 1] == names.value[..k] + [name];
      all := all[found.value := all[found.value].(undo := true)];
    }
    assert names.value[..|names.value|] == names.value;
    return Ok(all);
  }

  lemma {:induction false} NoneMarked(files: seq<File>)
    requires forall f | f in files :: !f.undo
    ensures Marked(files, Some([])) == files
  {
    forall i | 0 <= i < |files| ensures Marked(files, Some([]))[i] == files[i] { assert files[i] in files; }
  }

  lemma {:induction false} MarkNext(files: seq<File>, names: seq<string>, name: string, k: nat)
    requires Order.StrictlySorted(files, NameOf) && k < |files| && files[k].name == name
    ensures var all := Marked(files, Some(names));
            Marked(files, Some(names + [name])) == all[k := all[k].(undo := true)]
  {
    FindExact(files, name);
  }

  lemma {:induction false} DiffsAgree(pre: Tree, post: Tree, p: Path)
    requires Valid(pre) && Valid(post) && OnDevice(pre, pre.info.dev) && OnDevice(post, post.info.dev)
    ensures Comparison.DiffOf(pre, post, p) == if Compare.Visible(p) then UndoPlan.DiffOf(pre, post, p) else None
  {
    if p != [] {
      Compare.FilteredIff([] + [p[0]]);
      assert [] + p == p;
      if Compare.Visible(p) { Compare.DiffIsFlat(Comparison.Devices(pre, post), pre, post, [], p); }
    }
  }

  lemma {:induction false} MarkedIsSound(pre: Tree, post: Tree, files: seq<File>, names: Option<seq<string>>, f: File)
    requires Valid(pre) && Valid(post) && OnDevice(pre, pre.info.dev) && OnDevice(post, post.info.dev)
    requires Comparison.Lists(pre, post, files) && f in Marked(files, names)
    ensures f.name == Join(PathOf(f.name)) && Compare.Visible(PathOf(f.name))
    ensures UndoPlan.DiffOf(pre, post, PathOf(f.name)) == Some(f.status)
  {
    var i :| 0 <= i < |files| && Marked(files, names)[i] == f;
    assert files[i] in files;
    DiffsAgree(pre, post, PathOf(f.name));
  }

  lemma {:induction false} MarkedIsComplete(pre: Tree, post: Tree, files: seq<File>, names: Option<seq<string>>,
                                            p: Path)
    requires Valid(pre) && Valid(post) && OnDevice(pre, pre.info.dev) && OnDevice(post, post.info.dev)
    requires Comparison.Lists(pre, post, files) && Compare.Visible(p) && UndoPlan.DiffOf(pre, post, p).Some?
    ensures PathOf(Join(p)) == p
    ensures UndoPlan.FileOf(Marked(files, names), p, UndoPlan.DiffOf(pre, post, p).value) in Marked(files, names)
  {
    DiffsAgree(pre, post, p);
    var f := File(Join(p), UndoPlan.DiffOf(pre, post, p).value, false);
    assert f in files;
    hide Comparison.Lists, Valid, OnDevice, UndoPlan.DiffOf, Comparison.DiffOf;
    var i :| 0 <= i < |files| && files[i] == f;
    assert Marked(files, names)[i] == File(Join(p), f.status, Wanted(names, f.name));
  }

  /** The list of a comparison on single devices, with any marks, is one that undo can start from. */
  lemma {:induction false} MarkedIsList(pre: Tree, post: Tree, files: seq<File>, names: Option<seq<string>>)
    requires Valid(pre) && Valid(post) && OnDevice(pre, pre.info.dev) && OnDevice(post, post.info.dev)
    requires Comparison.Lists(pre, post, files)
    ensures UndoPlan.IsList(pre, post, Marked(files, names))
  {
    var all := Marked(files, names);
    forall i, j | 0 <= i < j < |all| ensures Order.Less(NameOf(all[i]), NameOf(all[j])) {
      assert Order.Less(NameOf(files[i]), NameOf(files[j]));
    }
    hide Comparison.Lists, Valid, OnDevice, UndoPlan.DiffOf;
    forall f | f in all
      ensures f.name == Join(PathOf(f.name)) && Compare.Visible(PathOf(f.name))
      ensures UndoPlan.DiffOf(pre, post, PathOf(f.name)) == Some(f.status)
    {
      MarkedIsSound(pre, post, files, names, f);
    }
    forall p: Path | Compare.Visible(p) && UndoPlan.DiffOf(pre, post, p).Some?
      ensures PathOf(Join(p)) == p && UndoPlan.FileOf(all, p, UndoPlan.DiffOf(pre, post, p).value) in all
    {
      MarkedIsComplete(pre, post, files, names, p);
    }
  }

  // Running

  /** After k steps of the plan, the rest of it still leads to the outcome of the whole. */
  ghost predicate OnTrack(pre: Tree, begin: Undo.Live, plan: seq<File>, made: Node, k: nat, fs: Undo.Live) {
    && k <= |plan| && UndoPlan.Safe(pre, begin, plan, made) && UndoPlan.Safe(pre, fs, plan[k..], made)
    && UndoPlan.Outcome(pre, fs, plan[k..], made) == UndoPlan.Outcome(pre, begin, plan, made)
  }

  lemma {:induction false} NextStep(pre: Tree, begin: Undo.Live, plan: seq<File>, made: Node, k: nat, fs: Undo.Live)
    requires OnTrack(pre, begin, plan, made, k, fs) && k < |plan|
    ensures Undo.Ready(pre, fs, PathOf(plan[k].name), plan[k].status)
    ensures OnTrack(pre, begin, plan, made, k + 1, Undo.Undone(pre, fs, PathOf(plan[k].name), plan[k].status, made))
  {
    assert plan[k..][0] == plan[k] && plan[k..][1..] == plan[k + 1..];
  }

  lemma {:induction false} StepIsFound(files: seq<File>, k: nat)
    requires Order.StrictlySorted(files, NameOf) && k < |Plan(files)|
    ensures var i := Find(files, Plan(files)[k].name); i.Some? && files[i.value] == Plan(files)[k]
  {
    PlanIsGood(files);
    var f := Plan(files)[k];
    assert f in Plan(files);
    var i :| 0 <= i < |files| && files[i] == f;
    FindExact(files, f.name);
  }

  /** Some file that is certain to fail is still to come, or has failed. */
  ghost predicate WillFail(pre: Tree, post: Tree, plan: seq<File>, files: seq<File>, k: nat, fs: Undo.Live, ok: bool) {
    && k <= |plan| && UndoPlan.Kept(pre, post, fs, UndoPlan.PathsOf(plan[..k]))
    && (ok ==> exists j :: k <= j < |plan| && UndoPlan.Hindered(post, files, plan[j]))
  }

  lemma {:induction false} WillFailAtFirst(pre: Tree, post: Tree, sys: Undo.Live, files: seq<File>)
    requires UndoPlan.Setting(pre, post, sys, files) && UndoPlan.Doomed(post, files)
    ensures WillFail(pre, post, Plan(files), files, 0, sys, true)
  {
    var plan := Plan(files);
    assert UndoPlan.PathsOf(plan[..0]) == {};
    UndoPlan.KeptAtFirst(pre, post, sys, files);
    PlanIsGood(files);
    var f :| f in files && f.undo && UndoPlan.Hindered(post, files, f);
    assert f in plan;
  }

  lemma {:induction false} WillFailNext(pre: Tree, post: Tree, sys: Undo.Live, made: Node, files: seq<File>, k: nat,
                                        fs: Undo.Live, ok: bool, done: bool, now: Undo.Live)
    requires UndoPlan.Setting(pre, post, sys, files) && k < |Plan(files)|
    requires WillFail(pre, post, Plan(files), files, k, fs, ok)
    requires var p, s := PathOf(Plan(files)[k].name), Plan(files)[k].status;
             UndoPlan.Stepped(pre, fs, p, s, made, now) && (Undo.Blocked(fs, p, s) ==> !done)
    ensures WillFail(pre, post, Plan(files), files, k + 1, now, ok && done)
  {
    hide UndoPlan.Setting, UndoPlan.Kept, UndoPlan.Stepped, UndoPlan.Hindered, Undo.Blocked, UndoPlan.PathsOf;
    var plan := Plan(files);
    UndoPlan.ListOf(pre, post, sys, files);
    PlanIsGood(files);
    UndoPlan.PlanGivesTurn(pre, post, files, plan, k);
    var f, was := plan[k], UndoPlan.PathsOf(plan[..k]);
    UndoPlan.KeptNext(pre, post, sys, made, files, fs, was, f, now);
    UndoPlan.PathsOfNext(plan, k);
    UndoPlan.TurnFails(pre, post, sys, files, fs, was, f);
  }

  /**
   Runs the undo steps of the selected files. A failing step is reported, and the run goes on. The post snapshot is what
   the list was made against.
   */
  method RunSteps(system: Undo.System, files: seq<File>, ghost post: Tree) returns (ok: bool)
    requires Undo.WellFormed(system.nodes) && Order.StrictlySorted(files, NameOf)
    requires forall f | f in files :: PathOf(f.name) != []
    modifies system
    ensures Undo.WellFormed(system.nodes)
    ensures UndoPlan.Safe(system.pre, old(system.nodes), Plan(files), system.Made()) ==>
              ok && system.nodes == UndoPlan.Outcome(system.pre, old(system.nodes), Plan(files), system.Made())
    ensures UndoPlan.Setting(system.pre, post, old(system.nodes), files) && UndoPlan.Doomed(post, files) ==> !ok
  {
    hide Undo.WellFormed, Undo.Ready, Undo.Blocked, Undo.Undone, Undo.Grown, Undo.KeepsOthers, UndoPlan.Setting;
    hide UndoPlan.Doomed, WillFail;
    var steps := GetUndoSteps(files);
    ghost var plan, pre, begin, made := Plan(files), system.pre, system.nodes, system.Made();
    ghost var safe := UndoPlan.Safe(pre, begin, plan, made);
    ghost var doomed := UndoPlan.Setting(pre, post, begin, files) && UndoPlan.Doomed(post, files);
    assert plan[0..] == plan;
    if doomed { WillFailAtFirst(pre, post, begin, files); }
    ok := true;
    for k := 0 to |steps|
      invariant Undo.WellFormed(system.nodes)
      invariant safe ==> ok && OnTrack(pre, begin, plan, made, k, system.nodes)
      invariant doomed ==> WillFail(pre, post, plan, files, k, system.nodes, ok)
    {
      StepIsFound(files, k);
      ghost var fs, was := system.nodes, ok;
      if safe { NextStep(pre, begin, plan, made, k, fs); }
      var found := Find(files, steps[k].name);
      if found.None? { return false; }
      var file := files[found.value];
      if steps[k].action != GetAction(file) { return false; }
      assert file in files;
      var done := system.DoUndo(PathOf(file.name), file.status);
      if !done { ok := false; }
      if doomed { WillFailNext(pre, post, begin, made, files, k, fs, was, done, system.nodes); }
    }
    if doomed { HasFailed(pre, post, plan, files, system.nodes, ok); }
  }

  lemma {:induction false} HasFailed(pre: Tree, post: Tree, plan: seq<File>, files: seq<File>, fs: Undo.Live, ok: bool)
    requires WillFail(pre, post, plan, files, |plan|, fs, ok)
    ensures !ok
  {
  }

  // The command

  /** What the command takes for granted: two snapshots on one device each, and a system that is the second of them. */
  ghost predicate Given(pre: Tree, post: Tree, nodes: Undo.Live) {
    && Valid(pre) && OnDevice(pre, pre.info.dev) && UndoPlan.NoSpecial(pre)
    && Valid(post) && OnDevice(post, post.info.dev) && UndoPlan.NoSpecial(post)
    && Undo.WellFormed(nodes)
    && forall p: Path | Compare.Visible(p) :: Undo.Look(nodes, p) == Undo.NodeAt(post, p)
  }

  /**
   Undoing a selection. It fails before anything is changed if a name is not in the list. Of an undoable selection no
   step fails, exactly the selected paths reach their goal, and directories are made where they are missing above them.
   Of a doomed selection some step fails.
   */
  method UndoSelected(system: Undo.System, post: Tree, names: Option<seq<string>>)
    returns (r: Result<bool>, ghost files: seq<File>)
    requires Given(system.pre, post, system.nodes)
    modifies system
    ensures Undo.WellFormed(system.nodes)
    ensures UndoPlan.IsList(system.pre, post, files) && forall f | f in files :: f.undo <==> Wanted(names, f.name)
    ensures r.Err? <==> names.Some? && exists k :: 0 <= k < |names.value| && !HasName(files, names.value[k])
    ensures r.Err? ==> system.nodes == old(system.nodes)
    ensures r.Ok? && UndoPlan.Undoable(files) ==> r.value && forall p ::
              Undo.Look(system.nodes, p) ==
              UndoPlan.Now(system.pre, post, old(system.nodes), system.Made(), UndoPlan.Selected(files), p)
    ensures r.Ok? && UndoPlan.Undoable(files) ==> forall p: Path | p in UndoPlan.Selected(files) ::
              Undo.Look(system.nodes, p) == Undo.NodeAt(system.pre, p) <==> UndoPlan.Trusted(system.pre, post, p)
    ensures r.Ok? && UndoPlan.Undoable(files) ==> forall p: Path | p !in UndoPlan.Selected(files) ::
              || Undo.Look(system.nodes, p) == Undo.Look(old(system.nodes), p)
              || (Undo.Look(old(system.nodes), p).None? && Undo.Look(system.nodes, p) == Some(system.Made())
                  && exists q :: q in UndoPlan.Selected(files) && p in Undo.Ancestors(q))
    ensures r.Ok? && UndoPlan.Doomed(post, files) ==> !r.value
  {
    hide UndoPlan.Now, UndoPlan.Undoable, UndoPlan.Selected, UndoPlan.Doomed, UndoPlan.Trusted, Undo.Ancestors;
    var list := Comparison.Create(system.pre, post);
    files := Marked(list, names);
    MarkedIsList(system.pre, post, list, names);
    MarkedNames(list, names);
    var marked := Mark(list, names);
    if marked.Err? { return Err, files; }
    if UndoPlan.Undoable(files) {
      UndoPlan.SelectionRuns(system.pre, post, system.nodes, system.Made(), files);
      UndoPlan.NowRestores(system.pre, post, system.nodes, system.Made(), files);
    }
    var ok := RunSteps(system, marked.value, post);
    return Ok(ok), files;
  }

  lemma {:induction false} MarkedNames(files: seq<File>, names: Option<seq<string>>)
    ensures forall name :: HasName(Marked(files, names), name) <==> HasName(files, name)
    ensures forall f | f in Marked(files, names) :: f.undo <==> Wanted(names, f.name)
  {
    var all := Marked(files, names);
    forall name ensures HasName(all, name) <==> HasName(files, name) {
      if i :| 0 <= i < |files| && files[i].name == name { assert all[i].name == name; }
      if i :| 0 <= i < |all| && all[i].name == name { assert files[i].name == name; }
    }
  }

  /**
   Undoing the difference of two snapshots on a system that is the second of them gives back the first:
   no step fails, what the comparison does not look at is untouched, and every path holds the node of
   the first snapshot, except for the contents that the comparison wrongly took to be equal.
   */
  method UndoSnapshots(system: Undo.System, post: Tree) returns (ok: bool)
    requires Given(system.pre, post, system.nodes)
    modifies system
    ensures ok && Undo.WellFormed(system.nodes)
    ensures forall p: Path | !Compare.Visible(p) :: Undo.Look(system.nodes, p) == Undo.Look(old(system.nodes), p)
    ensures forall p: Path | Compare.Visible(p) ::
              Undo.Look(system.nodes, p) == Undo.NodeAt(system.pre, p) <==> UndoPlan.Trusted(system.pre, post, p)
    ensures forall p: Path | Compare.Visible(p) && UndoPlan.Stamped(system.pre, post, p) ::
              Undo.Look(system.nodes, p) == Undo.NodeAt(system.pre, p)
  {
    var list := Comparison.Create(system.pre, post);
    var files := Marked(list, None);
    MarkedIsList(system.pre, post, list, None);
    UndoPlan.UndoRestores(system.pre, post, system.nodes, system.Made(), files);
    ok := RunSteps(system, files, post);
  }
}
