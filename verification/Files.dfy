/** The sorted list of compared files and the undo steps derived from it (snapper/File.cc). */
module Files {
  import opened Wrappers
  import opened FileStatus
  import opened Order

  datatype File = File(name: string, status: Status, undo: bool)

  function NameOf(f: File): string { f.name }

  datatype Action = Create | Modify | Delete

  datatype UndoStep = UndoStep(name: string, action: Action)

  function GetAction(f: File): Action {
    if f.status == CREATED then Delete else if f.status == DELETED then Create else Modify
  }

  function StepOf(f: File): UndoStep { UndoStep(f.name, GetAction(f)) }

  /** The first file whose name is not before the given one. */
  function LowerBound(files: seq<File>, name: string): (r: nat)
    ensures r <= |files| && (r < |files| ==> !Less(files[r].name, name))
    ensures forall i | 0 <= i < r :: Less(files[i].name, name)
  {
    if files == [] || !Less(files[0].name, name) then 0 else 1 + LowerBound(files[1..], name)
  }

  /** The position of the file with a name. */
  function Find(files: seq<File>, name: string): Option<nat> {
    var i := LowerBound(files, name);
    if i < |files| && files[i].name == name then Some(i) else None
  }

  /** In a sorted list every file is found under its own name, and no other name is found. */
  lemma {:induction false} FindExact(files: seq<File>, name: string)
    requires StrictlySorted(files, NameOf)
    ensures Find(files, name).Some? <==> exists i | 0 <= i < |files| :: files[i].name == name
    ensures forall i | 0 <= i < |files| && files[i].name == name :: Find(files, name) == Some(i)
  {
    var r := LowerBound(files, name);
    forall i | 0 <= i < |files| && files[i].name == name ensures r == i {
      Trichotomy(name, name);
      assert r < i ==> Less(NameOf(files[r]), NameOf(files[i]));
    }
  }

  /** The files to delete, last first. */
  function Deletions(files: seq<File>): seq<File> {
    if files == [] then []
    else Deletions(files[1..]) + (if files[0].undo && files[0].status == CREATED then [files[0]] else [])
  }

  /** The other files to undo, first first. */
  function Others(files: seq<File>): seq<File> {
    if files == [] then []
    else
      var last := files[|files| - 1];
      Others(files[..|files| - 1]) + (if last.undo && last.status != CREATED then [last] else [])
  }

  function Plan(files: seq<File>): seq<File> {
    Deletions(files) + Others(files)
  }

  lemma {:induction false} DeletionsOrder(files: seq<File>)
    requires StrictlySorted(files, NameOf)
    ensures forall f :: f in Deletions(files) <==> f in files && f.undo && f.status == CREATED
    ensures forall k, m | 0 <= k < m < |Deletions(files)| :: Less(Deletions(files)[m].name, Deletions(files)[k].name)
  {
    if files != [] {
      var d := Deletions(files[1..]);
      DeletionsOrder(files[1..]);
      assert files == [files[0]] + files[1..];
      forall k | 0 <= k < |d| ensures Less(files[0].name, d[k].name) {
        assert d[k] in files[1..];
        var i :| 0 <= i < |files| - 1 && files[1..][i] == d[k];
        assert Less(NameOf(files[0]), NameOf(files[i + 1]));
      }
    }
  }

  lemma {:induction false} OthersOrder(files: seq<File>)
    requires StrictlySorted(files, NameOf)
    ensures forall f :: f in Others(files) <==> f in files && f.undo && f.status != CREATED
    ensures forall k, m | 0 <= k < m < |Others(files)| :: Less(Others(files)[k].name, Others(files)[m].name)
  {
    if files != [] {
      var n := |files| - 1;
      var o := Others(files[..n]);
      OthersOrder(files[..n]);
      assert files == files[..n] + [files[n]];
      forall k | 0 <= k < |o| ensures Less(o[k].name, files[n].name) {
        assert o[k] in files[..n];
        var i :| 0 <= i < n && files[..n][i] == o[k];
        assert Less(NameOf(files[i]), NameOf(files[n]));
      }
    }
  }

  /**
   What a plan guarantees: it takes every selected file, all deletions before anything else, the
   deletions from the last name to the first and the rest from the first name to the last.
   */
  ghost predicate GoodPlan(files: seq<File>, plan: seq<File>) {
    && (forall f :: f in plan <==> f in files && f.undo)
    && (forall k, m | 0 <= k < m < |plan| ::
          if plan[m].status == CREATED then plan[k].status == CREATED && Less(plan[m].name, plan[k].name)
          else plan[k].status == CREATED || Less(plan[k].name, plan[m].name))
  }

  lemma {:induction false} PlanIsGood(files: seq<File>)
    requires StrictlySorted(files, NameOf)
    ensures GoodPlan(files, Plan(files))
  {
    var d, o := Deletions(files), Others(files);
    DeletionsOrder(files);
    OthersOrder(files);
    var plan := d + o;
    forall k, m | 0 <= k < m < |plan|
      ensures if plan[m].status == CREATED then plan[k].status == CREATED && Less(plan[m].name, plan[k].name)
              else plan[k].status == CREATED || Less(plan[k].name, plan[m].name)
    {
      if k >= |d| { assert plan[k] == o[k - |d|]; assert plan[k] in o; } else { assert plan[k] in d; }
      if m >= |d| { assert plan[m] == o[m - |d|]; assert plan[m] in o; } else { assert plan[m] in d; }
    }
  }

  function StepsOf(plan: seq<File>): seq<UndoStep> {
    seq(|plan|, k requires 0 <= k < |plan| => StepOf(plan[k]))
  }

  /** The steps delete what was created, create what was deleted and modify the rest. */
  ghost predicate Means(steps: seq<UndoStep>, plan: seq<File>) {
    |steps| == |plan| && forall k | 0 <= k < |steps| ::
      && steps[k].name == plan[k].name
      && (steps[k].action == Delete <==> plan[k].status == CREATED)
      && (steps[k].action == Create <==> plan[k].status == DELETED)
  }

  lemma {:induction false} StepsMean(plan: seq<File>)
    ensures Means(StepsOf(plan), plan)
  {
  }

  /** The steps of a whole undo. */
  method GetUndoSteps(files: seq<File>) returns (steps: seq<UndoStep>)
    ensures steps == StepsOf(Plan(files))
    ensures Means(steps, Plan(files))
  {
    hide Means;
    steps := [];
    var i := |files|;
    while i > 0
      invariant 0 <= i <= |files|
      invariant steps == StepsOf(Deletions(files[i..]))
    {
      i := i - 1;
      assert files[i..][1..] == files[i + 1..];
      if files[i].undo && files[i].status == CREATED {
        steps := steps + [StepOf(files[i])];
      }
    }
    assert files[0..] == files;
    while i < |files|
      invariant 0 <= i <= |files|
      invariant steps == StepsOf(Deletions(files) + Others(files[..i]))
    {
      assert files[..i + 1][..i] == files[..i];
      if files[i].undo && files[i].status != CREATED {
        steps := steps + [StepOf(files[i])];
        assert Deletions(files) + Others(files[..i + 1]) == (Deletions(files) + Others(files[..i])) + [files[i]];
      } else {
        assert Others(files[..i + 1]) == Others(files[..i]);
      }
      i := i + 1;
    }
    assert files[..|files|] == files;
    StepsMean(Plan(files));
  }
}
