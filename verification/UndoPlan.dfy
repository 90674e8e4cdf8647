/**
 A whole undo (Files::getUndoSteps and File::doUndo in snapper/File.cc): the steps of any selection of files, run in
 order on a system that is the post snapshot. It is decided which selections run without a failing step and what they
 make of every path; with all files selected the pre snapshot is restored.
 */
module UndoPlan {
  import opened Wrappers
  import opened FileStatus
  import opened Trees
  import opened Files
  import opened Undo
  import Compare
  import Order

  function DiffOf(pre: Tree, post: Tree, p: Path): Option<Status> {
    Compare.FlatDiff(At(pre, p), At(post, p))
  }

  ghost predicate NoSpecial(t: Tree) {
    forall p: Path | Compare.Visible(p) && At(t, p).Some? :: !At(t, p).value.node.Special?
  }

  /** The file of the list for a path, selected or not. */
  ghost function FileOf(files: seq<File>, p: Path, s: Status): File {
    File(Join(p), s, File(Join(p), s, true) in files)
  }

  /** The list of a comparison: each differing visible path once, sorted by name. */
  ghost predicate IsList(pre: Tree, post: Tree, files: seq<File>) {
    && Order.StrictlySorted(files, NameOf)
    && (forall f | f in files ::
          var p := PathOf(f.name); f.name == Join(p) && Compare.Visible(p) && DiffOf(pre, post, p) == Some(f.status))
    && (forall p: Path | Compare.Visible(p) && DiffOf(pre, post, p).Some? ::
          PathOf(Join(p)) == p && FileOf(files, p, DiffOf(pre, post, p).value) in files)
  }

  /** Undo is started on a system that is the post snapshot wherever the comparison looks. */
  ghost predicate Setting(pre: Tree, post: Tree, sys: Live, files: seq<File>) {
    && Valid(pre) && Valid(post) && NoSpecial(pre) && NoSpecial(post)
    && WellFormed(sys)
    && (forall p: Path | Compare.Visible(p) :: Look(sys, p) == NodeAt(post, p))
    && IsList(pre, post, files)
  }

  ghost function Selected(files: seq<File>): set<Path> {
    set f | f in files && f.undo :: PathOf(f.name)
  }

  // Which selections can be undone

  /** Whatever was created below a created or replaced directory goes with it. */
  ghost predicate CanRemove(files: seq<File>, f: File) {
    f.status == CREATED || f.status.kind ==>
      forall g | g in files && g.status == CREATED && PathOf(f.name) in Ancestors(PathOf(g.name)) :: g.undo
  }

  /** A directory that was replaced by something else comes back before what was deleted below it. */
  ghost predicate CanReach(files: seq<File>, f: File) {
    f.status == DELETED ==>
      forall g | g in files && g.status.kind && PathOf(g.name) in Ancestors(PathOf(f.name)) :: g.undo
  }

  ghost predicate CanUndo(files: seq<File>, f: File) {
    CanRemove(files, f) && CanReach(files, f)
  }

  /** The selections that can be undone. */
  ghost predicate Undoable(files: seq<File>) {
    forall f | f in files && f.undo :: CanUndo(files, f)
  }

  /** A directory above a deleted file was replaced by something else than a symbolic link, and is not selected. */
  ghost predicate Bars(post: Tree, files: seq<File>, f: File, g: File) {
    && f.status == DELETED && g in files && g.status.kind && !g.undo && PathOf(g.name) in Ancestors(PathOf(f.name))
    && NodeAt(post, PathOf(g.name)).Some? && !NodeAt(post, PathOf(g.name)).value.Link?
  }

  /** A file whose undo is certain to fail. */
  ghost predicate Hindered(post: Tree, files: seq<File>, f: File) {
    !CanRemove(files, f) || exists g :: Bars(post, files, f, g)
  }

  /** The selections of which some step is certain to fail. */
  ghost predicate Doomed(post: Tree, files: seq<File>) {
    exists f :: f in files && f.undo && Hindered(post, files, f)
  }

  // In the middle of an undo

  /** What a path holds once it has been dealt with. */
  function Goal(pre: Tree, post: Tree, p: Path): Option<Node> {
    match DiffOf(pre, post, p)
    case None => NodeAt(post, p)
    case Some(s) =>
      if s == CREATED then None
      else if s == DELETED || s.kind || NodeAt(pre, p).None? || NodeAt(post, p).None? then NodeAt(pre, p)
      else Some(Modified(NodeAt(pre, p).value, NodeAt(post, p).value, s))
  }

  /** A deleted directory that is not selected, above a deleted file that has been dealt with. */
  ghost predicate IsMade(pre: Tree, post: Tree, done: set<Path>, p: Path) {
    p !in done && DiffOf(pre, post, p) == Some(DELETED) &&
    exists q :: q in done && DiffOf(pre, post, q) == Some(DELETED) && p in Ancestors(q)
  }

  /**
   The paths dealt with have reached their goal, missing directories above them are made, all others are as before.
   */
  ghost function Now(pre: Tree, post: Tree, sys: Live, made: Node, done: set<Path>, p: Path): Option<Node> {
    if p in done then Goal(pre, post, p) else if IsMade(pre, post, done, p) then Some(made) else Look(sys, p)
  }

  ghost predicate Midway(pre: Tree, post: Tree, sys: Live, made: Node, fs: Live, done: set<Path>) {
    WellFormed(fs) && forall p :: Look(fs, p) == Now(pre, post, sys, made, done, p)
  }

  /** What the order of the plan gives when the turn of a file comes. */
  ghost predicate Turn(files: seq<File>, f: File, done: set<Path>) {
    && f in files && f.undo && PathOf(f.name) !in done && done <= Selected(files)
    && (forall g | g in files && g.undo && g.status == CREATED && (f.status != CREATED || Order.Less(f.name, g.name)) ::
          PathOf(g.name) in done)
    && (forall g | g in files && g.status != CREATED && PathOf(g.name) in done ::
          f.status != CREATED && Order.Less(g.name, f.name))
    && (f.status == CREATED ==> forall g | g in files && PathOf(g.name) in done :: Order.Less(f.name, g.name))
    && (f.status != CREATED ==>
          forall g | g in files && g.undo && g.status != CREATED && Order.Less(g.name, f.name) ::
              PathOf(g.name) in done)
  }

  // Single facts of these

  lemma {:induction false} LooksNow(pre: Tree, post: Tree, sys: Live, made: Node, fs: Live, done: set<Path>, p: Path)
    requires Midway(pre, post, sys, made, fs, done)
    ensures WellFormed(fs) && Look(fs, p) == Now(pre, post, sys, made, done, p)
  {
  }

  lemma {:induction false} VisibleIsPost(pre: Tree, post: Tree, sys: Live, files: seq<File>, p: Path)
    requires Setting(pre, post, sys, files) && Compare.Visible(p)
    ensures Valid(pre) && Look(sys, p) == NodeAt(post, p)
    ensures DiffOf(pre, post, p).Some? ==> PathOf(Join(p)) == p && FileOf(files, p, DiffOf(pre, post, p).value) in files
  {
  }

  lemma {:induction false} ListedDiffers(pre: Tree, post: Tree, sys: Live, files: seq<File>, f: File)
    requires Setting(pre, post, sys, files) && f in files
    ensures IsList(pre, post, files)
    ensures var p := PathOf(f.name); f.name == Join(p) && Compare.Visible(p) && DiffOf(pre, post, p) == Some(f.status)
  {
  }

  lemma {:induction false} TurnOf(files: seq<File>, f: File, done: set<Path>)
    requires Turn(files, f, done)
    ensures f in files && PathOf(f.name) !in done && done <= Selected(files)
  {
  }

  /** Names and statuses of the paths dealt with. */
  lemma {:induction false} DoneAreListed(pre: Tree, post: Tree, files: seq<File>, done: set<Path>, p: Path)
    requires IsList(pre, post, files) && done <= Selected(files) && p in done
    ensures Compare.Visible(p) && DiffOf(pre, post, p).Some? && File(Join(p), DiffOf(pre, post, p).value, true) in files
    ensures PathOf(Join(p)) == p
  {
    var f :| f in files && f.undo && PathOf(f.name) == p;
  }

  lemma {:induction false} AncestorParts(p: Path, a: Path)
    requires a in Ancestors(p)
    ensures 0 < |a| < |p| && p[..|a|] == a && (Compare.Visible(p) ==> Compare.Visible(a))
    ensures Order.Less(Join(a), Join(p))
  {
    assert p == a + p[|a|..];
    AncestorComesFirst(a, p[|a|..]);
  }

  lemma {:induction false} AncestorInTree(t: Tree, p: Path, k: nat)
    requires Valid(t) && At(t, p).Some? && k < |p|
    ensures At(t, p[..k]).Some? && At(t, p[..k]).value.node.Dir?
    decreases |p|
  {
    var q := Parent(p);
    assert p == q + [p[|p| - 1]];
    ParentIsDir(t, q, p[|p| - 1]);
    if k < |q| {
      assert q[..k] == p[..k];
      AncestorInTree(t, q, k);
    }
  }

  /** Until its turn, a path is as it was, and nothing has been made there. */
  lemma {:induction false} NotYet(pre: Tree, post: Tree, sys: Live, made: Node, files: seq<File>, fs: Live,
                                  done: set<Path>, f: File)
    requires Setting(pre, post, sys, files) && Midway(pre, post, sys, made, fs, done) && Turn(files, f, done)
    ensures Look(fs, PathOf(f.name)) == NodeAt(post, PathOf(f.name))
  {
    var p := PathOf(f.name);
    if IsMade(pre, post, done, p) {
      var q :| q in done && DiffOf(pre, post, q) == Some(DELETED) && p in Ancestors(q);
      DoneAreListed(pre, post, files, done, q);
      AncestorParts(q, p);
      Order.Trichotomy(f.name, Join(q));
      assert false;
    }
    assert Look(fs, p) == Now(pre, post, sys, made, done, p);
  }

  // The turn of a file

  /**
   Below a path that the pre snapshot does not have as a directory, nothing is left if all that was created is selected.
   */
  lemma {:induction false} NothingBelow(pre: Tree, post: Tree, sys: Live, made: Node, files: seq<File>, fs: Live,
                                        done: set<Path>, f: File, q: Path)
    requires Setting(pre, post, sys, files) && Midway(pre, post, sys, made, fs, done) && Turn(files, f, done)
    requires (f.status == CREATED || f.status.kind) && CanRemove(files, f)
    requires q != [] && Parent(q) == PathOf(f.name)
    requires (NodeAt(pre, Parent(q)).None? || !NodeAt(pre, Parent(q)).value.Dir?)
    ensures q !in fs
  {
    hide Setting, Midway, IsList, Ancestors, Turn, CanRemove;
    var p := PathOf(f.name);
    TurnOf(files, f, done);
    ListedDiffers(pre, post, sys, files, f);
    EntryIsBelow(p, q);
    AncestorParts(q, p);
    VisibleIsPost(pre, post, sys, files, q);
    NotInPre(pre, q);
    LooksNow(pre, post, sys, made, fs, done, q);
    if At(post, q).Some? {
      CreatedIsGone(files, f, done, FileOf(files, q, CREATED));
    } else if q in done {
      DoneAreListed(pre, post, files, done, q);
    }
  }

  lemma {:induction false} CreatedIsGone(files: seq<File>, f: File, done: set<Path>, g: File)
    requires Turn(files, f, done) && (f.status == CREATED || f.status.kind) && CanRemove(files, f)
    requires g in files && g.status == CREATED && PathOf(f.name) in Ancestors(PathOf(g.name))
    requires Order.Less(f.name, g.name)
    ensures PathOf(g.name) in done
  {
  }

  lemma {:induction false} EntryIsBelow(p: Path, q: Path)
    requires q != [] && Parent(q) == p && p != []
    ensures p in Ancestors(q) && (Compare.Visible(p) ==> Compare.Visible(q))
  {
    assert q[..|p|] == p && p[0] == q[0];
  }

  lemma {:induction false} NotInPre(pre: Tree, q: Path)
    requires Valid(pre) && q != [] && (NodeAt(pre, Parent(q)).None? || !NodeAt(pre, Parent(q)).value.Dir?)
    ensures At(pre, q).None?
  {
    assert q == Parent(q) + [q[|q| - 1]];
    if At(pre, q).Some? { ParentIsDir(pre, Parent(q), q[|q| - 1]); }
  }

  lemma {:induction false} EntryBelow(fs: Live, p: Path, q: Path)
    requires WellFormed(fs) && q in fs && p in Ancestors(q)
    ensures p in fs && fs[p].Dir? && HasEntries(fs, p)
  {
    AncestorParts(q, p);
    AncestorsThere(fs, q, |p|);
    var c := q[..|p| + 1];
    if |p| + 1 < |q| { AncestorsThere(fs, q, |p| + 1); } else { assert c == q; }
    assert c in fs && Parent(c) == p;
  }

  lemma {:induction false} SameName(files: seq<File>, f: File, g: File)
    requires Order.StrictlySorted(files, NameOf) && f in files && g in files && f.name == g.name
    ensures f == g
  {
    var i :| 0 <= i < |files| && files[i] == f;
    var j :| 0 <= j < |files| && files[j] == g;
    FindExact(files, f.name);
  }

  lemma {:induction false} GoalOfDirectory(pre: Tree, post: Tree, p: Path)
    requires NodeAt(pre, p).Some? && NodeAt(pre, p).value.Dir? && DiffOf(pre, post, p).Some?
    ensures Goal(pre, post, p).Some? && Goal(pre, post, p).value.Dir?
  {
  }

  /** A directory of the pre snapshot, above a deleted file whose turn it is, is there or can be made. */
  lemma {:induction false} WayIsBack(pre: Tree, post: Tree, sys: Live, made: Node, files: seq<File>, fs: Live,
                                     done: set<Path>, f: File, a: Path)
    requires Setting(pre, post, sys, files) && Midway(pre, post, sys, made, fs, done) && Turn(files, f, done)
    requires made.Dir?
    requires f.status == DELETED && CanReach(files, f) && a in Ancestors(PathOf(f.name)) && a in fs
    ensures fs[a].Dir?
  {
    hide Setting, Midway, IsList, Selected, Goal, Ancestors, Turn, CanReach;
    var p := PathOf(f.name);
    TurnOf(files, f, done);
    ListedDiffers(pre, post, sys, files, f);
    AncestorParts(p, a);
    VisibleIsPost(pre, post, sys, files, a);
    AncestorInTree(pre, p, |a|);
    LooksNow(pre, post, sys, made, fs, done, a);
    if a in done {
      DoneAreListed(pre, post, files, done, a);
      GoalOfDirectory(pre, post, a);
    } else {
      NotReplaced(pre, post, sys, files, done, f, a);
    }
  }

  lemma {:induction false} NotReplaced(pre: Tree, post: Tree, sys: Live, files: seq<File>, done: set<Path>, f: File,
                                       a: Path)
    requires Setting(pre, post, sys, files) && Turn(files, f, done)
    requires f.status == DELETED && CanReach(files, f) && a in Ancestors(PathOf(f.name)) && a !in done
    requires Compare.Visible(a) && At(pre, a).Some? && At(pre, a).value.node.Dir? && Order.Less(Join(a), f.name)
    ensures At(post, a).Some? ==> At(post, a).value.node.Dir?
  {
    hide Setting, Ancestors, Selected;
    VisibleIsPost(pre, post, sys, files, a);
    if DiffOf(pre, post, a).Some? {
      var g := FileOf(files, a, DiffOf(pre, post, a).value);
      assert g in files && PathOf(g.name) == a;
    }
  }

  lemma {:induction false} NotDone(pre: Tree, post: Tree, sys: Live, files: seq<File>, done: set<Path>, f: File)
    requires Setting(pre, post, sys, files) && done <= Selected(files) && f in files && !f.undo
    ensures PathOf(f.name) !in done
  {
    var p := PathOf(f.name);
    if p in done {
      DoneAreListed(pre, post, files, done, p);
      SameName(files, f, File(Join(p), f.status, true));
      assert false;
    }
  }

  lemma {:induction false} TurnIsReady(pre: Tree, post: Tree, sys: Live, made: Node, files: seq<File>, fs: Live,
                                       done: set<Path>, f: File)
    requires Setting(pre, post, sys, files) && Midway(pre, post, sys, made, fs, done) && Turn(files, f, done)
    requires made.Dir?
    requires CanUndo(files, f)
    ensures Ready(pre, fs, PathOf(f.name), f.status)
  {
    var p := PathOf(f.name);
    NotYet(pre, post, sys, made, files, fs, done, f);
    if f.status == DELETED {
      forall a | a in Ancestors(p) && a in fs
        ensures fs[a].Dir?
      {
        WayIsBack(pre, post, sys, made, files, fs, done, f, a);
      }
    } else if (f.status == CREATED || f.status.kind) && fs[p].Dir? {
      forall q | q in fs && q != [] ensures Parent(q) != p {
        if Parent(q) == p { NothingBelow(pre, post, sys, made, files, fs, done, f, q); }
      }
    }
  }

  // A step

  lemma {:induction false} ParentOfAncestor(p: Path, q: Path)
    requires p != [] && q != [] && (q == p || q in Ancestors(p))
    ensures Parent(q) == [] || Parent(q) in Ancestors(p)
  {
    if q != p { AncestorParts(p, q); }
    assert Parent(q) == p[..|q| - 1];
  }

  lemma {:induction false} CreatedWellFormed(fs: Live, p: Path, node: Node, made: Node)
    requires WellFormed(fs) && p != [] && p !in fs && WayIsFree(fs, p) && made.Dir?
    ensures WellFormed(WithParents(fs, p, made)[p := node])
  {
    var r := WithParents(fs, p, made)[p := node];
    forall q | q in r && q != [] ensures ParentIsDirectory(r, q) {
      if q == p || q in Ancestors(p) {
        ParentOfAncestor(p, q);
        assert p !in Ancestors(p) by { if p in Ancestors(p) { AncestorParts(p, p); } }
      } else {
        assert ParentIsDirectory(fs, q);
      }
    }
  }

  lemma {:induction false} UndoneWellFormed(pre: Tree, fs: Live, p: Path, s: Status, made: Node)
    requires WellFormed(fs) && Ready(pre, fs, p, s) && made.Dir?
    ensures WellFormed(Undone(pre, fs, p, s, made))
  {
    if s == DELETED {
      CreatedWellFormed(fs, p, NodeAt(pre, p).value, made);
    } else {
      var r := Undone(pre, fs, p, s, made);
      forall q | q in r && q != [] ensures ParentIsDirectory(r, q) {
        assert Parent(q) != q;
        if q != p {
          assert ParentIsDirectory(fs, q);
          if Parent(q) == p { assert HasEntries(fs, p); }
        } else {
          assert ParentIsDirectory(fs, p);
        }
      }
    }
  }

  /** More is made with every deleted file that is restored, and with nothing else. */
  lemma {:induction false} MadeNext(pre: Tree, post: Tree, done: set<Path>, p: Path, q: Path)
    requires p !in done && q != p
    ensures IsMade(pre, post, done + {p}, q) <==>
              || IsMade(pre, post, done, q)
              || (DiffOf(pre, post, p) == DiffOf(pre, post, q) == Some(DELETED) && q in Ancestors(p) && q !in done)
  {
    if IsMade(pre, post, done, q) {
      var r :| r in done && DiffOf(pre, post, r) == Some(DELETED) && q in Ancestors(r);
      assert r in done + {p};
    }
    if DiffOf(pre, post, p) == Some(DELETED) && q in Ancestors(p) {
      assert p in done + {p};
    }
  }

  lemma {:induction false} LookUndone(pre: Tree, fs: Live, p: Path, s: Status, made: Node, q: Path)
    requires Ready(pre, fs, p, s) && q != p
    ensures Look(Undone(pre, fs, p, s, made), q) ==
            if s == DELETED && q in Ancestors(p) && q !in fs then Some(made) else Look(fs, q)
  {
  }

  /** The directories that are missing above a deleted file are the deleted ones that were neither restored nor made. */
  lemma {:induction false} AncestorMissing(pre: Tree, post: Tree, sys: Live, made: Node, files: seq<File>, fs: Live,
                                           done: set<Path>, f: File, q: Path)
    requires Setting(pre, post, sys, files) && Midway(pre, post, sys, made, fs, done) && Turn(files, f, done)
    requires f.status == DELETED && q in Ancestors(PathOf(f.name))
    ensures q !in fs <==> q !in done && !IsMade(pre, post, done, q) && DiffOf(pre, post, q) == Some(DELETED)
  {
    hide Setting, Midway, Turn, IsMade, IsList, Ancestors, Goal;
    var p := PathOf(f.name);
    TurnOf(files, f, done);
    ListedDiffers(pre, post, sys, files, f);
    LooksNow(pre, post, sys, made, fs, done, q);
    AncestorParts(p, q);
    VisibleIsPost(pre, post, sys, files, q);
    AncestorInTree(pre, p, |q|);
    if q in done {
      DoneAreListed(pre, post, files, done, q);
      GoalOfDirectory(pre, post, q);
    }
  }

  /** A path other than the one whose turn it is. */
  lemma {:induction false} OthersFollow(pre: Tree, post: Tree, sys: Live, made: Node, files: seq<File>, fs: Live,
                                        done: set<Path>, f: File, q: Path)
    requires Setting(pre, post, sys, files) && Midway(pre, post, sys, made, fs, done) && Turn(files, f, done)
    requires Ready(pre, fs, PathOf(f.name), f.status) && q != PathOf(f.name)
    ensures Look(Undone(pre, fs, PathOf(f.name), f.status, made), q) ==
            Now(pre, post, sys, made, done + {PathOf(f.name)}, q)
  {
    hide Setting, Midway, Turn, IsMade, IsList, Ancestors, Ready, Undone, Goal, DiffOf;
    var p := PathOf(f.name);
    TurnOf(files, f, done);
    LookUndone(pre, fs, p, f.status, made, q);
    ListedDiffers(pre, post, sys, files, f);
    MadeNext(pre, post, done, p, q);
    LooksNow(pre, post, sys, made, fs, done, q);
    if f.status == DELETED && q in Ancestors(p) {
      AncestorMissing(pre, post, sys, made, files, fs, done, f, q);
    }
  }

  /** One step brings one more path to its goal. */
  lemma {:induction false} TurnAdvances(pre: Tree, post: Tree, sys: Live, made: Node, files: seq<File>, fs: Live,
                                        done: set<Path>, f: File)
    requires Setting(pre, post, sys, files) && Midway(pre, post, sys, made, fs, done) && Turn(files, f, done)
    requires made.Dir?
    requires Ready(pre, fs, PathOf(f.name), f.status)
    ensures Midway(pre, post, sys, made, Undone(pre, fs, PathOf(f.name), f.status, made), done + {PathOf(f.name)})
  {
    var p := PathOf(f.name);
    var r := Undone(pre, fs, p, f.status, made);
    UndoneWellFormed(pre, fs, p, f.status, made);
    forall q ensures Look(r, q) == Now(pre, post, sys, made, done + {p}, q) {
      if q == p {
        ReachesGoal(pre, post, sys, made, files, fs, done, f);
      } else {
        OthersFollow(pre, post, sys, made, files, fs, done, f, q);
      }
    }
  }

  lemma {:induction false} ReachesGoal(pre: Tree, post: Tree, sys: Live, made: Node, files: seq<File>, fs: Live,
                                       done: set<Path>, f: File)
    requires Setting(pre, post, sys, files) && Midway(pre, post, sys, made, fs, done) && Turn(files, f, done)
    requires Ready(pre, fs, PathOf(f.name), f.status)
    ensures Look(Undone(pre, fs, PathOf(f.name), f.status, made), PathOf(f.name)) == Goal(pre, post, PathOf(f.name))
  {
    NotYet(pre, post, sys, made, files, fs, done, f);
  }

  // Whole plans

  /** Every step of a plan finds the tree ready for it. */
  ghost predicate Safe(pre: Tree, fs: Live, plan: seq<File>, made: Node)
    decreases |plan|
  {
    plan != [] ==>
      var p := PathOf(plan[0].name);
      Ready(pre, fs, p, plan[0].status) && Safe(pre, Undone(pre, fs, p, plan[0].status, made), plan[1..], made)
  }

  /** The tree after all steps of a plan. */
  ghost function Outcome(pre: Tree, fs: Live, plan: seq<File>, made: Node): Live
    requires Safe(pre, fs, plan, made)
    decreases |plan|
  {
    if plan == [] then fs
    else Outcome(pre, Undone(pre, fs, PathOf(plan[0].name), plan[0].status, made), plan[1..], made)
  }

  ghost function PathsOf(files: seq<File>): set<Path> {
    set f | f in files :: PathOf(f.name)
  }

  /** g has its turn before f. */
  predicate ComesFirst(g: File, f: File) {
    if g.status == CREATED then f.status != CREATED || Order.Less(f.name, g.name)
    else f.status != CREATED && Order.Less(g.name, f.name)
  }

  lemma {:induction false} EarlierComesFirst(files: seq<File>, plan: seq<File>, k: nat, g: File)
    requires GoodPlan(files, plan) && k < |plan| && g in plan[..k]
    ensures g in files && g.undo && ComesFirst(g, plan[k])
  {
    var i :| 0 <= i < k && plan[..k][i] == g;
    assert plan[i] == g && g in plan;
    Order.Trichotomy(g.name, plan[k].name);
  }

  lemma {:induction false} FirstComesEarlier(files: seq<File>, plan: seq<File>, k: nat, g: File)
    requires GoodPlan(files, plan) && k < |plan| && g in files && g.undo && ComesFirst(g, plan[k])
    ensures g in plan[..k]
  {
    Order.Trichotomy(g.name, plan[k].name);
    assert g in plan;
    var i :| 0 <= i < |plan| && plan[i] == g;
    assert i < k;
    assert plan[..k][i] == g;
  }

  lemma {:induction false} PlanGivesTurn(pre: Tree, post: Tree, files: seq<File>, plan: seq<File>, k: nat)
    requires IsList(pre, post, files) && GoodPlan(files, plan) && k < |plan|
    ensures Turn(files, plan[k], PathsOf(plan[..k]))
  {
    var f, done := plan[k], PathsOf(plan[..k]);
    assert f in plan;
    assert f in files && f.undo;
    hide GoodPlan;
    forall g | g in plan[..k] ensures g in files && g.undo && ComesFirst(g, f) && PathOf(g.name) != PathOf(f.name) {
      EarlierComesFirst(files, plan, k, g);
      Order.Trichotomy(f.name, f.name);
      if PathOf(g.name) == PathOf(f.name) { SameName(files, g, f); }
    }
    forall g | g in files && g.undo && ComesFirst(g, f) ensures PathOf(g.name) in done {
      FirstComesEarlier(files, plan, k, g);
    }
    forall g | g in files && PathOf(g.name) in done ensures ComesFirst(g, f) {
      var h :| h in plan[..k] && PathOf(h.name) == PathOf(g.name);
      SameName(files, g, h);
    }
  }

  lemma {:induction false} PathsOfNext(plan: seq<File>, k: nat)
    requires k < |plan|
    ensures PathsOf(plan[..k + 1]) == PathsOf(plan[..k]) + {PathOf(plan[k].name)}
  {
    assert plan[..k + 1] == plan[..k] + [plan[k]];
  }

  /** From any point of the plan on, the rest of an undoable selection runs to its end. */
  lemma {:induction false} PlanRuns(pre: Tree, post: Tree, sys: Live, made: Node, files: seq<File>, plan: seq<File>,
                                    k: nat, fs: Live)
    requires Setting(pre, post, sys, files) && GoodPlan(files, plan) && k <= |plan| && made.Dir? && Undoable(files)
    requires Midway(pre, post, sys, made, fs, PathsOf(plan[..k]))
    ensures Safe(pre, fs, plan[k..], made)
    ensures Midway(pre, post, sys, made, Outcome(pre, fs, plan[k..], made), PathsOf(plan))
    decreases |plan| - k
  {
    if k == |plan| {
      assert plan[..k] == plan && plan[k..] == [];
    } else {
      var f := plan[k];
      assert f in plan;
      hide Midway, Setting, GoodPlan, Ready, Undone, CanUndo, PathsOf;
      ListOf(pre, post, sys, files);
      PlanGivesTurn(pre, post, files, plan, k);
      TurnIsReady(pre, post, sys, made, files, fs, PathsOf(plan[..k]), f);
      TurnAdvances(pre, post, sys, made, files, fs, PathsOf(plan[..k]), f);
      PathsOfNext(plan, k);
      assert plan[k..][0] == f && plan[k..][1..] == plan[k + 1..];
      PlanRuns(pre, post, sys, made, files, plan, k + 1, Undone(pre, fs, PathOf(f.name), f.status, made));
    }
  }

  lemma {:induction false} ListOf(pre: Tree, post: Tree, sys: Live, files: seq<File>)
    requires Setting(pre, post, sys, files)
    ensures IsList(pre, post, files)
  {
  }

  /**
   The selections that can be undone: no step fails, the selected paths reach their goal, deleted directories above them
   that are not selected are made anew, and every other path is as it was.
   */
  lemma {:induction false} SelectionRuns(pre: Tree, post: Tree, sys: Live, made: Node, files: seq<File>)
    requires Setting(pre, post, sys, files) && made.Dir? && Undoable(files)
    ensures Safe(pre, sys, Plan(files), made)
    ensures Midway(pre, post, sys, made, Outcome(pre, sys, Plan(files), made), Selected(files))
  {
    var plan := Plan(files);
    PlanIsGood(files);
    assert plan[..0] == [] && plan[0..] == plan;
    assert PathsOf(plan[..0]) == {} && PathsOf(plan) == Selected(files);
    Beginning(pre, post, sys, made);
    PlanRuns(pre, post, sys, made, files, plan, 0, sys);
  }

  lemma {:induction false} Beginning(pre: Tree, post: Tree, sys: Live, made: Node)
    requires WellFormed(sys)
    ensures Midway(pre, post, sys, made, sys, {})
  {
  }

  /** A deleted directory that is not selected above a selected deleted file. */
  ghost predicate LeftOut(files: seq<File>, f: File, g: File) {
    && f in files && g in files && g.undo && !f.undo && f.status == g.status == DELETED
    && PathOf(f.name) in Ancestors(PathOf(g.name))
  }

  lemma {:induction false} LeftOutIsMade(pre: Tree, post: Tree, sys: Live, files: seq<File>, f: File, g: File)
    requires Setting(pre, post, sys, files) && LeftOut(files, f, g)
    ensures IsMade(pre, post, Selected(files), PathOf(f.name))
  {
    ListedDiffers(pre, post, sys, files, f);
    ListedDiffers(pre, post, sys, files, g);
    NotDone(pre, post, sys, files, Selected(files), f);
    assert PathOf(g.name) in Selected(files);
  }

  lemma {:induction false} MadeIsLeftOut(pre: Tree, post: Tree, sys: Live, files: seq<File>, p: Path)
    returns (f: File, g: File)
    requires Setting(pre, post, sys, files) && IsMade(pre, post, Selected(files), p)
    ensures LeftOut(files, f, g)
  {
    hide Setting, IsList, Ancestors, DiffOf;
    var q :| q in Selected(files) && DiffOf(pre, post, q) == Some(DELETED) && p in Ancestors(q);
    g :| g in files && g.undo && PathOf(g.name) == q;
    ListedDiffers(pre, post, sys, files, g);
    AncestorParts(q, p);
    VisibleIsPost(pre, post, sys, files, p);
    f := FileOf(files, p, DELETED);
  }

  /**
   Nothing but the selected paths changes exactly if with a deleted file the deleted directories above it are selected.
   */
  lemma {:induction false} NothingMade(pre: Tree, post: Tree, sys: Live, files: seq<File>)
    requires Setting(pre, post, sys, files)
    ensures (forall p :: !IsMade(pre, post, Selected(files), p)) <==> forall f, g :: !LeftOut(files, f, g)
  {
    hide Setting, IsMade, LeftOut;
    forall f, g | LeftOut(files, f, g) ensures IsMade(pre, post, Selected(files), PathOf(f.name)) {
      LeftOutIsMade(pre, post, sys, files, f, g);
    }
    if p :| IsMade(pre, post, Selected(files), p) {
      var f, g := MadeIsLeftOut(pre, post, sys, files, p);
    }
  }

  // Selections that cannot be undone

  /** A path of the post snapshot that no step so far should have removed or given another type. */
  ghost predicate Stays(pre: Tree, post: Tree, done: set<Path>, q: Path) {
    && Compare.Visible(q) && NodeAt(post, q).Some?
    && (q in done ==> NodeAt(pre, q).Some? && !TypeDiffers(NodeAt(pre, q).value, NodeAt(post, q).value))
  }

  /** In the middle of any undo, whatever failed and wherever symbolic links led: these paths are as they should be. */
  ghost predicate Kept(pre: Tree, post: Tree, fs: Live, done: set<Path>) {
    && WellFormed(fs)
    && forall q | Stays(pre, post, done, q) :: q in fs && !TypeDiffers(NodeAt(post, q).value, fs[q])
  }

  /** What undoing one file promises in every state. */
  ghost predicate Stepped(pre: Tree, fs: Live, p: Path, s: Status, made: Node, now: Live) {
    && WellFormed(now)
    && (Ready(pre, fs, p, s) ==> now == Undone(pre, fs, p, s, made))
    && (s == DELETED ==> Grown(fs, now))
    && (ParentIsDirectory(fs, p) ==> KeepsOthers(fs, now, p))
  }

  lemma {:induction false} KeptAtFirst(pre: Tree, post: Tree, sys: Live, files: seq<File>)
    requires Setting(pre, post, sys, files)
    ensures Kept(pre, post, sys, {})
  {
    forall q | Stays(pre, post, {}, q) ensures q in sys && !TypeDiffers(NodeAt(post, q).value, sys[q]) {
      assert Look(sys, q) == NodeAt(post, q);
    }
  }

  lemma {:induction false} KeptOne(pre: Tree, post: Tree, fs: Live, done: set<Path>, q: Path)
    requires Kept(pre, post, fs, done) && Stays(pre, post, done, q)
    ensures q in fs && !TypeDiffers(NodeAt(post, q).value, fs[q])
  {
  }

  /** The directories above a file that is in the post snapshot are there at its turn. */
  lemma {:induction false} ParentStaysThere(pre: Tree, post: Tree, sys: Live, files: seq<File>, fs: Live,
                                            done: set<Path>, f: File)
    requires Setting(pre, post, sys, files) && Kept(pre, post, fs, done) && Turn(files, f, done) && f.status != DELETED
    ensures ParentIsDirectory(fs, PathOf(f.name))
  {
    var p := PathOf(f.name);
    var a := Parent(p);
    KeptIsWellFormed(pre, post, fs, done);
    ListedDiffers(pre, post, sys, files, f);
    if a == [] {
      RootIsThere(fs);
    } else {
      assert Valid(post);
      AncestorInTree(post, p, |p| - 1);
      hide Kept, Setting, WellFormed;
      EntryIsBelow(a, p);
      AncestorParts(p, a);
      if a in done { DoneAncestor(pre, post, sys, files, done, f, a); }
      KeptOne(pre, post, fs, done, a);
    }
  }

  /** A directory above a file of the post snapshot that was dealt with before is one in the pre snapshot as well. */
  lemma {:induction false} DoneAncestor(pre: Tree, post: Tree, sys: Live, files: seq<File>, done: set<Path>, f: File,
                                        a: Path)
    requires Setting(pre, post, sys, files) && Turn(files, f, done) && f.status != DELETED
    requires a in done && a in Ancestors(PathOf(f.name))
    ensures NodeAt(pre, a).Some? && NodeAt(pre, a).value.Dir?
  {
    hide IsList, Ancestors;
    var p := PathOf(f.name);
    ListedDiffers(pre, post, sys, files, f);
    AncestorParts(p, a);
    DoneAreListed(pre, post, files, done, a);
    var g := File(Join(a), DiffOf(pre, post, a).value, true);
    Order.Trichotomy(g.name, f.name);
    assert g in files && PathOf(g.name) == a;
    AncestorInTree(pre, p, |a|);
  }

  lemma {:induction false} KeptIsWellFormed(pre: Tree, post: Tree, fs: Live, done: set<Path>)
    requires Kept(pre, post, fs, done)
    ensures WellFormed(fs)
  {
  }

  lemma {:induction false} KeptNext(pre: Tree, post: Tree, sys: Live, made: Node, files: seq<File>, fs: Live,
                                    done: set<Path>, f: File, now: Live)
    requires Setting(pre, post, sys, files) && Kept(pre, post, fs, done) && Turn(files, f, done)
    requires Stepped(pre, fs, PathOf(f.name), f.status, made, now)
    ensures Kept(pre, post, now, done + {PathOf(f.name)})
  {
    var p := PathOf(f.name);
    hide Setting, Ready, Undone, Turn;
    TurnOf(files, f, done);
    ListedDiffers(pre, post, sys, files, f);
    if f.status != DELETED { ParentStaysThere(pre, post, sys, files, fs, done, f); }
    forall q | Stays(pre, post, done + {p}, q) ensures q in now && !TypeDiffers(NodeAt(post, q).value, now[q]) {
      assert Stays(pre, post, done, q);
      KeptOne(pre, post, fs, done, q);
      if q == p { StaysWhenModified(pre, post, sys, made, files, fs, f); }
    }
  }

  lemma {:induction false} StaysWhenModified(pre: Tree, post: Tree, sys: Live, made: Node, files: seq<File>, fs: Live,
                                             f: File)
    requires Setting(pre, post, sys, files) && f in files
    requires var p := PathOf(f.name);
      && NodeAt(pre, p).Some? && NodeAt(post, p).Some? && !TypeDiffers(NodeAt(pre, p).value, NodeAt(post, p).value)
      && p in fs && !TypeDiffers(NodeAt(post, p).value, fs[p])
    ensures var p := PathOf(f.name);
      && Ready(pre, fs, p, f.status)
      && p in Undone(pre, fs, p, f.status, made)
      && !TypeDiffers(NodeAt(post, p).value, Undone(pre, fs, p, f.status, made)[p])
  {
    ListedDiffers(pre, post, sys, files, f);
  }

  /**
   When its turn comes, undoing a hindered file fails. A file that cannot be undone and is not hindered has a symbolic
   link above it, and then it depends on where that leads.
   */
  lemma {:induction false} TurnFails(pre: Tree, post: Tree, sys: Live, files: seq<File>, fs: Live, done: set<Path>,
                                     f: File)
    requires Setting(pre, post, sys, files) && Kept(pre, post, fs, done) && Turn(files, f, done)
    ensures Hindered(post, files, f) ==> Blocked(fs, PathOf(f.name), f.status)
    ensures !CanUndo(files, f) && !Hindered(post, files, f) ==> f.status == DELETED && LinkAbove(fs, PathOf(f.name))
  {
    TurnOf(files, f, done);
    hide Setting, Kept, Turn, CanRemove, Bars, CanReach;
    if !CanRemove(files, f) {
      FailsToRemove(pre, post, sys, files, fs, done, f);
    } else if g :| Bars(post, files, f, g) {
      FailsAtBar(pre, post, sys, files, fs, done, f, g);
    } else if !CanReach(files, f) {
      LeadsElsewhere(pre, post, sys, files, fs, done, f);
    }
  }

  lemma {:induction false} FailsToRemove(pre: Tree, post: Tree, sys: Live, files: seq<File>, fs: Live, done: set<Path>,
                                         f: File)
    requires Setting(pre, post, sys, files) && Kept(pre, post, fs, done) && done <= Selected(files)
    requires !CanRemove(files, f)
    ensures Blocked(fs, PathOf(f.name), f.status)
  {
    hide Setting, Kept, Ancestors, Selected;
    var g :| g in files && g.status == CREATED && PathOf(f.name) in Ancestors(PathOf(g.name)) && !g.undo;
    StillThere(pre, post, sys, files, fs, done, g);
    EntryBelow(fs, PathOf(f.name), PathOf(g.name));
  }

  lemma {:induction false} FailsAtBar(pre: Tree, post: Tree, sys: Live, files: seq<File>, fs: Live, done: set<Path>,
                                      f: File, g: File)
    requires Setting(pre, post, sys, files) && Kept(pre, post, fs, done) && done <= Selected(files)
    requires f in files && Bars(post, files, f, g)
    ensures Blocked(fs, PathOf(f.name), f.status)
  {
    hide Setting, Kept, Ancestors, Selected;
    StillThere(pre, post, sys, files, fs, done, g);
    WasDirectory(pre, post, sys, files, f, g);
  }

  lemma {:induction false} LeadsElsewhere(pre: Tree, post: Tree, sys: Live, files: seq<File>, fs: Live,
                                          done: set<Path>, f: File)
    requires Setting(pre, post, sys, files) && Kept(pre, post, fs, done) && done <= Selected(files)
    requires !CanReach(files, f) && forall g :: !Bars(post, files, f, g)
    ensures f.status == DELETED && LinkAbove(fs, PathOf(f.name))
  {
    hide Setting, Kept, Ancestors, Selected;
    var g :| g in files && g.status.kind && PathOf(g.name) in Ancestors(PathOf(f.name)) && !g.undo;
    StillThere(pre, post, sys, files, fs, done, g);
    assert !Bars(post, files, f, g);
  }

  lemma {:induction false} StillThere(pre: Tree, post: Tree, sys: Live, files: seq<File>, fs: Live, done: set<Path>,
                                      g: File)
    requires Setting(pre, post, sys, files) && Kept(pre, post, fs, done) && done <= Selected(files)
    requires g in files && !g.undo && (g.status == CREATED || g.status.kind)
    ensures var q := PathOf(g.name);
      WellFormed(fs) && NodeAt(post, q).Some? && q in fs && !TypeDiffers(NodeAt(post, q).value, fs[q])
  {
    ListedDiffers(pre, post, sys, files, g);
    NotDone(pre, post, sys, files, done, g);
    KeptOne(pre, post, fs, done, PathOf(g.name));
  }

  lemma {:induction false} WasDirectory(pre: Tree, post: Tree, sys: Live, files: seq<File>, f: File, g: File)
    requires Setting(pre, post, sys, files) && f in files && Bars(post, files, f, g)
    ensures !NodeAt(post, PathOf(g.name)).value.Dir?
  {
    hide Setting, IsList, Ancestors;
    ListedDiffers(pre, post, sys, files, f);
    ListedDiffers(pre, post, sys, files, g);
    AncestorParts(PathOf(f.name), PathOf(g.name));
    VisibleIsPost(pre, post, sys, files, PathOf(g.name));
    AncestorInTree(pre, PathOf(f.name), |PathOf(g.name)|);
  }

  /** An undoable selection is not doomed. */
  lemma {:induction false} NotBoth(post: Tree, files: seq<File>)
    ensures !(Undoable(files) && Doomed(post, files))
  {
  }

  // A directory with one file, replaced by a symbolic link

  const FILE := Tree(Info(Reg(0x1A4, 0, 0, ""), 0, 1, 3), [])

  function DirectoryTree(a: Name, x: Name): Tree {
    Tree(Info(Dir(0x1ED, 0, 0), 0, 1, 1), [(a, Tree(Info(Dir(0x1FF, 0, 0), 0, 1, 2), [(x, FILE)]))])
  }

  function LinkTree(a: Name, target: string): Tree {
    Tree(Info(Dir(0x1ED, 0, 0), 0, 1, 1), [(a, Tree(Info(Link(0, 0, target), 0, 1, 2), []))])
  }

  /** Only the file is selected. */
  function LinkList(a: Name, x: Name): seq<File> {
    [File(Join([a]), NOTHING.(kind := true), false), File(Join([a, x]), DELETED, true)]
  }

  lemma {:induction false} LinkTrees(a: Name, x: Name, target: string)
    requires GoodName(a) && GoodName(x)
    ensures Valid(DirectoryTree(a, x)) && Valid(LinkTree(a, target))
    ensures NodeAt(DirectoryTree(a, x), [a]) == Some(Dir(0x1FF, 0, 0))
    ensures NodeAt(DirectoryTree(a, x), [a, x]) == Some(FILE.info.node)
    ensures NodeAt(LinkTree(a, target), [a]) == Some(Link(0, 0, target)) && At(LinkTree(a, target), [a, x]).None?
    ensures DiffOf(DirectoryTree(a, x), LinkTree(a, target), [a]) == Some(NOTHING.(kind := true))
    ensures DiffOf(DirectoryTree(a, x), LinkTree(a, target), [a, x]) == Some(DELETED)
  {
    var pre, post := DirectoryTree(a, x), LinkTree(a, target);
    ChildAt(pre, 0);
    ChildAt(pre.entries[0].1, 0);
    ChildAt(post, 0);
    var d, l := pre.entries[0].1, post.entries[0].1;
    assert [a][1..] == [] && [a, x][1..] == [x] && [x][1..] == [];
    assert Child(pre, [a][0]) == Some(d) && At(pre, [a]) == At(d, []) && Child(post, [a][0]) == Some(l);
    assert At(post, [a]) == At(l, []);
    assert Child(d, [x][0]) == Some(FILE) && At(d, [x]) == At(FILE, []) && At(pre, [a, x]) == At(d, [x]);
    OnlyPath(post, a, l, [a, x]);
  }

  lemma {:induction false} LinkPaths(a: Name, x: Name, target: string, p: Path)
    requires GoodName(a) && GoodName(x)
    ensures At(DirectoryTree(a, x), p).Some? <==> p == [] || p == [a] || p == [a, x]
    ensures At(LinkTree(a, target), p).Some? <==> p == [] || p == [a]
  {
    OnlyPaths(DirectoryTree(a, x), a, DirectoryTree(a, x).entries[0].1, x, p);
    OnlyPath(LinkTree(a, target), a, LinkTree(a, target).entries[0].1, p);
  }

  lemma {:induction false} LinkDiffers(a: Name, x: Name, target: string, p: Path)
    requires GoodName(a) && GoodName(x) && p != [] && DiffOf(DirectoryTree(a, x), LinkTree(a, target), p).Some?
    ensures p == [a] || p == [a, x]
  {
    LinkPaths(a, x, target, p);
  }

  lemma {:induction false} LinkListSorted(a: Name, x: Name)
    requires GoodName(a) && GoodName(x)
    ensures Order.StrictlySorted(LinkList(a, x), NameOf)
    ensures PathOf(Join([a])) == [a] && PathOf(Join([a, x])) == [a, x] && [a] in Ancestors([a, x])
  {
    PathOfJoin([a]);
    PathOfJoin([a, x]);
    AncestorComesFirst([a], [x]);
    assert [a] + [x] == [a, x] && [a, x][..1] == [a];
  }

  lemma {:induction false} LinkListIsList(a: Name, x: Name, target: string)
    requires GoodName(a) && GoodName(x) && a != SNAPSHOTS_NAME
    ensures IsList(DirectoryTree(a, x), LinkTree(a, target), LinkList(a, x))
  {
    hide DirectoryTree, LinkTree, Join, PathOf, DiffOf, Order.StrictlySorted, NodeAt, Valid, Ancestors, At;
    var pre, post, files := DirectoryTree(a, x), LinkTree(a, target), LinkList(a, x);
    LinkTrees(a, x, target);
    LinkListSorted(a, x);
    assert files[0] in files && files[1] in files;
    forall p: Path | Compare.Visible(p) && DiffOf(pre, post, p).Some?
      ensures PathOf(Join(p)) == p && FileOf(files, p, DiffOf(pre, post, p).value) in files
    {
      LinkDiffers(a, x, target, p);
      assert File(Join([a]), NOTHING.(kind := true), true) !in files;
    }
  }

  /**
   A selection that is neither: a directory was replaced by a symbolic link, and only the file that was in it is
   selected. If the link leads to a directory the file is created there, and no step fails.
   */
  lemma {:induction false} LinkLeavesOpen(a: Name, x: Name, target: string)
    requires GoodName(a) && GoodName(x) && a != SNAPSHOTS_NAME
    ensures var pre, post, files := DirectoryTree(a, x), LinkTree(a, target), LinkList(a, x);
      && Valid(pre) && Valid(post) && IsList(pre, post, files)
      && !Undoable(files) && !Doomed(post, files)
  {
    var post, files := LinkTree(a, target), LinkList(a, x);
    hide DirectoryTree, LinkTree, Join, PathOf, IsList, Ancestors, At, DiffOf, Valid;
    LinkTrees(a, x, target);
    LinkListSorted(a, x);
    LinkListIsList(a, x, target);
    assert files[0] in files && files[1] in files;
    assert !CanReach(files, files[1]);
    forall f | f in files && f.undo ensures !Hindered(post, files, f) {
      assert f == files[1];
      forall g ensures !Bars(post, files, f, g) { assert g in files && g.status.kind ==> g == files[0]; }
    }
  }

  /** The paths of small trees. */
  lemma {:induction false} OnlyPath(t: Tree, a: Name, c: Tree, p: Path)
    requires t.entries == [(a, c)] && c.entries == []
    ensures At(t, p).Some? <==> p == [] || p == [a]
  {
    assert Names(t) == [a] && Names(c) == [];
    if |p| > 1 && p[0] == a { assert Child(c, p[1..][0]).None?; }
  }

  lemma {:induction false} OnlyPaths(t: Tree, a: Name, c: Tree, x: Name, p: Path)
    requires t.entries == [(a, c)] && |c.entries| == 1 && c.entries[0].0 == x && c.entries[0].1.entries == []
    ensures At(t, p).Some? <==> p == [] || p == [a] || p == [a, x]
  {
    assert Names(t) == [a];
    if p != [] && p[0] == a {
      assert Child(t, a) == Some(c);
      assert c.entries == [(x, c.entries[0].1)];
      OnlyPath(c, x, c.entries[0].1, p[1..]);
      assert p == [a] + p[1..];
    }
  }

  // What is restored

  /** A file with a content of its own, of one type on both sides. */
  ghost predicate Edited(a: Option<Info>, b: Option<Info>) {
    a.Some? && b.Some? && ((a.value.node.Reg? && b.value.node.Reg?) || (a.value.node.Link? && b.value.node.Link?))
  }

  /** No content was changed without a change of the time, or within one inode without a change of the size. */
  ghost predicate Trusted(pre: Tree, post: Tree, p: Path) {
    var a, b := At(pre, p), At(post, p);
    Edited(a, b) && Compare.Overlooked(a.value, b.value) ==> a.value.node.content == b.value.node.content
  }

  /** The promise of time stamps and inodes: where either is the same the content is. */
  ghost predicate Stamped(pre: Tree, post: Tree, p: Path) {
    var a, b := At(pre, p), At(post, p);
    Edited(a, b) && (a.value.mtime == b.value.mtime || (a.value.dev == b.value.dev && a.value.ino == b.value.ino))
    ==> a.value.node.content == b.value.node.content
  }

  lemma {:induction false} GoalIsPre(pre: Tree, post: Tree, p: Path)
    requires Compare.Visible(p) && NoSpecial(pre) && NoSpecial(post)
    ensures Goal(pre, post, p) == NodeAt(pre, p) <==> Trusted(pre, post, p)
  {
  }

  /** What Now says of a selection: selected paths are as in pre, the others as before or made above a selected one. */
  lemma {:induction false} NowRestoresAt(pre: Tree, post: Tree, sys: Live, made: Node, files: seq<File>, p: Path)
    requires Setting(pre, post, sys, files)
    ensures var now := Now(pre, post, sys, made, Selected(files), p);
      && (p in Selected(files) ==> (now == NodeAt(pre, p) <==> Trusted(pre, post, p)))
      && (p !in Selected(files) && now != Look(sys, p) ==>
            now == Some(made) && Look(sys, p).None? && exists q :: q in Selected(files) && p in Ancestors(q))
  {
    hide Setting, Selected, Trusted, Goal, Ancestors, IsMade;
    if p in Selected(files) {
      GoalOfSelected(pre, post, sys, files, p);
    } else if IsMade(pre, post, Selected(files), p) {
      MadeAbove(pre, post, sys, files, p);
    }
  }

  lemma {:induction false} GoalOfSelected(pre: Tree, post: Tree, sys: Live, files: seq<File>, p: Path)
    requires Setting(pre, post, sys, files) && p in Selected(files)
    ensures Goal(pre, post, p) == NodeAt(pre, p) <==> Trusted(pre, post, p)
  {
    hide IsList, WellFormed, Trusted, Goal, NoSpecial, Selected;
    DoneAreListed(pre, post, files, Selected(files), p);
    GoalIsPre(pre, post, p);
  }

  lemma {:induction false} MadeAbove(pre: Tree, post: Tree, sys: Live, files: seq<File>, p: Path)
    requires Setting(pre, post, sys, files) && IsMade(pre, post, Selected(files), p)
    ensures Look(sys, p).None? && exists q :: q in Selected(files) && p in Ancestors(q)
  {
    hide IsList, WellFormed, NoSpecial, Selected, Ancestors;
    var q :| q in Selected(files) && DiffOf(pre, post, q) == Some(DELETED) && p in Ancestors(q);
    DoneAreListed(pre, post, files, Selected(files), q);
    AncestorParts(q, p);
    VisibleIsPost(pre, post, sys, files, p);
  }

  lemma {:induction false} NowRestores(pre: Tree, post: Tree, sys: Live, made: Node, files: seq<File>)
    requires Setting(pre, post, sys, files)
    ensures forall p: Path | p in Selected(files) ::
              Now(pre, post, sys, made, Selected(files), p) == NodeAt(pre, p) <==> Trusted(pre, post, p)
    ensures forall p: Path | p !in Selected(files) ::
              || Now(pre, post, sys, made, Selected(files), p) == Look(sys, p)
              || (Now(pre, post, sys, made, Selected(files), p) == Some(made) && Look(sys, p).None?
                  && exists q :: q in Selected(files) && p in Ancestors(q))
  {
    hide Now, Trusted, Setting, Selected, Ancestors;
    forall p: Path
      ensures p in Selected(files) ==>
                (Now(pre, post, sys, made, Selected(files), p) == NodeAt(pre, p) <==> Trusted(pre, post, p))
      ensures p !in Selected(files) ==>
                || Now(pre, post, sys, made, Selected(files), p) == Look(sys, p)
                || (Now(pre, post, sys, made, Selected(files), p) == Some(made) && Look(sys, p).None?
                    && exists q :: q in Selected(files) && p in Ancestors(q))
    {
      NowRestoresAt(pre, post, sys, made, files, p);
    }
  }

  /** Two snapshots with one file each, changed within the resolution of its time stamp, are not told apart. */
  lemma {:induction false} Untrusted(name: Name, before: string, after: string) returns (pre: Tree, post: Tree)
    requires GoodName(name) && name != SNAPSHOTS_NAME && before != after
    ensures Valid(pre) && Valid(post) && Compare.Visible([name]) && At(pre, [name]).Some? && At(post, [name]).Some?
    ensures DiffOf(pre, post, [name]).None? && !Trusted(pre, post, [name])
  {
    var root := Info(Dir(0x1ED, 0, 0), 0, 1, 1);
    var a, b := Tree(Info(Reg(0x1A4, 0, 0, before), 0, 1, 2), []), Tree(Info(Reg(0x1A4, 0, 0, after), 0, 1, 2), []);
    pre, post := Tree(root, [(name, a)]), Tree(root, [(name, b)]);
    ChildAt(pre, 0);
    ChildAt(post, 0);
    assert [name][1..] == [];
  }

  /**
   Undo restores. With every file selected no step fails, nothing outside the comparison is touched, and the result is
   the pre snapshot exactly where the comparison was right about equal contents.
   */
  lemma {:induction false} UndoRestores(pre: Tree, post: Tree, sys: Live, made: Node, files: seq<File>)
    requires Setting(pre, post, sys, files) && made.Dir? && forall f | f in files :: f.undo
    ensures Safe(pre, sys, Plan(files), made)
    ensures var final := Outcome(pre, sys, Plan(files), made);
      && WellFormed(final)
      && (forall p: Path | !Compare.Visible(p) :: Look(final, p) == Look(sys, p))
      && (forall p: Path | Compare.Visible(p) :: Look(final, p) == NodeAt(pre, p) <==> Trusted(pre, post, p))
  {
    assert Undoable(files);
    SelectionRuns(pre, post, sys, made, files);
    NothingMade(pre, post, sys, files);
    var final := Outcome(pre, sys, Plan(files), made);
    forall p: Path ensures Look(final, p) == if Compare.Visible(p) then Goal(pre, post, p) else Look(sys, p) {
      AllSelected(pre, post, sys, files, p);
      assert Look(final, p) == Now(pre, post, sys, made, Selected(files), p);
    }
    forall p: Path | Compare.Visible(p) ensures Look(final, p) == NodeAt(pre, p) <==> Trusted(pre, post, p) {
      GoalIsPre(pre, post, p);
    }
  }

  lemma {:induction false} AllSelected(pre: Tree, post: Tree, sys: Live, files: seq<File>, p: Path)
    requires Setting(pre, post, sys, files) && forall f | f in files :: f.undo
    ensures p in Selected(files) ==> Compare.Visible(p)
    ensures Compare.Visible(p) && p !in Selected(files) ==> Goal(pre, post, p) == Look(sys, p)
  {
    if p in Selected(files) {
      DoneAreListed(pre, post, files, Selected(files), p);
    } else if Compare.Visible(p) {
      VisibleIsPost(pre, post, sys, files, p);
    }
  }
}
