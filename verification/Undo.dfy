/**
 Undoing one file (File::doUndo and its helpers in snapper/File.cc): system calls on a live directory tree, and the
 creation, deletion and modification of a file after the pre snapshot.
 */
module Undo {
  import opened Wrappers
  import opened FileStatus
  import opened Trees

  type Live = map<Path, Node>

  function Look(fs: Live, p: Path): Option<Node> {
    if p in fs then Some(fs[p]) else None
  }

  function NodeAt(t: Tree, p: Path): Option<Node> {
    match At(t, p)
    case None => None
    case Some(i) => Some(i.node)
  }

  function Parent(p: Path): Path
    requires p != []
  {
    p[..|p| - 1]
  }

  predicate ParentIsDirectory(fs: Live, p: Path) {
    p != [] && Parent(p) in fs && fs[Parent(p)].Dir?
  }

  predicate HasEntries(fs: Live, p: Path) {
    exists q | q in fs :: q != [] && Parent(q) == p
  }

  /** A file system: a root directory, and everything else in a directory. */
  predicate WellFormed(fs: Live) {
    [] in fs && fs[[]].Dir? && forall p | p in fs && p != [] :: ParentIsDirectory(fs, p)
  }

  /** The paths between the root and a path. */
  function Ancestors(p: Path): set<Path> {
    set k | 0 < k < |p| :: p[..k]
  }

  /** Whatever is there on the way to a path is a directory. */
  predicate WayIsFree(fs: Live, p: Path) {
    forall a | a in Ancestors(p) && a in fs :: fs[a].Dir?
  }

  /** A symbolic link stands on the way, which the system follows. */
  predicate LinkAbove(fs: Live, p: Path) {
    exists a :: a in Ancestors(p) && a in fs && fs[a].Link?
  }

  /** Something stands on the way that is neither a directory nor a symbolic link. */
  predicate Barred(fs: Live, p: Path) {
    exists a :: a in Ancestors(p) && a in fs && !fs[a].Dir? && !fs[a].Link?
  }

  /** Whatever was there is still there and of the same type. */
  predicate Grown(fs: Live, now: Live) {
    forall q | q in fs :: q in now && !TypeDiffers(fs[q], now[q])
  }

  /** The same for all paths but one. */
  predicate KeepsOthers(fs: Live, now: Live, p: Path) {
    forall q | q in fs && q != p :: q in now && !TypeDiffers(fs[q], now[q])
  }

  /** The tree with the missing directories above a path. */
  function WithParents(fs: Live, p: Path, made: Node): Live {
    map q | q in fs.Keys + Ancestors(p) :: if q in fs then fs[q] else made
  }

  /** The target can be made at the path: it is free, or a directory or file that is there is taken over. */
  predicate CanTake(fs: Live, p: Path, target: Node) {
    p !in fs || (target.Dir? && fs[p].Dir?) || (target.Reg? && fs[p].Reg?)
  }

  lemma {:induction false} AncestorsThere(fs: Live, p: Path, k: nat)
    requires WellFormed(fs) && p in fs && k < |p|
    ensures p[..k] in fs && fs[p[..k]].Dir?
    decreases |p|
  {
    assert ParentIsDirectory(fs, p);
    if k < |p| - 1 {
      assert Parent(p)[..k] == p[..k];
      AncestorsThere(fs, Parent(p), k);
    }
  }

  /** Where the parent is there, so are all above it. */
  lemma {:induction false} NoParentsMissing(fs: Live, p: Path, made: Node)
    requires WellFormed(fs) && p != [] && Parent(p) in fs
    ensures WithParents(fs, p, made) == fs
    ensures WayIsFree(fs, p) <==> fs[Parent(p)].Dir?
  {
    forall a | a in Ancestors(p) ensures a in fs && (a == Parent(p) || fs[a].Dir?) {
      var k :| 0 < k < |p| && p[..k] == a;
      if k < |p| - 1 {
        assert Parent(p)[..k] == a;
        AncestorsThere(fs, Parent(p), k);
      }
    }
    if |p| > 1 { assert p[..|p| - 1] in Ancestors(p); }
  }

  /** The way to a path has at most one thing on it that is not a directory. */
  lemma {:induction false} WaysDiffer(fs: Live, p: Path)
    requires WellFormed(fs)
    ensures WayIsFree(fs, p) <==> !LinkAbove(fs, p) && !Barred(fs, p)
    ensures !(LinkAbove(fs, p) && Barred(fs, p))
  {
    forall a, b | a in Ancestors(p) && b in Ancestors(p) && a in fs && b in fs && !fs[a].Dir? && !fs[b].Dir?
      ensures a == b
    {
      var k :| 0 < k < |p| && p[..k] == a;
      var m :| 0 < m < |p| && p[..m] == b;
      if k < m {
        assert b[..k] == a;
        AncestorsThere(fs, b, k);
      } else if m < k {
        assert a[..m] == b;
        AncestorsThere(fs, a, m);
      }
    }
  }

  /** Under a directory nothing but directories is on the way. */
  lemma {:induction false} UnderDirectory(fs: Live, p: Path, made: Node)
    requires WellFormed(fs) && ParentIsDirectory(fs, p)
    ensures WayIsFree(fs, p) && !LinkAbove(fs, p) && !Barred(fs, p) && WithParents(fs, p, made) == fs
  {
    NoParentsMissing(fs, p, made);
  }

  lemma {:induction false} KeepsParent(fs: Live, now: Live, p: Path)
    requires WellFormed(now) && ParentIsDirectory(fs, p) && KeepsOthers(fs, now, p)
    ensures ParentIsDirectory(now, p)
  {
    assert Parent(p) != p;
  }

  lemma {:induction false} KeepsAt(fs: Live, p: Path, node: Node)
    ensures KeepsOthers(fs, fs, p) && KeepsOthers(fs, fs[p := node], p) && KeepsOthers(fs, fs - {p}, p)
  {
  }

  lemma {:induction false} KeepsOn(a: Live, b: Live, c: Live, p: Path)
    requires KeepsOthers(a, b, p) && KeepsOthers(b, c, p)
    ensures KeepsOthers(a, c, p)
  {
  }

  lemma {:induction false} GrownKeeps(fs: Live, now: Live, p: Path)
    requires Grown(fs, now)
    ensures KeepsOthers(fs, now, p)
  {
  }

  lemma {:induction false} AncestorsOfParent(p: Path)
    requires |p| > 1
    ensures Ancestors(p) == Ancestors(Parent(p)) + {Parent(p)} && Parent(p) !in Ancestors(Parent(p))
  {
    var q := Parent(p);
    forall a ensures a in Ancestors(p) <==> a in Ancestors(q) || a == q {
      if a in Ancestors(p) {
        var k :| 0 < k < |p| && p[..k] == a;
        if k < |q| { assert q[..k] == a; }
      }
      if a in Ancestors(q) {
        var k :| 0 < k < |q| && q[..k] == a;
        assert p[..k] == a;
      }
    }
    assert p[..|p| - 1] == q;
  }

  /** A missing parent is made after the ones above it. */
  lemma {:induction false} OneMoreParent(fs: Live, p: Path, made: Node)
    requires |p| > 1 && Parent(p) !in fs
    ensures WayIsFree(fs, p) <==> WayIsFree(fs, Parent(p))
    ensures LinkAbove(fs, p) <==> LinkAbove(fs, Parent(p))
    ensures WithParents(fs, p, made) == WithParents(fs, Parent(p), made)[Parent(p) := made]
    ensures Parent(p) !in WithParents(fs, Parent(p), made)
  {
    AncestorsOfParent(p);
  }

  /** What is left of a node after a modification towards a target of the same type. */
  function Modified(target: Node, cur: Node, s: Status): Node
    requires !TypeDiffers(target, cur)
  {
    var own := s.owner || s.group;
    var uid := if own then target.uid else cur.uid;
    var gid := if own then target.gid else cur.gid;
    var mode := if own || s.permissions then Mode(target) else Mode(cur);
    match cur
    case Dir(_, _, _) => Dir(mode, uid, gid)
    case Reg(_, _, _, content) => if s.content then target else Reg(mode, uid, gid, content)
    case Link(_, _, content) => if s.content then target else Link(uid, gid, content)
    case Special(format, _, _, _) => Special(format, mode, uid, gid)
  }

  /** The states in which undoing one file works. */
  ghost predicate Ready(pre: Tree, fs: Live, p: Path, s: Status) {
    && p != []
    && (s != CREATED ==> NodeAt(pre, p).Some? && !NodeAt(pre, p).value.Special?)
    && (s == DELETED ==> p !in fs && WayIsFree(fs, p))
    && (s == CREATED || s.kind ==> p in fs && !fs[p].Special? && (fs[p].Dir? ==> !HasEntries(fs, p)))
    && (s != CREATED && s != DELETED ==> !s.created && !s.deleted && p in fs)
    && (s != CREATED && s != DELETED && !s.kind ==> !TypeDiffers(NodeAt(pre, p).value, fs[p]))
  }

  /** States in which it fails: a directory to remove is not empty, or something bars the way that no call follows. */
  ghost predicate Blocked(fs: Live, p: Path, s: Status) {
    || ((s == CREATED || s.kind) && p in fs && fs[p].Dir? && HasEntries(fs, p))
    || (s == DELETED && Barred(fs, p))
  }

  /**
   What undoing one file makes of the tree: the one path changes, and the directories above it if they are missing.
   */
  ghost function Undone(pre: Tree, fs: Live, p: Path, s: Status, made: Node): Live
    requires Ready(pre, fs, p, s)
  {
    if s == CREATED then fs - {p}
    else if s == DELETED then WithParents(fs, p, made)[p := NodeAt(pre, p).value]
    else if s.kind then fs[p := NodeAt(pre, p).value]
    else fs[p := Modified(NodeAt(pre, p).value, fs[p], s)]
  }

  /** The error numbers of mkdir that the source tells apart. */
  datatype Errno = Done | Exists | Other

  lemma {:induction false} UpdateSame(fs: Live, p: Path)
    requires p in fs
    ensures fs == fs[p := fs[p]]
  {
  }

  class System {
    /** The pre snapshot, from which files are restored. */
    const pre: Tree
    /** The mode that open leaves after applying the umask. */
    const openMode: nat -> nat
    /** The mode that chown leaves on what is not a directory: it may clear the set-user-id bits. */
    const chownMode: nat -> nat
    var nodes: Live

    constructor (pre: Tree, nodes: Live, openMode: nat -> nat, chownMode: nat -> nat)
      ensures this.pre == pre && this.nodes == nodes && this.openMode == openMode && this.chownMode == chownMode
    {
      this.pre, this.nodes, this.openMode, this.chownMode := pre, nodes, openMode, chownMode;
    }

    // System calls

    method Mkdir(p: Path, mode: nat) returns (e: Errno)
      requires WellFormed(nodes)
      modifies this
      ensures WellFormed(nodes)
      ensures if p in old(nodes) then e == Exists && nodes == old(nodes)
              else if !ParentIsDirectory(old(nodes), p) then e == Other && nodes == old(nodes)
              else e == Done && nodes == old(nodes)[p := Dir(openMode(mode), 0, 0)]
    {
      if p in nodes { return Exists; }
      if !ParentIsDirectory(nodes, p) { return Other; }
      nodes := nodes[p := Dir(openMode(mode), 0, 0)];
      return Done;
    }

    method Rmdir(p: Path) returns (ok: bool)
      requires WellFormed(nodes) && p != []
      modifies this
      ensures WellFormed(nodes)
      ensures ok <==> p in old(nodes) && old(nodes)[p].Dir? && !HasEntries(old(nodes), p)
      ensures nodes == if ok then old(nodes) - {p} else old(nodes)
    {
      if p !in nodes || !nodes[p].Dir? || HasEntries(nodes, p) { return false; }
      nodes := nodes - {p};
      return true;
    }

    method Unlink(p: Path) returns (ok: bool)
      requires WellFormed(nodes)
      modifies this
      ensures WellFormed(nodes)
      ensures ok <==> p in old(nodes) && !old(nodes)[p].Dir?
      ensures nodes == if ok then old(nodes) - {p} else old(nodes)
    {
      if p !in nodes || nodes[p].Dir? { return false; }
      nodes := nodes - {p};
      return true;
    }

    /** open with O_CREAT and O_TRUNC: an existing file is emptied, anything else of the name is refused. */
    method OpenForWriting(p: Path, mode: nat) returns (ok: bool)
      requires WellFormed(nodes)
      modifies this
      ensures WellFormed(nodes)
      ensures ok <==> if p in old(nodes) then old(nodes)[p].Reg? else ParentIsDirectory(old(nodes), p)
      ensures nodes == if !ok then old(nodes)
                       else if p in old(nodes) then old(nodes)[p := old(nodes)[p].(content := "")]
                       else old(nodes)[p := Reg(openMode(mode), 0, 0, "")]
    {
      if p in nodes {
        if !nodes[p].Reg? { return false; }
        nodes := nodes[p := nodes[p].(content := "")];
        return true;
      }
      if !ParentIsDirectory(nodes, p) { return false; }
      nodes := nodes[p := Reg(openMode(mode), 0, 0, "")];
      return true;
    }

    method Symlink(p: Path, target: string) returns (ok: bool)
      requires WellFormed(nodes)
      modifies this
      ensures WellFormed(nodes)
      ensures ok <==> p !in old(nodes) && ParentIsDirectory(old(nodes), p)
      ensures nodes == if ok then old(nodes)[p := Link(0, 0, target)] else old(nodes)
    {
      if p in nodes || !ParentIsDirectory(nodes, p) { return false; }
      nodes := nodes[p := Link(0, 0, target)];
      return true;
    }

    function Chowned(n: Node, uid: nat, gid: nat): (r: Node)
      ensures r.uid == uid && r.gid == gid && !TypeDiffers(r, n) && (n.Dir? ==> r.mode == n.mode)
      ensures (n.Reg? || n.Link?) ==> r.content == n.content
    {
      match n
      case Dir(mode, _, _) => Dir(mode, uid, gid)
      case Reg(mode, _, _, content) => Reg(chownMode(mode), uid, gid, content)
      case Link(_, _, content) => Link(uid, gid, content)
      case Special(format, mode, _, _) => Special(format, chownMode(mode), uid, gid)
    }

    method Lchown(p: Path, uid: nat, gid: nat) returns (ok: bool)
      requires WellFormed(nodes)
      modifies this
      ensures WellFormed(nodes)
      ensures ok <==> p in old(nodes)
      ensures nodes == if ok then old(nodes)[p := Chowned(old(nodes)[p], uid, gid)] else old(nodes)
    {
      if p !in nodes { return false; }
      nodes := nodes[p := Chowned(nodes[p], uid, gid)];
      return true;
    }

    /** chmod on what is not a symbolic link. */
    method Chmod(p: Path, mode: nat) returns (ok: bool)
      requires WellFormed(nodes)
      modifies this
      ensures WellFormed(nodes)
      ensures ok <==> p in old(nodes) && !old(nodes)[p].Link?
      ensures nodes == if ok then old(nodes)[p := old(nodes)[p].(mode := mode)] else old(nodes)
    {
      if p !in nodes || nodes[p].Link? { return false; }
      nodes := nodes[p := nodes[p].(mode := mode)];
      return true;
    }

    /** clonefile or copyfile into the opened file. */
    method CopyContent(p: Path, content: string)
      requires WellFormed(nodes) && p in nodes && nodes[p].Reg?
      modifies this
      ensures WellFormed(nodes)
      ensures nodes == old(nodes)[p := old(nodes)[p].(content := content)]
    {
      nodes := nodes[p := nodes[p].(content := content)];
    }

    /**
     Calls that create or change something through a symbolic link: wherever it leads, nothing goes or changes type.
     */
    method ThroughLink() returns (ok: bool)
      requires WellFormed(nodes)
      modifies this
      ensures WellFormed(nodes) && Grown(old(nodes), nodes)
    {
      ok := *;
      var other: Live := *;
      if WellFormed(other) && Grown(nodes, other) { nodes := other; }
    }

    /** Calls that may also delete something through a symbolic link. */
    method DeleteThroughLink() returns (ok: bool)
      requires WellFormed(nodes)
      modifies this
      ensures WellFormed(nodes)
    {
      ok := *;
      var other: Live := *;
      if WellFormed(other) { nodes := other; }
    }

    // Restoring one file

    /** What mkdir makes of a missing directory on the way to a file. */
    function Made(): Node {
      Dir(openMode(0x1FF), 0, 0)
    }

    /** Makes all directories that are missing above the path, or none; at a symbolic link the outcome is left open. */
    method CreateParentDirectories(p: Path) returns (ok: bool)
      requires WellFormed(nodes) && p != []
      modifies this
      ensures WellFormed(nodes) && Grown(old(nodes), nodes)
      ensures !LinkAbove(old(nodes), p) ==> (ok <==> WayIsFree(old(nodes), p))
      ensures !LinkAbove(old(nodes), p) ==> nodes == if ok then WithParents(old(nodes), p, Made()) else old(nodes)
      ensures !LinkAbove(old(nodes), p) && ok ==> ParentIsDirectory(nodes, p)
      decreases |p|
    {
      hide WellFormed;
      if |p| == 1 {
        assert Parent(p) == [];
        RootIsThere(nodes);
        NoParentsMissing(nodes, p, Made());
        return true;
      }
      if LinkAbove(nodes, p) {
        ok := ThroughLink();
        return;
      }
      WaysDiffer(nodes, p);
      var leading := Parent(p);
      if leading in nodes {
        NoParentsMissing(nodes, p, Made());
        return nodes[leading].Dir?;
      }
      OneMoreParent(nodes, p, Made());
      ok := CreateParentDirectories(leading);
      if !ok { return false; }
      var e := Mkdir(leading, 0x1FF);
      ok := e == Done;
    }

    method PutDirectory(p: Path, target: Node) returns (ok: bool)
      requires WellFormed(nodes) && target.Dir? && !FollowsLink(nodes, p)
      modifies this
      ensures WellFormed(nodes)
      ensures ok <==> if p in old(nodes) then old(nodes)[p].Dir? else ParentIsDirectory(old(nodes), p)
      ensures nodes == if ok then old(nodes)[p := target] else old(nodes)
    {
      hide WellFormed, FollowsLink;
      var e := Mkdir(p, 0);
      if e == Exists && !nodes[p].Dir? { return false; }
      ok := Lchown(p, target.uid, target.gid);
      if !ok { return false; }
      ok := Chmod(p, target.mode);
    }

    /** A directory that is there is taken over. With a symbolic link above or at the path the outcome is left open. */
    method CreateDirectory(p: Path, target: Node) returns (ok: bool)
      requires WellFormed(nodes) && target.Dir?
      modifies this
      ensures WellFormed(nodes) && Grown(old(nodes), nodes)
      ensures !FollowsLink(old(nodes), p) ==>
                && (ok <==> if p in old(nodes) then old(nodes)[p].Dir? else ParentIsDirectory(old(nodes), p))
                && nodes == if ok then old(nodes)[p := target] else old(nodes)
    {
      hide WellFormed, FollowsLink;
      if FollowsLink(nodes, p) {
        ok := ThroughLink();
      } else {
        ok := PutDirectory(p, target);
        GrownBy(old(nodes), p, target);
      }
    }

    method PutFile(p: Path, target: Node) returns (ok: bool)
      requires WellFormed(nodes) && target.Reg? && !FollowsLink(nodes, p)
      modifies this
      ensures WellFormed(nodes)
      ensures ok <==> if p in old(nodes) then old(nodes)[p].Reg? else ParentIsDirectory(old(nodes), p)
      ensures nodes == if ok then old(nodes)[p := target] else old(nodes)
    {
      hide WellFormed, FollowsLink;
      ok := OpenForWriting(p, target.mode);
      if !ok { return false; }
      ok := Lchown(p, target.uid, target.gid);
      ok := Chmod(p, target.mode);
      CopyContent(p, target.content);
    }

    /** A file that is there is taken over. With a symbolic link above or at the path the outcome is left open. */
    method CreateFile(p: Path, target: Node) returns (ok: bool)
      requires WellFormed(nodes) && target.Reg?
      modifies this
      ensures WellFormed(nodes) && Grown(old(nodes), nodes)
      ensures !FollowsLink(old(nodes), p) ==>
                && (ok <==> if p in old(nodes) then old(nodes)[p].Reg? else ParentIsDirectory(old(nodes), p))
                && nodes == if ok then old(nodes)[p := target] else old(nodes)
    {
      hide WellFormed, FollowsLink;
      if FollowsLink(nodes, p) {
        ok := ThroughLink();
      } else {
        ok := PutFile(p, target);
        GrownBy(old(nodes), p, target);
      }
    }

    /** With a symbolic link above the path the outcome is left open. */
    method CreateLink(p: Path, target: Node) returns (ok: bool)
      requires WellFormed(nodes) && target.Link?
      modifies this
      ensures WellFormed(nodes) && Grown(old(nodes), nodes)
      ensures !LinkAbove(old(nodes), p) ==>
                && (ok <==> p !in old(nodes) && ParentIsDirectory(old(nodes), p))
                && nodes == if ok then old(nodes)[p := target] else old(nodes)
    {
      hide WellFormed, LinkAbove, Grown;
      GrownBy(nodes, p, target);
      if LinkAbove(nodes, p) {
        ok := ThroughLink();
        return;
      }
      ok := Symlink(p, target.content);
      if !ok { return false; }
      ok := Lchown(p, target.uid, target.gid);
      assert nodes == old(nodes)[p := target];
    }

    /** Creates a node of any type. A special file is silently left out. */
    method CreateNode(p: Path, target: Node) returns (ok: bool)
      requires WellFormed(nodes)
      modifies this
      ensures WellFormed(nodes) && Grown(old(nodes), nodes)
      ensures ParentIsDirectory(old(nodes), p) && ((target.Dir? || target.Reg?) ==> !FollowsLink(old(nodes), p)) ==>
                && (ok <==> target.Special? || CanTake(old(nodes), p, target))
                && nodes == if ok && !target.Special? then old(nodes)[p := target] else old(nodes)
    {
      if ParentIsDirectory(nodes, p) { UnderDirectory(nodes, p, target); }
      hide WellFormed, LinkAbove, Grown;
      GrownBy(nodes, p, target);
      match target
      case Dir(_, _, _) => ok := CreateDirectory(p, target);
      case Reg(_, _, _, _) => ok := CreateFile(p, target);
      case Link(_, _, _) => ok := CreateLink(p, target);
      case Special(_, _, _, _) => ok := true;
    }

    /** With a symbolic link above the path, or one at the path that is followed, the outcome is left open. */
    method CreateAllTypes(p: Path) returns (ok: bool)
      requires WellFormed(nodes) && p != []
      modifies this
      ensures WellFormed(nodes) && Grown(old(nodes), nodes)
      ensures NodeAt(pre, p).None? || Barred(old(nodes), p) ==> !ok && nodes == old(nodes)
      ensures NodeAt(pre, p).Some? && WayIsFree(old(nodes), p) && !(p in old(nodes) && old(nodes)[p].Link?) ==>
                var fs, target := WithParents(old(nodes), p, Made()), NodeAt(pre, p).value;
                && (ok <==> target.Special? || CanTake(fs, p, target))
                && nodes == if ok && !target.Special? then fs[p := target] else fs
    {
      WaysDiffer(nodes, p);
      ParentsKeepPath(nodes, p, Made());
      hide WellFormed, LinkAbove, Barred, Grown, WayIsFree, WithParents, CanTake;
      GrownBy(nodes, p, Made());
      if NodeAt(pre, p).None? { return false; }
      ok := CreateParentDirectories(p);
      if !ok { return false; }
      ghost var fs := nodes;
      if ParentIsDirectory(fs, p) { UnderDirectory(fs, p, Made()); }
      ok := CreateNode(p, NodeAt(pre, p).value);
      GrownOn(old(nodes), fs, nodes);
    }

    /** What is deleted through a symbolic link above the path is left open. */
    method DeleteAllTypes(p: Path) returns (ok: bool)
      requires WellFormed(nodes) && p != []
      modifies this
      ensures WellFormed(nodes)
      ensures !LinkAbove(old(nodes), p) ==>
                && (ok <==> p in old(nodes) && old(nodes)[p].Dir? ==> !HasEntries(old(nodes), p))
                && nodes == if ok && p in old(nodes) && !old(nodes)[p].Special? then old(nodes) - {p} else old(nodes)
    {
      if LinkAbove(nodes, p) {
        ok := DeleteThroughLink();
        return;
      }
      if p !in nodes { return true; }
      match nodes[p]
      case Dir(_, _, _) => ok := Rmdir(p);
      case Reg(_, _, _, _) => ok := Unlink(p);
      case Link(_, _, _) => ok := Unlink(p);
      case Special(_, _, _, _) => ok := true;
    }

    /** The content and then the attributes, under a parent that is there. */
    method ModifyNode(p: Path, target: Node, s: Status) returns (ok: bool)
      requires WellFormed(nodes) && ParentIsDirectory(nodes, p)
      modifies this
      ensures WellFormed(nodes) && KeepsOthers(old(nodes), nodes, p)
      ensures p in old(nodes) && !TypeDiffers(target, old(nodes)[p]) ==>
                ok && nodes == old(nodes)[p := Modified(target, old(nodes)[p], s)]
    {
      hide WellFormed, HasEntries, WithAttributes, Modified, KeepsOthers;
      if p in nodes && !TypeDiffers(target, nodes[p]) { ReplacedThenModified(target, nodes[p], s); }
      KeepsAt(nodes, p, target);
      if s.content {
        ok := Replace(p, target);
        if !ok { return false; }
      }
      ghost var fs := nodes;
      ok := ModifyAttributes(p, target, s);
      KeepsOn(old(nodes), fs, nodes, p);
    }

    /** With a symbolic link above the path the outcome is left open. */
    method ModifyAllTypes(p: Path, s: Status) returns (ok: bool)
      requires WellFormed(nodes) && p != []
      modifies this
      ensures WellFormed(nodes)
      ensures NodeAt(pre, p).None? || Barred(old(nodes), p) ==> !ok && nodes == old(nodes)
      ensures ParentIsDirectory(old(nodes), p) ==> KeepsOthers(old(nodes), nodes, p)
      ensures NodeAt(pre, p).Some? && p in old(nodes) && !TypeDiffers(NodeAt(pre, p).value, old(nodes)[p])
              ==> ok && nodes == old(nodes)[p := Modified(NodeAt(pre, p).value, old(nodes)[p], s)]
    {
      WaysDiffer(nodes, p);
      NotBlocked(nodes, p, s, Made());
      KeepsAt(nodes, p, Made());
      if p in nodes { assert ParentIsDirectory(nodes, p); }
      if ParentIsDirectory(nodes, p) { UnderDirectory(nodes, p, Made()); }
      hide WellFormed, WayIsFree, WithParents, Modified, KeepsOthers, Barred, LinkAbove, Grown;
      if NodeAt(pre, p).None? { return false; }
      if LinkAbove(nodes, p) {
        ok := DeleteThroughLink();
        return;
      }
      ok := CreateParentDirectories(p);
      if !ok { return false; }
      ok := ModifyNode(p, NodeAt(pre, p).value, s);
    }

    /** The node after the ownership and then the mode have been set. */
    function WithAttributes(target: Node, cur: Node, s: Status): Node
      requires !TypeDiffers(target, cur)
    {
      var owned := if s.owner || s.group then Chowned(cur, target.uid, target.gid) else cur;
      if (s.owner || s.group || s.permissions) && !target.Link? then owned.(mode := target.mode) else owned
    }

    /** A node that was put in place, where it has content, and then given its attributes is modified as reported. */
    lemma {:induction false} ReplacedThenModified(target: Node, cur: Node, s: Status)
      requires !TypeDiffers(target, cur)
      ensures var put := if s.content && (target.Reg? || target.Link?) then target else cur;
              !TypeDiffers(target, put) && WithAttributes(target, put, s) == Modified(target, cur, s)
    {
      match cur
      case Dir(_, _, _) =>
      case Reg(_, _, _, _) =>
      case Link(_, _, _) =>
      case Special(_, _, _, _) =>
    }

    /** The ownership, and after it the mode, which a change of ownership may have disturbed. */
    method ModifyAttributes(p: Path, target: Node, s: Status) returns (ok: bool)
      requires WellFormed(nodes)
      modifies this
      ensures WellFormed(nodes) && KeepsOthers(old(nodes), nodes, p)
      ensures p in old(nodes) && !TypeDiffers(target, old(nodes)[p])
              ==> ok && nodes == old(nodes)[p := WithAttributes(target, old(nodes)[p], s)]
    {
      hide WellFormed, Grown, KeepsOthers;
      if p in nodes { UpdateSame(nodes, p); }
      KeepsAt(nodes, p, if p in nodes then Chowned(nodes[p], target.uid, target.gid) else target);
      if s.owner || s.group {
        ok := Lchown(p, target.uid, target.gid);
        if !ok { return false; }
      }
      if s.owner || s.group || s.permissions {
        if !target.Link? {
          ghost var fs := nodes;
          ok := SetMode(p, target.mode);
          KeepsOn(old(nodes), fs, nodes, p);
          if !ok { return false; }
        }
      }
      return true;
    }

    /** chmod, which follows a symbolic link at the path. */
    method SetMode(p: Path, mode: nat) returns (ok: bool)
      requires WellFormed(nodes)
      modifies this
      ensures WellFormed(nodes) && KeepsOthers(old(nodes), nodes, p)
      ensures !(p in old(nodes) && old(nodes)[p].Link?) ==>
                && (ok <==> p in old(nodes))
                && nodes == if ok then old(nodes)[p := old(nodes)[p].(mode := mode)] else old(nodes)
    {
      hide WellFormed, Grown, KeepsOthers;
      if p in nodes && nodes[p].Link? {
        ok := ThroughLink();
        GrownKeeps(old(nodes), nodes, p);
      } else {
        KeepsAt(nodes, p, if p in nodes then nodes[p].(mode := mode) else Link(0, 0, ""));
        ok := Chmod(p, mode);
      }
    }

    /** A changed content is restored by deleting whatever is there and creating the file again. */
    method Replace(p: Path, target: Node) returns (ok: bool)
      requires WellFormed(nodes) && ParentIsDirectory(nodes, p)
      modifies this
      ensures WellFormed(nodes) && KeepsOthers(old(nodes), nodes, p)
      ensures target.Dir? || target.Special? ==> ok && nodes == old(nodes)
      ensures target.Reg? || target.Link? ==>
                && (ok <==> CanClear(old(nodes), p))
                && nodes == if ok then old(nodes)[p := target] else old(nodes)
    {
      UnderDirectory(nodes, p, target);
      KeepsAt(nodes, p, target);
      FreedThenSet(nodes, p, target);
      hide WellFormed, LinkAbove, HasEntries, KeepsOthers, Grown;
      match target
      case Reg(_, _, _, _) =>
        ok := DeleteAllTypes(p);
        if ok {
          UnderDirectory(nodes, p, target);
          ok := CreateFile(p, target);
        }
      case Link(_, _, _) =>
        ok := DeleteAllTypes(p);
        if ok {
          UnderDirectory(nodes, p, target);
          ok := CreateLink(p, target);
        }
      case _ => ok := true;
    }

    /** The first two steps of undoing a file: what should not be there is deleted, and what should be is created. */
    method DeleteAndCreate(p: Path, s: Status) returns (ok: bool)
      requires WellFormed(nodes) && p != []
      modifies this
      ensures WellFormed(nodes)
      ensures Ready(pre, old(nodes), p, s) ==>
                ok && nodes == if s == CREATED || s == DELETED || s.kind then Undone(pre, old(nodes), p, s, Made())
                               else old(nodes)
      ensures Blocked(old(nodes), p, s) ==> !ok
      ensures s == DELETED ==> Grown(old(nodes), nodes)
      ensures ParentIsDirectory(old(nodes), p) ==> KeepsOthers(old(nodes), nodes, p)
    {
      NotBlocked(nodes, p, s, Made());
      hide WellFormed, HasEntries, LinkAbove, Barred, Grown, KeepsOthers, WayIsFree, WithParents;
      ghost var fs := nodes;
      KeepsAt(fs, p, Made());
      GrownBy(fs, p, Made());
      ok := true;
      if s.created || s.kind {
        ok := DeleteAllTypes(p);
      }
      ghost var mid := nodes;
      if s.deleted || s.kind {
        if s.kind && Ready(pre, fs, p, s) {
          ParentStays(fs, p, Made());
          FreedThenSet(fs, p, NodeAt(pre, p).value);
        }
        var created := CreateAllTypes(p);
        ok := ok && created;
        GrownKeeps(mid, nodes, p);
        if ParentIsDirectory(fs, p) { KeepsOn(fs, mid, nodes, p); }
      }
    }

    /** Undoes one file. Extended attributes and access control lists are not among the modelled attributes. */
    method DoUndo(p: Path, s: Status) returns (ok: bool)
      requires WellFormed(nodes) && p != []
      modifies this
      ensures WellFormed(nodes)
      ensures Ready(pre, old(nodes), p, s) ==> ok && nodes == Undone(pre, old(nodes), p, s, Made())
      ensures Blocked(old(nodes), p, s) ==> !ok
      ensures s == DELETED ==> Grown(old(nodes), nodes)
      ensures ParentIsDirectory(old(nodes), p) ==> KeepsOthers(old(nodes), nodes, p)
    {
      hide WellFormed, HasEntries, WayIsFree, WithParents, Modified, Blocked, Grown, KeepsOthers;
      ok := DeleteAndCreate(p, s);
      if s.content || s.permissions || s.owner || s.group {
        if s.kind && Ready(pre, old(nodes), p, s) { ModifiedSame(NodeAt(pre, p).value, s); }
        ghost var fs := nodes;
        if ParentIsDirectory(old(nodes), p) { KeepsParent(old(nodes), fs, p); }
        var modified := ModifyAllTypes(p, s);
        ok := ok && modified;
        if ParentIsDirectory(old(nodes), p) { KeepsOn(old(nodes), fs, nodes, p); }
      } else if Ready(pre, old(nodes), p, s) && s != CREATED && s != DELETED && !s.kind {
        NotModified(old(nodes), p, NodeAt(pre, p).value, s);
      }
    }
  }

  /** Nothing is at the path, or something that can be removed. */
  predicate CanClear(fs: Live, p: Path) {
    p in fs ==> !fs[p].Special? && (fs[p].Dir? ==> !HasEntries(fs, p))
  }

  /** A call with the path goes through a symbolic link. */
  predicate FollowsLink(fs: Live, p: Path) {
    LinkAbove(fs, p) || (p in fs && fs[p].Link?)
  }

  lemma {:induction false} GrownBy(fs: Live, p: Path, node: Node)
    ensures Grown(fs, fs) && (p !in fs || !TypeDiffers(fs[p], node) ==> Grown(fs, fs[p := node]))
  {
  }

  lemma {:induction false} FreedThenSet(fs: Live, p: Path, node: Node)
    ensures (fs - {p})[p := node] == fs[p := node]
    ensures ParentIsDirectory(fs, p) ==> ParentIsDirectory(fs - {p}, p)
  {
    if p != [] { assert Parent(p) != p; }
  }

  lemma {:induction false} RootIsThere(fs: Live)
    requires WellFormed(fs)
    ensures [] in fs && fs[[]].Dir?
  {
  }

  lemma {:induction false} ParentsKeepPath(fs: Live, p: Path, made: Node)
    ensures p in WithParents(fs, p, made) <==> p in fs
    ensures p in fs ==> WithParents(fs, p, made)[p] == fs[p]
  {
    assert p !in Ancestors(p);
  }

  lemma {:induction false} GrownOn(a: Live, b: Live, c: Live)
    requires Grown(a, b) && Grown(b, c)
    ensures Grown(a, c)
  {
  }

  /** Where undoing a file could work or is blocked by a directory that has entries, no link is on the way. */
  lemma {:induction false} NotBlocked(fs: Live, p: Path, s: Status, made: Node)
    requires WellFormed(fs) && p != []
    ensures p in fs || ParentIsDirectory(fs, p) || WayIsFree(fs, p) ==> !LinkAbove(fs, p)
    ensures p in fs ==> WayIsFree(fs, p)
  {
    if p in fs || ParentIsDirectory(fs, p) {
      assert ParentIsDirectory(fs, p);
      UnderDirectory(fs, p, made);
    }
  }

  /** Deleting a path leaves the way to it. */
  lemma {:induction false} ParentStays(fs: Live, p: Path, made: Node)
    requires WellFormed(fs) && p in fs && p != []
    ensures WayIsFree(fs - {p}, p) && WithParents(fs - {p}, p, made) == fs - {p}
  {
    forall a | a in Ancestors(p) ensures a in fs - {p} && fs[a].Dir? {
      var k :| 0 < k < |p| && p[..k] == a;
      AncestorsThere(fs, p, k);
    }
  }

  lemma {:induction false} ModifiedSame(target: Node, s: Status)
    ensures Modified(target, target, s) == target
  {
  }

  lemma {:induction false} NotModified(fs: Live, p: Path, target: Node, s: Status)
    requires p in fs && !TypeDiffers(target, fs[p]) && !s.content && !s.permissions && !s.owner && !s.group
    ensures fs[p := Modified(target, fs[p], s)] == fs
  {
  }
}
