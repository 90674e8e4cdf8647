/**
 Directory trees as the comparison and the undo see them: nested directories listed in readdir
 order, paths as sequences of names, and the nodes that a path leads to.
 */
module Trees {
  import opened Wrappers
  import Order
  import Text

  type Name = string
  type Path = seq<Name>

  const SNAPSHOTS_NAME: Name := ".snapshots"

  /** What an inode holds of the attributes that undo restores. mode is the low twelve bits of st_mode. */
  datatype Node =
    | Dir(mode: nat, uid: nat, gid: nat)
    | Reg(mode: nat, uid: nat, gid: nat, content: string)
    | Link(uid: nat, gid: nat, content: string)
    | Special(format: nat, mode: nat, uid: nat, gid: nat)

  /** The permission bits of st_mode; those of a symbolic link are always 0777. */
  function Mode(n: Node): nat {
    if n.Link? then 0x1FF else n.mode
  }

  /** True iff the two nodes differ in the S_IFMT bits of st_mode. */
  predicate TypeDiffers(a: Node, b: Node) {
    !(a.Dir? && b.Dir?) && !(a.Reg? && b.Reg?) && !(a.Link? && b.Link?)
    && !(a.Special? && b.Special? && a.format == b.format)
  }

  /** The result of lstat: the node, and the fields that only serve the comparison. */
  datatype Info = Info(node: Node, mtime: int, dev: nat, ino: nat)

  datatype Tree = Tree(info: Info, entries: seq<(Name, Tree)>)

  predicate GoodName(n: Name) {
    n != "" && '/' !in n
  }

  /** Only directories have entries, entries have usable and distinct names, and so on downwards. */
  ghost predicate Valid(t: Tree)
    decreases t
  {
    && (t.entries != [] ==> t.info.node.Dir?)
    && (forall i | 0 <= i < |t.entries| :: GoodName(t.entries[i].0) && Valid(t.entries[i].1))
    && (forall i, j | 0 <= i < j < |t.entries| :: t.entries[i].0 != t.entries[j].0)
  }

  /** A whole tree on one device. */
  ghost predicate OnDevice(t: Tree, dev: nat)
    decreases t
  {
    t.info.dev == dev && forall i | 0 <= i < |t.entries| :: OnDevice(t.entries[i].1, dev)
  }

  function Names(t: Tree): seq<Name> {
    seq(|t.entries|, i requires 0 <= i < |t.entries| => t.entries[i].0)
  }

  /** The entry of a directory under a name. */
  function Child(t: Tree, n: Name): (r: Option<Tree>)
    ensures r.Some? <==> n in Names(t)
    ensures r.Some? ==> exists i | 0 <= i < |t.entries| :: t.entries[i] == (n, r.value)
    ensures r.Some? ==> r.value < t
  {
    ChildFrom(t, n, 0)
  }

  function ChildFrom(t: Tree, n: Name, from: nat): (r: Option<Tree>)
    requires from <= |t.entries|
    decreases |t.entries| - from
    ensures r.Some? <==> exists i | from <= i < |t.entries| :: Names(t)[i] == n
    ensures r.Some? ==> exists i | from <= i < |t.entries| :: t.entries[i] == (n, r.value)
    ensures r.Some? ==> r.value < t
  {
    if from == |t.entries| then None
    else if t.entries[from].0 == n then
      assert Names(t)[from] == n;
      assert t.entries[from].1 < t;
      Some(t.entries[from].1)
    else
      ChildFrom(t, n, from + 1)
  }

  /** What lstat says of a path below the root of the tree; the empty path is the root. */
  function At(t: Tree, p: Path): Option<Info>
    decreases |p|
  {
    if p == [] then Some(t.info)
    else match Child(t, p[0])
      case None => None
      case Some(c) => At(c, p[1..])
  }

  lemma {:induction false} ChildValid(t: Tree, n: Name)
    requires Valid(t) && Child(t, n).Some?
    ensures Valid(Child(t, n).value) && GoodName(n) && t.info.node.Dir?
    ensures forall dev | OnDevice(t, dev) :: OnDevice(Child(t, n).value, dev)
  {
    var i :| 0 <= i < |t.entries| && t.entries[i] == (n, Child(t, n).value);
    assert Valid(t.entries[i].1);
    forall dev | OnDevice(t, dev) ensures OnDevice(Child(t, n).value, dev) {
      assert OnDevice(t.entries[i].1, dev);
    }
  }

  lemma {:induction false} ChildAt(t: Tree, i: nat)
    requires Valid(t) && i < |t.entries|
    ensures Child(t, t.entries[i].0) == Some(t.entries[i].1)
  {
    assert Names(t)[i] == t.entries[i].0;
  }

  /** Below every path of a valid tree lies a directory above it, and all names on the way are usable. */
  lemma {:induction false} ParentIsDir(t: Tree, p: Path, n: Name)
    requires Valid(t) && At(t, p + [n]).Some?
    ensures At(t, p).Some? && At(t, p).value.node.Dir?
    ensures forall i | 0 <= i <= |p| :: GoodName((p + [n])[i])
    decreases |p|
  {
    if p == [] {
      assert (p + [n])[0] == n;
      ChildValid(t, n);
    } else {
      assert (p + [n])[1..] == p[1..] + [n];
      ChildValid(t, p[0]);
      var c := Child(t, p[0]).value;
      ParentIsDir(c, p[1..], n);
      forall i | 0 <= i <= |p| ensures GoodName((p + [n])[i]) {
        if i > 0 { assert (p + [n])[i] == (p[1..] + [n])[i - 1]; }
      }
    }
  }

  /** The name under which a path is listed: every component after a slash. */
  function Join(p: Path): string {
    if p == [] then "" else "/" + p[0] + Join(p[1..])
  }

  /** The path that a listed name stands for. */
  function PathOf(name: string): Path
    decreases |name|
  {
    if name == "" || name[0] != '/' then []
    else
      var k := Text.Position(name[1..], '/');
      [name[1..][..k]] + PathOf(name[1..][k..])
  }

  ghost predicate GoodPath(p: Path) {
    forall i | 0 <= i < |p| :: GoodName(p[i])
  }

  /** Names and paths stand for each other, so distinct paths are listed under distinct names. */
  lemma {:induction false} PathOfJoin(p: Path)
    requires GoodPath(p)
    ensures PathOf(Join(p)) == p
  {
    if p != [] {
      assert GoodPath(p[1..]) by {
        forall i | 0 <= i < |p[1..]| ensures GoodName(p[1..][i]) { assert p[1..][i] == p[i + 1]; }
      }
      PathOfJoin(p[1..]);
      assert GoodName(p[0]);
      PathOfCons(p[0], Join(p[1..]));
    }
  }

  lemma {:induction false} PathOfCons(n: Name, rest: string)
    requires GoodName(n) && (rest != "" ==> rest[0] == '/')
    ensures PathOf("/" + n + rest) == [n] + PathOf(rest)
  {
    assert ("/" + n + rest)[1..] == n + rest;
    Text.PositionSkips(n, '/', rest);
    assert (n + rest)[..|n|] == n && (n + rest)[|n|..] == rest;
  }

  lemma {:induction false} JoinConcat(p: Path, q: Path)
    ensures Join(p + q) == Join(p) + Join(q)
  {
    if p == [] {
      assert p + q == q;
    } else {
      JoinConcat(p[1..], q);
      assert (p + q)[1..] == p[1..] + q && (p + q)[0] == p[0];
      assert Join(p + q) == "/" + p[0] + (Join(p[1..]) + Join(q));
    }
  }

  /** A path is listed before the paths below it. */
  lemma {:induction false} AncestorComesFirst(p: Path, q: Path)
    requires q != []
    ensures Order.Less(Join(p), Join(p + q))
  {
    JoinConcat(p, q);
    Order.PrefixComesFirst(Join(p), Join(q));
  }
}
