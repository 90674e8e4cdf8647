/**
 The comparison of two directory trees (snapper/Compare.cc): two sorted listings are merged name by
 name, directories on both sides are descended into, and what stands on one side only is listed with
 everything below it. The reports are proved to be exactly the declarative difference of the trees.
 */
module Compare {
  import opened Wrappers
  import opened FileStatus
  import opened Trees
  import Order

  /** One call of the comparison's callback. */
  datatype Entry = Entry(path: Path, status: Status)

  datatype Devices = Devices(dev1: nat, dev2: nat)

  /** How many bytes of two files are compared at once. */
  const BLOCK_SIZE := 32 * 1024

  /** What the comparison of the contents of two nodes of the same type comes to. */
  predicate SameContent(a: Info, b: Info)
    requires !TypeDiffers(a.node, b.node)
  {
    match a.node
    case Reg(_, _, _, content) =>
      a.mtime == b.mtime || content == b.node.content
      || (|content| == |b.node.content| && a.dev == b.dev && a.ino == b.ino)
    case Link(_, _, content) => a.mtime == b.mtime || content == b.node.content
    case _ => true
  }

  /**
   The contents of two regular files: equal times stand for equal contents, different sizes for different contents,
   and one inode for equal contents. Otherwise the files are read block by block up to the first difference.
   */
  method CmpFilesContentReg(a: Info, b: Info) returns (equal: bool)
    requires a.node.Reg? && b.node.Reg?
    ensures !equal <==>
      && a.node.content != b.node.content && a.mtime != b.mtime
      && !(a.dev == b.dev && a.ino == b.ino && |a.node.content| == |b.node.content|)
  {
    var content1, content2 := a.node.content, b.node.content;
    if a.mtime == b.mtime { return true; }
    if |content1| != |content2| { return false; }
    if |content1| == 0 && |content2| == 0 { return true; }
    if a.dev == b.dev && a.ino == b.ino { return true; }
    var size := |content1|;
    var length := size;
    while length > 0
      invariant 0 <= length <= size
      invariant content1[..size - length] == content2[..size - length]
    {
      var t := if BLOCK_SIZE < length then BLOCK_SIZE else length;
      var at := size - length;
      var block1, block2 := content1[at..at + t], content2[at..at + t];
      if block1 != block2 { return false; }
      assert content1[..at + t] == content1[..at] + block1 && content2[..at + t] == content2[..at] + block2;
      length := length - t;
    }
    assert content1[..size] == content1 && content2[..size] == content2;
    return true;
  }

  /** The flags of a file on both sides. */
  function Changes(a: Info, b: Info): Status {
    Status(false, false, TypeDiffers(a.node, b.node),
           !TypeDiffers(a.node, b.node) && !SameContent(a, b),
           Mode(a.node) != Mode(b.node), a.node.uid != b.node.uid, a.node.gid != b.node.gid, false, false)
  }

  /** Whether two nodes are of one type. */
  predicate Alike(a: Node, b: Node) {
    match a
    case Dir(_, _, _) => b.Dir?
    case Reg(_, _, _, _) => b.Reg?
    case Link(_, _, _) => b.Link?
    case Special(format, _, _, _) => b.Special? && b.format == format
  }

  /** A content that was changed behind the back of the comparison: in time, or under one inode at the same size. */
  predicate Overlooked(a: Info, b: Info) {
    || a.mtime == b.mtime
    || (a.node.Reg? && b.node.Reg? && |a.node.content| == |b.node.content| && a.dev == b.dev && a.ino == b.ino)
  }

  /** What a status says of a file that is on both sides, flag by flag. */
  ghost predicate Describes(s: Status, a: Info, b: Info) {
    && (s.kind <==> !Alike(a.node, b.node))
    && (s.content <==>
        && ((a.node.Reg? && b.node.Reg?) || (a.node.Link? && b.node.Link?))
        && a.node.content != b.node.content && !Overlooked(a, b))
    && (s.permissions <==> Mode(a.node) != Mode(b.node))
    && (s.owner <==> a.node.uid != b.node.uid)
    && (s.group <==> a.node.gid != b.node.gid)
    && !s.created && !s.deleted && !s.xattrs && !s.acl
  }

  lemma {:induction false} ChangesDescribe(a: Info, b: Info)
    ensures Describes(Changes(a, b), a, b)
  {
  }

  method CmpFiles(a: Info, b: Info) returns (status: Status)
    ensures Describes(status, a, b) && status == Changes(a, b)
  {
    status := NOTHING;
    if TypeDiffers(a.node, b.node) {
      status := status.(kind := true);
    } else {
      var equal := true;
      if a.node.Reg? {
        equal := CmpFilesContentReg(a, b);
      } else if a.node.Link? {
        equal := a.mtime == b.mtime || a.node.content == b.node.content;
      }
      if !equal { status := status.(content := true); }
    }
    if Mode(a.node) != Mode(b.node) { status := status.(permissions := true); }
    if a.node.uid != b.node.uid { status := status.(owner := true); }
    if a.node.gid != b.node.gid { status := status.(group := true); }
  }

  predicate Filtered(p: Path) {
    Join(p) == "/" + SNAPSHOTS_NAME
  }

  /**
   The declarative difference of two directories at a path below them, without any merging or order.
   base is where the two directories stand; devices other than those of the two roots are not entered.
   */
  function DiffAt(d: Devices, t1: Tree, t2: Tree, base: Path, rel: Path): Option<Status>
    decreases |rel|, 0
  {
    if rel == [] || Filtered(base + [rel[0]]) then None
    else DiffUnder(d, Child(t1, rel[0]), Child(t2, rel[0]), base + [rel[0]], rel[1..])
  }

  /** The same below one name, given what stands under that name on either side. */
  function DiffUnder(d: Devices, c1: Option<Tree>, c2: Option<Tree>, here: Path, rel: Path): Option<Status>
    decreases |rel|, 1
  {
    match (c1, c2)
    case (None, None) => None
    case (Some(a), None) => if a.info.dev == d.dev1 && At(a, rel).Some? then Some(DELETED) else None
    case (None, Some(b)) => if b.info.dev == d.dev2 && At(b, rel).Some? then Some(CREATED) else None
    case (Some(a), Some(b)) =>
      if a.info.dev != d.dev1 || b.info.dev != d.dev2 then None
      else
        var status := Changes(a.info, b.info);
        if rel == [] then if status == NOTHING then None else Some(status)
        else if !status.kind then DiffAt(d, a, b, here, rel)
        else if At(a, rel).Some? then Some(DELETED)
        else if At(b, rel).Some? then Some(CREATED)
        else None
  }

  /** What a stretch of the output is to list: the status reported at a path, if any. */
  type Listing = Path -> Option<Status>

  /** A whole subtree under one status. */
  function Whole(t: Tree, status: Status): Listing {
    (rel: Path) => if At(t, rel).Some? then Some(status) else None
  }

  /** The difference of two directories that stand at base. */
  function Difference(d: Devices, t1: Tree, t2: Tree, base: Path): Listing {
    (rel: Path) => DiffAt(d, t1, t2, base, rel)
  }

  ghost predicate Sound(e: Entry, l: Listing, base: Path) {
    && |base| < |e.path| && e.path[..|base|] == base
    && l(e.path[|base|..]) == Some(e.status)
  }

  ghost predicate DistinctPaths(out: seq<Entry>) {
    forall i, j | 0 <= i < j < |out| :: out[i].path != out[j].path
  }

  /** out lists exactly what l reports below base, every path once. */
  ghost predicate Exact(out: seq<Entry>, l: Listing, base: Path) {
    && (forall e | e in out :: Sound(e, l, base))
    && (forall rel: Path | rel != [] && l(rel).Some? :: Entry(base + rel, l(rel).value) in out)
    && DistinctPaths(out)
  }

  /** The same for the paths through some of the names only. */
  ghost predicate ExactOn(out: seq<Entry>, l: Listing, base: Path, names: set<Name>) {
    && (forall e | e in out :: Sound(e, l, base) && e.path[|base|] in names)
    && (forall rel: Path | rel != [] && rel[0] in names && l(rel).Some? :: Entry(base + rel, l(rel).value) in out)
    && DistinctPaths(out)
  }

  lemma {:induction false} ExactOnAppend(out: seq<Entry>, block: seq<Entry>, l: Listing, base: Path, names: set<Name>,
                                         n: Name)
    requires ExactOn(out, l, base, names) && ExactOn(block, l, base, {n}) && n !in names
    ensures ExactOn(out + block, l, base, names + {n})
  {
    var all := out + block;
    forall i, j | 0 <= i < j < |all| ensures all[i].path != all[j].path {
      if i < |out| <= j {
        assert all[i] in out && all[j] in block;
      } else if |out| <= i {
        assert all[i] == block[i - |out|] && all[j] == block[j - |out|];
      }
    }
  }

  lemma {:induction false} ExactOnAll(out: seq<Entry>, l: Listing, base: Path, names: set<Name>)
    requires ExactOn(out, l, base, names)
    requires forall rel: Path | rel != [] && l(rel).Some? :: rel[0] in names
    ensures Exact(out, l, base)
  {
  }

  /** The listing under a name continues the listing above it. */
  ghost predicate Continues(l: Listing, under: Listing, n: Name) {
    forall rel: Path :: l([n] + rel) == under(rel)
  }

  /** A path's own report, if there is one. */
  function Head(under: Listing, here: Path): seq<Entry> {
    match under([])
    case Some(s) => [Entry(here, s)]
    case None => []
  }

  /** The output for one path and all below it: its own report, and then those below. */
  ghost predicate Block(block: seq<Entry>, under: Listing, here: Path) {
    var head := Head(under, here);
    head <= block && Exact(block[|head|..], under, here)
  }

  lemma {:induction false} BelowSound(e: Entry, l: Listing, under: Listing, base: Path, n: Name)
    requires Continues(l, under, n) && Sound(e, under, base + [n])
    ensures Sound(e, l, base) && e.path[|base|] == n && |e.path| > |base| + 1
  {
    var inner := base + [n];
    assert e.path[|base|] == e.path[..|inner|][|base|];
    assert e.path[|base|..] == [n] + e.path[|inner|..];
    assert e.path[..|base|] == e.path[..|inner|][..|base|] == base;
  }

  lemma {:induction false} HeadSound(e: Entry, l: Listing, under: Listing, base: Path, n: Name)
    requires Continues(l, under, n) && e in Head(under, base + [n])
    ensures Sound(e, l, base) && e.path[|base|] == n && |e.path| == |base| + 1
  {
    assert e.path[|base|..] == [n] + [] && e.path[..|base|] == base;
    assert l([n] + []) == under([]);
  }

  lemma {:induction false} BlockComplete(head: seq<Entry>, below: seq<Entry>, l: Listing, under: Listing, base: Path,
                                         n: Name, rel: Path)
    requires Continues(l, under, n) && Exact(below, under, base + [n]) && head == Head(under, base + [n])
    requires rel != [] && rel[0] == n && l(rel).Some?
    ensures Entry(base + rel, l(rel).value) in head + below
  {
    assert rel == [n] + rel[1..];
    assert base + rel == (base + [n]) + rel[1..];
    assert l([n] + rel[1..]) == under(rel[1..]);
    if |rel| == 1 {
      assert rel[1..] == [] && base + rel == base + [n];
      assert head[0] in head;
    } else {
      assert Entry((base + [n]) + rel[1..], under(rel[1..]).value) in below;
    }
  }

  lemma {:induction false} BlockDistinct(head: seq<Entry>, below: seq<Entry>, l: Listing, under: Listing, base: Path,
                                         n: Name)
    requires Continues(l, under, n) && Exact(below, under, base + [n]) && head == Head(under, base + [n])
    ensures DistinctPaths(head + below)
  {
    var all := head + below;
    forall i, j | 0 <= i < j < |all| ensures all[i].path != all[j].path {
      if i < |head| {
        HeadSound(all[i], l, under, base, n);
        assert all[j] in below;
        BelowSound(all[j], l, under, base, n);
      } else {
        assert all[i] == below[i - |head|] && all[j] == below[j - |head|];
      }
    }
  }

  /** A block under a name lists exactly what the listing above reports through that name. */
  lemma {:induction false} BlockExact(block: seq<Entry>, l: Listing, under: Listing, base: Path, n: Name)
    requires Continues(l, under, n) && Block(block, under, base + [n])
    ensures ExactOn(block, l, base, {n})
  {
    var head := Head(under, base + [n]);
    var below := block[|head|..];
    assert block == head + below;
    forall e | e in block ensures Sound(e, l, base) && e.path[|base|] in {n} {
      if e in head { HeadSound(e, l, under, base, n); } else { assert e in below; BelowSound(e, l, under, base, n); }
    }
    forall rel: Path | rel != [] && rel[0] in {n} && l(rel).Some?
      ensures Entry(base + rel, l(rel).value) in block
    {
      BlockComplete(head, below, l, under, base, n, rel);
    }
    BlockDistinct(head, below, l, under, base, n);
  }

  lemma {:induction false} WholeContinues(t: Tree, n: Name, status: Status)
    requires Child(t, n).Some?
    ensures Continues(Whole(t, status), Whole(Child(t, n).value, status), n)
  {
    forall rel: Path
      ensures Whole(t, status)([n] + rel) == Whole(Child(t, n).value, status)(rel)
    {
      assert ([n] + rel)[1..] == rel;
    }
  }

  lemma {:induction false} LeafExact(t: Tree, path: Path, status: Status)
    requires Valid(t) && !t.info.node.Dir?
    ensures Exact([], Whole(t, status), path)
  {
    forall rel: Path | rel != [] ensures At(t, rel).None? {
      assert Names(t) == [];
    }
  }

  lemma {:induction false} WholeNames(t: Tree, status: Status, done: set<Name>)
    requires done == set k | 0 <= k < |t.entries| :: t.entries[k].0
    ensures forall rel: Path | rel != [] && Whole(t, status)(rel).Some? :: rel[0] in done
  {
    forall rel: Path | rel != [] && Whole(t, status)(rel).Some? ensures rel[0] in done {
      var k :| 0 <= k < |t.entries| && t.entries[k] == (rel[0], Child(t, rel[0]).value);
    }
  }

  lemma {:induction false} SubdirBlock(t: Tree, path: Path, n: Name, status: Status, below: seq<Entry>)
    requires Child(t, n).Some? && Exact(below, Whole(Child(t, n).value, status), path + [n])
    ensures ExactOn([Entry(path + [n], status)] + below, Whole(t, status), path, {n})
  {
    hide Exact, ExactOn, Continues;
    var block := [Entry(path + [n], status)] + below;
    assert block[1..] == below;
    WholeContinues(t, n, status);
    BlockExact(block, Whole(t, status), Whole(Child(t, n).value, status), path, n);
  }

  lemma {:induction false} ExactOnNone(l: Listing, base: Path)
    ensures ExactOn([], l, base, {})
  {
  }

  /** Lists a directory that stands on one side only, in readdir order. */
  method ListSubdirs(t: Tree, path: Path, status: Status) returns (out: seq<Entry>)
    requires Valid(t)
    ensures Exact(out, Whole(t, status), path)
    decreases t
  {
    hide Exact, ExactOn;
    out := [];
    ghost var l := Whole(t, status);
    ExactOnNone(l, path);
    ghost var done: set<Name> := {};
    for i := 0 to |t.entries|
      invariant done == set k | 0 <= k < i :: t.entries[k].0
      invariant ExactOn(out, l, path, done)
    {
      var (name, child) := t.entries[i];
      ChildAt(t, i);
      ChildValid(t, name);
      var below := [];
      if child.info.node.Dir? {
        below := ListSubdirs(child, path + [name], status);
      } else {
        LeafExact(child, path + [name], status);
      }
      var block := [Entry(path + [name], status)] + below;
      SubdirBlock(t, path, name, status, below);
      ExactOnAppend(out, block, l, path, done, name);
      out := out + block;
      done := done + {name};
    }
    WholeNames(t, status, done);
    ExactOnAll(out, l, path, done);
  }

  /** Reports a name that stands on one side only. */
  method Lonesome(child: Tree, path: Path, name: Name, status: Status) returns (block: seq<Entry>)
    requires Valid(child)
    ensures Block(block, Whole(child, status), path + [name])
  {
    block := [Entry(path + [name], status)];
    if child.info.node.Dir? {
      var below := ListSubdirs(child, path + [name], status);
      block := block + below;
      assert block[1..] == below;
    } else {
      LeafExact(child, path + [name], status);
      assert block[1..] == [];
    }
  }

  function Under(d: Devices, c1: Option<Tree>, c2: Option<Tree>, here: Path): Listing {
    (rel: Path) => DiffUnder(d, c1, c2, here, rel)
  }

  lemma {:induction false} NoEntries(t: Tree)
    requires Valid(t) && !t.info.node.Dir?
    ensures forall rel: Path | rel != [] :: At(t, rel).None?
  {
    assert Names(t) == [];
  }

  lemma {:induction false} ExactSame(out: seq<Entry>, l: Listing, l': Listing, base: Path)
    requires Exact(out, l, base) && forall rel: Path | rel != [] :: l(rel) == l'(rel)
    ensures Exact(out, l', base)
  {
    forall e | e in out ensures Sound(e, l', base) { assert Sound(e, l, base); }
  }

  /** Reports a name that stands on both sides. */
  method Twosome(d: Devices, a: Tree, b: Tree, path: Path, name: Name) returns (block: seq<Entry>)
    requires Valid(a) && Valid(b)
    ensures Block(block, Under(d, Some(a), Some(b), path + [name]), path + [name])
    decreases a, 3
  {
    var here := path + [name];
    var status := NOTHING;
    if a.info.dev == d.dev1 && b.info.dev == d.dev2 {
      status := CmpFiles(a.info, b.info);
    }
    var head := [];
    if status != NOTHING {
      head := [Entry(here, status)];
    }
    ghost var under := Under(d, Some(a), Some(b), here);
    var below := [];
    if !status.kind {
      if a.info.node.Dir? && a.info.dev == d.dev1 && b.info.dev == d.dev2 {
        below := CmpDirsWorker(d, a, b, here);
        ExactSame(below, Difference(d, a, b, here), under, here);
      } else {
        SameTypeLeaves(d, a, b, here);
      }
    } else {
      if a.info.node.Dir? && a.info.dev == d.dev1 {
        var deleted := ListSubdirs(a, here, DELETED);
        below := below + deleted;
        TypeChanged(d, a, b, here);
        ExactSame(deleted, Whole(a, DELETED), under, here);
        assert below == deleted;
      }
      if b.info.node.Dir? && b.info.dev == d.dev2 {
        var created := ListSubdirs(b, here, CREATED);
        below := below + created;
        TypeChanged(d, a, b, here);
        ExactSame(created, Whole(b, CREATED), under, here);
        assert below == created;
      } else if !a.info.node.Dir? {
        TypeChanged(d, a, b, here);
      }
    }
    block := head + below;
    assert block[|head|..] == below;
  }

  lemma {:induction false} SameTypeLeaves(d: Devices, a: Tree, b: Tree, here: Path)
    requires Valid(a) && Valid(b)
    requires || (!a.info.node.Dir? && !TypeDiffers(a.info.node, b.info.node))
             || a.info.dev != d.dev1 || b.info.dev != d.dev2
    ensures Exact([], Under(d, Some(a), Some(b), here), here)
  {
    if a.info.dev == d.dev1 && b.info.dev == d.dev2 {
      NoEntries(a);
      NoEntries(b);
      NoDifference(d, a, b, here);
    }
    forall rel: Path | rel != [] ensures Under(d, Some(a), Some(b), here)(rel).None? {
      if a.info.dev == d.dev1 && b.info.dev == d.dev2 {
        assert DiffAt(d, a, b, here, rel).None?;
        assert !Changes(a.info, b.info).kind;
      }
    }
  }

  lemma {:induction false} TypeChanged(d: Devices, a: Tree, b: Tree, here: Path)
    requires Valid(a) && Valid(b) && a.info.dev == d.dev1 && b.info.dev == d.dev2
    requires TypeDiffers(a.info.node, b.info.node)
    ensures a.info.node.Dir? ==>
              forall rel: Path | rel != [] :: Whole(a, DELETED)(rel) == Under(d, Some(a), Some(b), here)(rel)
    ensures b.info.node.Dir? ==>
              forall rel: Path | rel != [] :: Whole(b, CREATED)(rel) == Under(d, Some(a), Some(b), here)(rel)
    ensures !a.info.node.Dir? && !b.info.node.Dir? ==> Exact([], Under(d, Some(a), Some(b), here), here)
  {
    if !a.info.node.Dir? { NoEntries(a); }
    if !b.info.node.Dir? { NoEntries(b); }
    if !a.info.node.Dir? && !b.info.node.Dir? {
      forall rel: Path | rel != [] ensures Under(d, Some(a), Some(b), here)(rel).None? {}
    }
  }

  lemma {:induction false} ChildIsAt(t: Tree, n: Name)
    ensures At(t, [n]).Some? <==> Child(t, n).Some?
  {
    assert [n][1..] == [];
  }

  lemma {:induction false} NoDifference(d: Devices, a: Tree, b: Tree, base: Path)
    requires forall rel: Path | rel != [] :: At(a, rel).None? && At(b, rel).None?
    ensures forall rel: Path :: DiffAt(d, a, b, base, rel).None?
  {
    forall rel: Path | rel != [] ensures DiffAt(d, a, b, base, rel).None? {
      ChildIsAt(a, rel[0]);
      ChildIsAt(b, rel[0]);
      assert DiffUnder(d, None, None, base + [rel[0]], rel[1..]).None?;
    }
  }

  lemma {:induction false} DifferenceContinues(d: Devices, t1: Tree, t2: Tree, base: Path, n: Name)
    requires !Filtered(base + [n])
    ensures Continues(Difference(d, t1, t2, base), Under(d, Child(t1, n), Child(t2, n), base + [n]), n)
  {
    forall rel: Path
      ensures Difference(d, t1, t2, base)([n] + rel) == Under(d, Child(t1, n), Child(t2, n), base + [n])(rel)
    {
      assert ([n] + rel)[1..] == rel;
    }
  }

  /** A name whose output is empty because nothing is reported through it. */
  lemma {:induction false} NothingThrough(out: seq<Entry>, l: Listing, base: Path, names: set<Name>, n: Name)
    requires ExactOn(out, l, base, names)
    requires forall rel: Path | rel != [] && rel[0] == n :: l(rel).None?
    ensures ExactOn(out, l, base, names + {n})
  {
  }

  function Same(n: Name): Name { n }

  /** The listing of a directory in byte order. */
  function SortedNames(t: Tree): seq<Name> {
    Order.SortBy(Names(t), Same)
  }

  lemma {:induction false} SortedNamesListed(t: Tree)
    requires Valid(t)
    ensures Order.StrictlySorted(SortedNames(t), Same)
    ensures forall n :: Child(t, n).Some? <==> n in SortedNames(t)
  {
    forall i, j | 0 <= i < j < |Names(t)| ensures Same(Names(t)[i]) != Same(Names(t)[j]) {
      assert t.entries[i].0 != t.entries[j].0;
    }
    Order.SortByStrict(Names(t), Same);
  }

  /** A name of one listing that the merge has not met in the other is not in the other. */
  lemma {:induction false} NotListed(entries: seq<Name>, i: nat, n: Name, path: Path)
    requires i <= |entries| && Order.StrictlySorted(entries, Same) && !Filtered(path + [n])
    requires forall x | 0 <= x < i && !Filtered(path + [entries[x]]) :: Order.Less(entries[x], n)
    requires i < |entries| ==> Order.Less(n, entries[i])
    ensures n !in entries && forall x | i <= x < |entries| :: Order.Less(n, entries[x])
  {
    forall x | i <= x < |entries| ensures Order.Less(n, entries[x]) {
      if i < x {
        assert Order.Less(Same(entries[i]), Same(entries[x]));
        Order.Transitive(n, entries[i], entries[x]);
      }
    }
    Order.Trichotomy(n, n);
  }

  lemma {:induction false} CreatedBlock(d: Devices, t1: Tree, t2: Tree, path: Path, n: Name, block: seq<Entry>)
    requires Child(t1, n).None? && Child(t2, n).Some? && !Filtered(path + [n])
    requires var c := Child(t2, n).value;
      if c.info.dev == d.dev2 then Block(block, Whole(c, CREATED), path + [n]) else block == []
    ensures ExactOn(block, Difference(d, t1, t2, path), path, {n})
  {
    var c := Child(t2, n).value;
    var under := Under(d, None, Some(c), path + [n]);
    DifferenceContinues(d, t1, t2, path, n);
    if c.info.dev == d.dev2 {
      ExactSame(block[1..], Whole(c, CREATED), under, path + [n]);
    }
    BlockExact(block, Difference(d, t1, t2, path), under, path, n);
  }

  lemma {:induction false} DeletedBlock(d: Devices, t1: Tree, t2: Tree, path: Path, n: Name, block: seq<Entry>)
    requires Child(t1, n).Some? && Child(t2, n).None? && !Filtered(path + [n])
    requires var c := Child(t1, n).value;
      if c.info.dev == d.dev1 then Block(block, Whole(c, DELETED), path + [n]) else block == []
    ensures ExactOn(block, Difference(d, t1, t2, path), path, {n})
  {
    var c := Child(t1, n).value;
    var under := Under(d, Some(c), None, path + [n]);
    DifferenceContinues(d, t1, t2, path, n);
    if c.info.dev == d.dev1 {
      ExactSame(block[1..], Whole(c, DELETED), under, path + [n]);
    }
    BlockExact(block, Difference(d, t1, t2, path), under, path, n);
  }

  lemma {:induction false} AllNamesDone(d: Devices, t1: Tree, t2: Tree, path: Path, done: set<Name>)
    requires forall n | Child(t1, n).Some? || Child(t2, n).Some? :: n in done
    ensures forall rel: Path | rel != [] && Difference(d, t1, t2, path)(rel).Some? :: rel[0] in done
  {
    forall rel: Path | rel != [] && Difference(d, t1, t2, path)(rel).Some? ensures rel[0] in done {
      assert DiffAt(d, t1, t2, path, rel).Some?;
      assert DiffUnder(d, None, None, path + [rel[0]], rel[1..]).None?;
    }
  }

  /** What the two cursors of the merge have passed. */
  ghost function Passed(entries1: seq<Name>, i: nat, entries2: seq<Name>, j: nat): set<Name>
    requires i <= |entries1| && j <= |entries2|
  {
    (set k | 0 <= k < i :: entries1[k]) + (set k | 0 <= k < j :: entries2[k])
  }

  /** Every name passed in one listing comes before what is left of the other. */
  ghost predicate Ahead(entries1: seq<Name>, i: nat, entries2: seq<Name>, j: nat, path: Path)
    requires i <= |entries1| && j <= |entries2|
  {
    && Order.StrictlySorted(entries1, Same) && Order.StrictlySorted(entries2, Same)
    && (forall x, y | 0 <= x < i && j <= y < |entries2| && !Filtered(path + [entries1[x]]) ::
          Order.Less(entries1[x], entries2[y]))
    && (forall x, y | i <= x < |entries1| && 0 <= y < j && !Filtered(path + [entries2[y]]) ::
          Order.Less(entries2[y], entries1[x]))
  }

  lemma {:induction false} PassFirst(entries1: seq<Name>, i: nat, entries2: seq<Name>, j: nat, path: Path)
    requires i < |entries1| && j <= |entries2| && Ahead(entries1, i, entries2, j, path)
    requires Filtered(path + [entries1[i]]) || j == |entries2| || Order.Less(entries1[i], entries2[j])
    ensures Ahead(entries1, i + 1, entries2, j, path)
    ensures Passed(entries1, i + 1, entries2, j) == Passed(entries1, i, entries2, j) + {entries1[i]}
    ensures !Filtered(path + [entries1[i]]) ==>
            entries1[i] !in entries2 && entries1[i] !in Passed(entries1, i, entries2, j)
  {
    Order.Trichotomy(entries1[i], entries1[i]);
    if !Filtered(path + [entries1[i]]) {
      NotListed(entries2, j, entries1[i], path);
    }
  }

  lemma {:induction false} PassSecond(entries1: seq<Name>, i: nat, entries2: seq<Name>, j: nat, path: Path)
    requires i <= |entries1| && j < |entries2| && Ahead(entries1, i, entries2, j, path)
    requires Filtered(path + [entries2[j]]) || i == |entries1| || Order.Less(entries2[j], entries1[i])
    ensures Ahead(entries1, i, entries2, j + 1, path)
    ensures Passed(entries1, i, entries2, j + 1) == Passed(entries1, i, entries2, j) + {entries2[j]}
    ensures !Filtered(path + [entries2[j]]) ==>
            entries2[j] !in entries1 && entries2[j] !in Passed(entries1, i, entries2, j)
  {
    Order.Trichotomy(entries2[j], entries2[j]);
    if !Filtered(path + [entries2[j]]) {
      NotListed(entries1, i, entries2[j], path);
    }
  }

  lemma {:induction false} PassBoth(entries1: seq<Name>, i: nat, entries2: seq<Name>, j: nat, path: Path)
    requires i < |entries1| && j < |entries2| && Ahead(entries1, i, entries2, j, path)
    requires entries1[i] == entries2[j]
    ensures Ahead(entries1, i + 1, entries2, j + 1, path)
    ensures Passed(entries1, i + 1, entries2, j + 1) == Passed(entries1, i, entries2, j) + {entries1[i]}
    ensures entries1[i] !in Passed(entries1, i, entries2, j)
  {
    Order.Trichotomy(entries1[i], entries1[i]);
    forall x | 0 <= x < i
      ensures entries1[x] != entries1[i]
    {
      assert Order.Less(Same(entries1[x]), Same(entries1[i]));
    }
    forall y | 0 <= y < j
      ensures entries2[y] != entries2[j]
    {
      assert Order.Less(Same(entries2[y]), Same(entries2[j]));
    }
    forall y | j < y < |entries2| ensures Order.Less(entries1[i], entries2[y]) {
      assert Order.Less(Same(entries2[j]), Same(entries2[y]));
    }
    forall x | i < x < |entries1| ensures Order.Less(entries2[j], entries1[x]) {
      assert Order.Less(Same(entries1[i]), Same(entries1[x]));
    }
  }

  method CmpCreated(d: Devices, ghost t1: Tree, t2: Tree, path: Path, n: Name) returns (block: seq<Entry>)
    requires Valid(t2) && Child(t1, n).None? && Child(t2, n).Some? && !Filtered(path + [n])
    ensures ExactOn(block, Difference(d, t1, t2, path), path, {n})
  {
    var c := Child(t2, n).value;
    ChildValid(t2, n);
    block := [];
    if c.info.dev == d.dev2 {
      block := Lonesome(c, path, n, CREATED);
    }
    CreatedBlock(d, t1, t2, path, n, block);
  }

  method CmpDeleted(d: Devices, t1: Tree, ghost t2: Tree, path: Path, n: Name) returns (block: seq<Entry>)
    requires Valid(t1) && Child(t1, n).Some? && Child(t2, n).None? && !Filtered(path + [n])
    ensures ExactOn(block, Difference(d, t1, t2, path), path, {n})
  {
    var c := Child(t1, n).value;
    ChildValid(t1, n);
    block := [];
    if c.info.dev == d.dev1 {
      block := Lonesome(c, path, n, DELETED);
    }
    DeletedBlock(d, t1, t2, path, n, block);
  }

  method CmpCommon(d: Devices, t1: Tree, t2: Tree, path: Path, n: Name) returns (block: seq<Entry>)
    requires Valid(t1) && Valid(t2) && Child(t1, n).Some? && Child(t2, n).Some? && !Filtered(path + [n])
    ensures ExactOn(block, Difference(d, t1, t2, path), path, {n})
    decreases t1, 0
  {
    ChildValid(t1, n);
    ChildValid(t2, n);
    block := Twosome(d, Child(t1, n).value, Child(t2, n).value, path, n);
    DifferenceContinues(d, t1, t2, path, n);
    BlockExact(block, Difference(d, t1, t2, path), Under(d, Child(t1, n), Child(t2, n), path + [n]), path, n);
  }

  /** The cursors of the merge and the output so far. */
  datatype Merge = Merge(i: nat, j: nat, out: seq<Entry>)

  /** Half-way through the merge: the output is exact on the names passed. */
  ghost predicate Merging(d: Devices, t1: Tree, t2: Tree, path: Path, m: Merge) {
    var entries1, entries2 := SortedNames(t1), SortedNames(t2);
    && m.i <= |entries1| && m.j <= |entries2| && Ahead(entries1, m.i, entries2, m.j, path)
    && ExactOn(m.out, Difference(d, t1, t2, path), path, Passed(entries1, m.i, entries2, m.j))
  }

  method SkipFirst(d: Devices, t1: Tree, t2: Tree, path: Path, m: Merge) returns (r: Merge)
    requires Merging(d, t1, t2, path, m)
    requires m.i < |SortedNames(t1)| && Filtered(path + [SortedNames(t1)[m.i]])
    ensures Merging(d, t1, t2, path, r) && r.i == m.i + 1 && r.j == m.j
  {
    hide ExactOn, Ahead, Passed, SortedNames;
    var entries1, entries2 := SortedNames(t1), SortedNames(t2);
    PassFirst(entries1, m.i, entries2, m.j, path);
    NothingThrough(m.out, Difference(d, t1, t2, path), path, Passed(entries1, m.i, entries2, m.j), entries1[m.i]);
    r := m.(i := m.i + 1);
  }

  method SkipSecond(d: Devices, t1: Tree, t2: Tree, path: Path, m: Merge) returns (r: Merge)
    requires Merging(d, t1, t2, path, m)
    requires m.j < |SortedNames(t2)| && Filtered(path + [SortedNames(t2)[m.j]])
    ensures Merging(d, t1, t2, path, r) && r.i == m.i && r.j == m.j + 1
  {
    hide ExactOn, Ahead, Passed, SortedNames;
    var entries1, entries2 := SortedNames(t1), SortedNames(t2);
    PassSecond(entries1, m.i, entries2, m.j, path);
    NothingThrough(m.out, Difference(d, t1, t2, path), path, Passed(entries1, m.i, entries2, m.j), entries2[m.j]);
    r := m.(j := m.j + 1);
  }

  /** What the names under the cursors are to the two directories. */
  ghost predicate OnlySecond(t1: Tree, t2: Tree, path: Path, m: Merge) {
    var entries1, entries2 := SortedNames(t1), SortedNames(t2);
    && m.j < |entries2| && !Filtered(path + [entries2[m.j]])
    && (m.i == |entries1| || (m.i < |entries1| && Order.Less(entries2[m.j], entries1[m.i])))
  }

  ghost predicate OnlyFirst(t1: Tree, t2: Tree, path: Path, m: Merge) {
    var entries1, entries2 := SortedNames(t1), SortedNames(t2);
    && m.i < |entries1| && !Filtered(path + [entries1[m.i]])
    && (m.j == |entries2| || (m.j < |entries2| && Order.Less(entries1[m.i], entries2[m.j])))
  }

  ghost predicate OnBoth(t1: Tree, t2: Tree, path: Path, m: Merge) {
    var entries1, entries2 := SortedNames(t1), SortedNames(t2);
    && m.i < |entries1| && m.j < |entries2| && entries1[m.i] == entries2[m.j] && !Filtered(path + [entries1[m.i]])
  }

  lemma {:induction false} SecondOnly(d: Devices, t1: Tree, t2: Tree, path: Path, m: Merge)
    requires Valid(t1) && Valid(t2) && Merging(d, t1, t2, path, m) && OnlySecond(t1, t2, path, m)
    ensures var n := SortedNames(t2)[m.j]; Child(t1, n).None? && Child(t2, n).Some?
  {
    SortedNamesListed(t1);
    SortedNamesListed(t2);
    PassSecond(SortedNames(t1), m.i, SortedNames(t2), m.j, path);
  }

  lemma {:induction false} TookSecond(d: Devices, t1: Tree, t2: Tree, path: Path, m: Merge, block: seq<Entry>)
    requires Merging(d, t1, t2, path, m) && OnlySecond(t1, t2, path, m)
    requires ExactOn(block, Difference(d, t1, t2, path), path, {SortedNames(t2)[m.j]})
    ensures Merging(d, t1, t2, path, Merge(m.i, m.j + 1, m.out + block))
  {
    hide ExactOn, Ahead, Passed, Difference, SortedNames, Filtered;
    var entries1, entries2 := SortedNames(t1), SortedNames(t2);
    PassSecond(entries1, m.i, entries2, m.j, path);
    ExactOnAppend(m.out, block, Difference(d, t1, t2, path), path, Passed(entries1, m.i, entries2, m.j), entries2[m.j]);
  }

  method TakeSecond(d: Devices, t1: Tree, t2: Tree, path: Path, m: Merge) returns (r: Merge)
    requires Valid(t1) && Valid(t2) && Merging(d, t1, t2, path, m) && OnlySecond(t1, t2, path, m)
    ensures Merging(d, t1, t2, path, r) && r.i == m.i && r.j == m.j + 1
  {
    hide Merging;
    SecondOnly(d, t1, t2, path, m);
    var block := CmpCreated(d, t1, t2, path, SortedNames(t2)[m.j]);
    TookSecond(d, t1, t2, path, m, block);
    r := Merge(m.i, m.j + 1, m.out + block);
  }

  lemma {:induction false} FirstOnly(d: Devices, t1: Tree, t2: Tree, path: Path, m: Merge)
    requires Valid(t1) && Valid(t2) && Merging(d, t1, t2, path, m) && OnlyFirst(t1, t2, path, m)
    ensures var n := SortedNames(t1)[m.i]; Child(t1, n).Some? && Child(t2, n).None?
  {
    SortedNamesListed(t1);
    SortedNamesListed(t2);
    PassFirst(SortedNames(t1), m.i, SortedNames(t2), m.j, path);
  }

  lemma {:induction false} TookFirst(d: Devices, t1: Tree, t2: Tree, path: Path, m: Merge, block: seq<Entry>)
    requires Merging(d, t1, t2, path, m) && OnlyFirst(t1, t2, path, m)
    requires ExactOn(block, Difference(d, t1, t2, path), path, {SortedNames(t1)[m.i]})
    ensures Merging(d, t1, t2, path, Merge(m.i + 1, m.j, m.out + block))
  {
    hide ExactOn, Ahead, Passed, Difference, SortedNames, Filtered;
    var entries1, entries2 := SortedNames(t1), SortedNames(t2);
    PassFirst(entries1, m.i, entries2, m.j, path);
    ExactOnAppend(m.out, block, Difference(d, t1, t2, path), path, Passed(entries1, m.i, entries2, m.j), entries1[m.i]);
  }

  method TakeFirst(d: Devices, t1: Tree, t2: Tree, path: Path, m: Merge) returns (r: Merge)
    requires Valid(t1) && Valid(t2) && Merging(d, t1, t2, path, m) && OnlyFirst(t1, t2, path, m)
    ensures Merging(d, t1, t2, path, r) && r.i == m.i + 1 && r.j == m.j
  {
    hide Merging;
    FirstOnly(d, t1, t2, path, m);
    var block := CmpDeleted(d, t1, t2, path, SortedNames(t1)[m.i]);
    TookFirst(d, t1, t2, path, m, block);
    r := Merge(m.i + 1, m.j, m.out + block);
  }

  lemma {:induction false} BothListed(t1: Tree, t2: Tree, path: Path, m: Merge)
    requires Valid(t1) && Valid(t2) && OnBoth(t1, t2, path, m)
    ensures var n := SortedNames(t1)[m.i]; Child(t1, n).Some? && Child(t2, n).Some?
  {
    SortedNamesListed(t1);
    SortedNamesListed(t2);
  }

  lemma {:induction false} TookBoth(d: Devices, t1: Tree, t2: Tree, path: Path, m: Merge, block: seq<Entry>)
    requires Merging(d, t1, t2, path, m) && OnBoth(t1, t2, path, m)
    requires ExactOn(block, Difference(d, t1, t2, path), path, {SortedNames(t1)[m.i]})
    ensures Merging(d, t1, t2, path, Merge(m.i + 1, m.j + 1, m.out + block))
  {
    hide ExactOn, Ahead, Passed, Difference, SortedNames, Filtered;
    var entries1, entries2 := SortedNames(t1), SortedNames(t2);
    PassBoth(entries1, m.i, entries2, m.j, path);
    ExactOnAppend(m.out, block, Difference(d, t1, t2, path), path, Passed(entries1, m.i, entries2, m.j), entries1[m.i]);
  }

  method TakeBoth(d: Devices, t1: Tree, t2: Tree, path: Path, m: Merge) returns (r: Merge)
    requires Valid(t1) && Valid(t2) && Merging(d, t1, t2, path, m) && OnBoth(t1, t2, path, m)
    ensures Merging(d, t1, t2, path, r) && r.i == m.i + 1 && r.j == m.j + 1
    decreases t1, 1
  {
    hide Merging;
    BothListed(t1, t2, path, m);
    var block := CmpCommon(d, t1, t2, path, SortedNames(t1)[m.i]);
    TookBoth(d, t1, t2, path, m, block);
    r := Merge(m.i + 1, m.j + 1, m.out + block);
  }

  /** Merges the sorted listings of two directories. */
  method CmpDirsWorker(d: Devices, t1: Tree, t2: Tree, path: Path) returns (out: seq<Entry>)
    requires Valid(t1) && Valid(t2)
    ensures Exact(out, Difference(d, t1, t2, path), path)
    decreases t1, 2
  {
    var entries1, entries2 := SortedNames(t1), SortedNames(t2);
    var m := Merge(0, 0, []);
    MergeBegins(d, t1, t2, path);
    while m.i < |entries1| || m.j < |entries2|
      invariant m.i <= |entries1| && m.j <= |entries2| && Merging(d, t1, t2, path, m)
      decreases |entries1| - m.i + |entries2| - m.j
    {
      if m.i < |entries1| && Filtered(path + [entries1[m.i]]) {
        m := SkipFirst(d, t1, t2, path, m);
      } else if m.j < |entries2| && Filtered(path + [entries2[m.j]]) {
        m := SkipSecond(d, t1, t2, path, m);
      } else if m.i == |entries1| || (m.j < |entries2| && Order.Less(entries2[m.j], entries1[m.i])) {
        m := TakeSecond(d, t1, t2, path, m);
      } else if m.j == |entries2| || Order.Less(entries1[m.i], entries2[m.j]) {
        m := TakeFirst(d, t1, t2, path, m);
      } else {
        Order.Trichotomy(entries1[m.i], entries2[m.j]);
        m := TakeBoth(d, t1, t2, path, m);
      }
    }
    MergeEnds(d, t1, t2, path, m);
    out := m.out;
  }

  lemma {:induction false} MergeBegins(d: Devices, t1: Tree, t2: Tree, path: Path)
    requires Valid(t1) && Valid(t2)
    ensures Merging(d, t1, t2, path, Merge(0, 0, []))
  {
    SortedNamesListed(t1);
    SortedNamesListed(t2);
  }

  lemma {:induction false} MergeEnds(d: Devices, t1: Tree, t2: Tree, path: Path, m: Merge)
    requires Valid(t1) && Valid(t2)
    requires Merging(d, t1, t2, path, m) && m.i == |SortedNames(t1)| && m.j == |SortedNames(t2)|
    ensures Exact(m.out, Difference(d, t1, t2, path), path)
  {
    SortedNamesListed(t1);
    SortedNamesListed(t2);
    var passed := Passed(SortedNames(t1), m.i, SortedNames(t2), m.j);
    AllNamesDone(d, t1, t2, path, passed);
    ExactOnAll(m.out, Difference(d, t1, t2, path), path, passed);
  }

  /** Whether a path takes part in a comparison at all. */
  predicate Visible(p: Path) {
    p != [] && p[0] != SNAPSHOTS_NAME
  }

  lemma {:induction false} FilteredIff(p: Path)
    ensures Filtered(p) <==> p == [SNAPSHOTS_NAME]
  {
    if |p| == 1 {
      assert Join(p) == "/" + p[0] + Join(p[1..]) && p[1..] == [];
      assert Join(p)[1..] == p[0];
      assert ("/" + SNAPSHOTS_NAME)[1..] == SNAPSHOTS_NAME;
    } else if |p| > 1 {
      var rest := Join(p[1..]);
      assert rest == "/" + p[1..][0] + Join(p[1..][1..]);
      assert Join(p) == "/" + p[0] + rest;
      assert Join(p)[1 + |p[0]|] == rest[0] == '/';
      assert forall i | 1 <= i < |"/" + SNAPSHOTS_NAME| :: ("/" + SNAPSHOTS_NAME)[i] != '/';
    }
  }

  /** What a report says of a path, by what stands there on either side. */
  ghost predicate Tells(t1: Tree, t2: Tree, p: Path, s: Status) {
    match (At(t1, p), At(t2, p))
    case (None, None) => false
    case (Some(_), None) => s == DELETED
    case (None, Some(_)) => s == CREATED
    case (Some(a), Some(b)) => Describes(s, a, b) && a.node != b.node
  }

  /** Whatever the devices, a report tells what changed. */
  lemma {:induction false} DiffTells(d: Devices, t1: Tree, t2: Tree, base: Path, rel: Path)
    requires Valid(t1) && Valid(t2) && DiffAt(d, t1, t2, base, rel).Some?
    ensures Tells(t1, t2, rel, DiffAt(d, t1, t2, base, rel).value)
    decreases |rel|
  {
    hide Describes;
    var n := rel[0];
    var c1, c2 := Child(t1, n), Child(t2, n);
    if c1.Some? { ChildValid(t1, n); }
    if c2.Some? { ChildValid(t2, n); }
    hide Valid;
    if c1.Some? && c2.Some? {
      var a, b, inner := c1.value, c2.value, rel[1..];
      assert At(t1, rel) == At(a, inner) && At(t2, rel) == At(b, inner);
      ChangesTell(a.info, b.info);
      if inner != [] {
        if !Changes(a.info, b.info).kind {
          DiffTells(d, a, b, base + [n], inner);
        } else {
          if !a.info.node.Dir? { NoEntries(a); }
          if !b.info.node.Dir? { NoEntries(b); }
        }
      }
    }
  }

  lemma {:induction false} ChangesTell(a: Info, b: Info)
    ensures Describes(Changes(a, b), a, b) && (Changes(a, b) != NOTHING ==> a.node != b.node)
  {
    ChangesDescribe(a, b);
  }

  /** The comparison of two snapshots: no path twice, each with the flags of what changed there, and none without. */
  method CmpDirs(t1: Tree, t2: Tree) returns (out: seq<Entry>)
    requires Valid(t1) && Valid(t2)
    ensures Exact(out, Difference(Devices(t1.info.dev, t2.info.dev), t1, t2, []), [])
    ensures forall e | e in out :: Visible(e.path) && Tells(t1, t2, e.path, e.status)
  {
    var d := Devices(t1.info.dev, t2.info.dev);
    out := CmpDirsWorker(d, t1, t2, []);
    forall e | e in out ensures Visible(e.path) && Tells(t1, t2, e.path, e.status) {
      hide Tells;
      assert Sound(e, Difference(d, t1, t2, []), []);
      assert e.path[0..] == e.path;
      FilteredIff([] + [e.path[0]]);
      DiffTells(d, t1, t2, [], e.path);
    }
  }

  /** The difference at a path by what stands there on either side, and by nothing else. */
  function FlatDiff(i1: Option<Info>, i2: Option<Info>): Option<Status> {
    match (i1, i2)
    case (None, None) => None
    case (Some(_), None) => Some(DELETED)
    case (None, Some(_)) => Some(CREATED)
    case (Some(a), Some(b)) => if Changes(a, b) == NOTHING then None else Some(Changes(a, b))
  }

  lemma {:induction false} Regroup(base: Path, rel: Path)
    requires rel != []
    ensures (base + [rel[0]]) + rel[1..] == base + rel
  {
  }

  /** On a single device the recursive difference is the difference path by path. */
  lemma {:induction false} DiffIsFlat(d: Devices, t1: Tree, t2: Tree, base: Path, rel: Path)
    requires Valid(t1) && Valid(t2) && OnDevice(t1, d.dev1) && OnDevice(t2, d.dev2)
    requires rel != [] && Visible(base + rel)
    ensures DiffAt(d, t1, t2, base, rel) == FlatDiff(At(t1, rel), At(t2, rel))
    decreases |rel|
  {
    var n := rel[0];
    FilteredIff(base + [n]);
    assert (base + rel)[0] == (base + [n])[0];
    var c1, c2 := Child(t1, n), Child(t2, n);
    if c1.Some? { ChildValid(t1, n); }
    if c2.Some? { ChildValid(t2, n); }
    hide Valid, OnDevice;
    if c1.Some? && c2.Some? && |rel| > 1 {
      if !Changes(c1.value.info, c2.value.info).kind {
        Regroup(base, rel);
        DiffIsFlat(d, c1.value, c2.value, base + [n], rel[1..]);
      } else {
        if !c1.value.info.node.Dir? { NoEntries(c1.value); }
        if !c2.value.info.node.Dir? { NoEntries(c2.value); }
      }
    }
  }

  ghost predicate Unreported(out: seq<Entry>, p: Path) {
    forall e | e in out :: e.path != p
  }

  /** Nothing that a status could say of a path. */
  ghost predicate Unchanged(i1: Option<Info>, i2: Option<Info>) {
    match (i1, i2)
    case (None, None) => true
    case (Some(a), Some(b)) => Describes(NOTHING, a, b)
    case _ => false
  }

  lemma {:induction false} FlatDiffTells(t1: Tree, t2: Tree, p: Path)
    ensures match FlatDiff(At(t1, p), At(t2, p)) {
      case Some(s) => Tells(t1, t2, p, s)
      case None => Unchanged(At(t1, p), At(t2, p))
    }
  {
    if At(t1, p).Some? && At(t2, p).Some? { ChangesTell(At(t1, p).value, At(t2, p).value); }
  }

  /** The reports of a comparison within one device: each differing visible path once, with the right flags. */
  lemma {:induction false} ComparisonExact(t1: Tree, t2: Tree, out: seq<Entry>)
    requires Valid(t1) && Valid(t2) && OnDevice(t1, t1.info.dev) && OnDevice(t2, t2.info.dev)
    requires Exact(out, Difference(Devices(t1.info.dev, t2.info.dev), t1, t2, []), [])
    ensures forall p: Path, s: Status ::
              Entry(p, s) in out <==> Visible(p) && FlatDiff(At(t1, p), At(t2, p)) == Some(s)
  {
    var d := Devices(t1.info.dev, t2.info.dev);
    var l := Difference(d, t1, t2, []);
    forall p: Path, s: Status
      ensures Entry(p, s) in out <==> Visible(p) && FlatDiff(At(t1, p), At(t2, p)) == Some(s)
    {
      if Entry(p, s) in out {
        assert Sound(Entry(p, s), l, []);
        assert p[0..] == p;
        FilteredIff([] + [p[0]]);
      }
      if Visible(p) {
        assert [] + p == p;
        DiffIsFlat(d, t1, t2, [], p);
        if l(p).Some? { assert Entry([] + p, l(p).value) in out; }
      }
    }
  }

  /** The same flag by flag: what is reported tells a change, and of what is not reported there is none to tell. */
  lemma {:induction false} ReportsTell(t1: Tree, t2: Tree, out: seq<Entry>)
    requires Valid(t1) && Valid(t2) && OnDevice(t1, t1.info.dev) && OnDevice(t2, t2.info.dev)
    requires Exact(out, Difference(Devices(t1.info.dev, t2.info.dev), t1, t2, []), [])
    ensures forall e | e in out :: Visible(e.path) && Tells(t1, t2, e.path, e.status)
    ensures forall p: Path | Visible(p) && Unreported(out, p) :: Unchanged(At(t1, p), At(t2, p))
  {
    hide Tells, Unchanged, Exact, FlatDiff, Valid, OnDevice;
    ComparisonExact(t1, t2, out);
    forall e | e in out ensures Visible(e.path) && Tells(t1, t2, e.path, e.status) {
      assert Entry(e.path, e.status) in out;
      FlatDiffTells(t1, t2, e.path);
    }
    forall p: Path | Visible(p) && Unreported(out, p) ensures Unchanged(At(t1, p), At(t2, p)) {
      FlatDiffTells(t1, t2, p);
      assert forall s: Status :: Entry(p, s) in out ==> Entry(p, s).path == p;
    }
  }

  function Inverted(o: Option<Status>): Option<Status> {
    match o
    case None => None
    case Some(s) => Some(InvertStatus(s))
  }

  lemma {:induction false} ChangesSymmetric(a: Info, b: Info)
    ensures Changes(a, b) == Changes(b, a) && InvertStatus(Changes(a, b)) == Changes(a, b)
  {
  }

  /** Comparing the other way round inverts every status, whatever the devices. */
  lemma {:induction false} DiffAntisymmetric(d: Devices, t1: Tree, t2: Tree, base: Path, rel: Path)
    requires Valid(t1) && Valid(t2)
    ensures DiffAt(Devices(d.dev2, d.dev1), t2, t1, base, rel) == Inverted(DiffAt(d, t1, t2, base, rel))
    decreases |rel|
  {
    if rel != [] && !Filtered(base + [rel[0]]) {
      var n := rel[0];
      var c1, c2 := Child(t1, n), Child(t2, n);
      if c1.Some? { ChildValid(t1, n); }
      if c2.Some? { ChildValid(t2, n); }
      if c1.Some? && c2.Some? {
        ChangesSymmetric(c1.value.info, c2.value.info);
        if |rel| > 1 {
          if !Changes(c1.value.info, c2.value.info).kind {
            DiffAntisymmetric(d, c1.value, c2.value, base + [n], rel[1..]);
          } else {
            if !c1.value.info.node.Dir? { NoEntries(c1.value); }
            if !c2.value.info.node.Dir? { NoEntries(c2.value); }
          }
        }
      }
    }
  }

  /** Every reported status can be written down and read back. */
  lemma {:induction false} DiffWritable(d: Devices, t1: Tree, t2: Tree, base: Path, rel: Path)
    requires DiffAt(d, t1, t2, base, rel).Some?
    ensures Writable(DiffAt(d, t1, t2, base, rel).value)
    decreases |rel|
  {
    var c1, c2 := Child(t1, rel[0]), Child(t2, rel[0]);
    if c1.Some? && c2.Some? && |rel| > 1 && !Changes(c1.value.info, c2.value.info).kind {
      DiffWritable(d, c1.value, c2.value, base + [rel[0]], rel[1..]);
    }
  }
}
