/**
 The path trie of the btrfs stream processor (tree_node in snapper/Btrfs.cc). It stands for a flat map from paths to
 the statuses that are not zero.
 */
module Trie {
  import opened Wrappers
  import opened FileStatus
  import Order
  import Text

  type Path = seq<string>

  datatype Node = Node(status: Status, children: map<string, Node>)

  const EMPTY := Node(NOTHING, map[])

  // Names

  /** The components of a name, as the recursion of the operations takes them off. */
  function Split(name: string): (p: Path)
    ensures p != []
    decreases |name|
  {
    var k := Text.Position(name, '/');
    if k == |name| then [name] else [name[..k]] + Split(name[k + 1..])
  }

  function Unsplit(p: Path): string
    requires p != []
  {
    if |p| == 1 then p[0] else p[0] + "/" + Unsplit(p[1..])
  }

  /** Names and paths stand for each other. */
  lemma {:induction false} SplitUnsplit(p: Path)
    requires p != [] && forall i | 0 <= i < |p| :: '/' !in p[i]
    ensures Split(Unsplit(p)) == p
  {
    if |p| == 1 {
      Text.PositionNone(p[0], '/');
    } else {
      SplitUnsplit(p[1..]);
      SplitOne(p[0], Unsplit(p[1..]));
    }
  }

  lemma {:induction false} SplitOne(a: string, b: string)
    requires '/' !in a
    ensures Split(a + "/" + b) == [a] + Split(b)
  {
    Text.PositionFirst(a, '/', b);
    var name := a + "/" + b;
    assert name[..|a|] == a && name[|a| + 1..] == b;
  }

  lemma {:induction false} UnsplitSplit(name: string)
    ensures Unsplit(Split(name)) == name && forall i | 0 <= i < |Split(name)| :: '/' !in Split(name)[i]
    decreases |name|
  {
    var k := Text.Position(name, '/');
    if k < |name| {
      UnsplitSplit(name[k + 1..]);
      assert Split(name)[1..] == Split(name[k + 1..]);
    }
  }

  // Operations

  function Find(t: Node, p: Path): Option<Node>
    decreases |p|
  {
    if p == [] then Some(t) else if p[0] in t.children then Find(t.children[p[0]], p[1..]) else None
  }

  function ChildOrNew(t: Node, a: string): Node {
    if a in t.children then t.children[a] else EMPTY
  }

  /** The node at a path, created together with the nodes above it where missing. */
  function Insert(t: Node, p: Path): Node
    decreases |p|
  {
    if p == [] then t
    else t.(children := t.children[p[0] := Insert(ChildOrNew(t, p[0]), p[1..])])
  }

  /** Assigns to the node that was found or inserted at a path. */
  function Update(t: Node, p: Path, n: Node): Node
    requires Find(t, p).Some?
    decreases |p|
  {
    if p == [] then n
    else t.(children := t.children[p[0] := Update(t.children[p[0]], p[1..], n)])
  }

  function Erase(t: Node, p: Path): Node
    requires p != []
    decreases |p|
  {
    if p[0] !in t.children then t
    else
      var child := t.children[p[0]];
      if |p| == 1 then
        if child.children == map[] then t.(children := t.children - {p[0]})
        else t.(children := t.children[p[0] := child.(status := NOTHING)])
      else
        var rest := Erase(child, p[1..]);
        if rest.status == NOTHING && rest.children == map[] then t.(children := t.children - {p[0]})
        else t.(children := t.children[p[0] := rest])
  }

  /**
   Inserts the new node, swaps the children of the two, copies the status and erases what is left of the old node.
   A node is never moved below itself.
   */
  function Rename(t: Node, o: Path, n: Path): Option<Node>
    requires o != [] && n != [] && (Find(t, o).Some? && Find(t, n).None? ==> !(o <= n))
  {
    if Find(t, o).None? || Find(t, n).Some? then None
    else
      FindAbove(t, n, o);
      InsertFinds(t, n, o);
      InsertFinds(t, n, n);
      var inserted := Insert(t, n);
      var oo, nn := Find(inserted, o).value, Find(inserted, n).value;
      UpdateFinds(inserted, n, Node(oo.status, oo.children), o);
      var swapped := Update(inserted, n, Node(oo.status, oo.children));
      Some(Erase(Update(swapped, o, Node(oo.status, nn.children)), o))
  }

  // The flat map

  /** The status of a path, zero where there is none. */
  function StatusAt(t: Node, p: Path): Status {
    match Find(t, p)
    case None => NOTHING
    case Some(n) => n.status
  }

  /** No leaf has status zero. */
  ghost predicate Lean(t: Node)
    decreases t
  {
    forall a | a in t.children ::
      (t.children[a].children == map[] ==> t.children[a].status != NOTHING) && Lean(t.children[a])
  }

  lemma {:induction false} InsertFinds(t: Node, p: Path, q: Path)
    ensures Find(Insert(t, p), q) ==
            if q <= p then Some(Insert(if Find(t, q).Some? then Find(t, q).value else EMPTY, p[|q|..]))
            else if Find(t, p).None? && p <= q then None
            else Find(t, q)
    decreases |p|
  {
    if p != [] && q != [] && p[0] == q[0] {
      InsertFinds(ChildOrNew(t, p[0]), p[1..], q[1..]);
      assert q <= p <==> q[1..] <= p[1..];
      assert p <= q <==> p[1..] <= q[1..];
    }
  }

  lemma {:induction false} UpdateFinds(t: Node, p: Path, n: Node, q: Path)
    requires Find(t, p).Some?
    ensures q <= p ==> Find(t, q).Some? && Find(Find(t, q).value, p[|q|..]).Some?
    ensures Find(Update(t, p, n), q) ==
            if p <= q then Find(n, q[|p|..])
            else if q <= p then Some(Update(Find(t, q).value, p[|q|..], n))
            else Find(t, q)
    decreases |p|
  {
    if p != [] && q != [] && p[0] == q[0] {
      UpdateFinds(t.children[p[0]], p[1..], n, q[1..]);
      assert q <= p <==> q[1..] <= p[1..];
      assert p <= q <==> p[1..] <= q[1..];
    }
  }

  /** What is found has all that is above it. */
  lemma {:induction false} FindAbove(t: Node, p: Path, q: Path)
    requires Find(t, q).Some? && Find(t, p).None?
    ensures !(p <= q)
  {
    if p <= q { FindPrefix(t, p, q); }
  }

  lemma {:induction false} FindPrefix(t: Node, p: Path, q: Path)
    requires p <= q
    ensures Find(t, q).Some? ==> Find(t, p).Some?
  {
    FindConcat(t, p, q[|p|..]);
    assert p + q[|p|..] == q;
  }

  lemma {:induction false} FindConcat(t: Node, a: Path, b: Path)
    ensures Find(t, a + b) == if Find(t, a).Some? then Find(Find(t, a).value, b) else None
    decreases |a|
  {
    if a == [] {
      assert a + b == b;
    } else {
      assert (a + b)[0] == a[0] && (a + b)[1..] == a[1..] + b;
      if a[0] in t.children { FindConcat(t.children[a[0]], a[1..], b); }
    }
  }

  lemma {:induction false} InsertStatus(t: Node, p: Path, q: Path)
    ensures StatusAt(Insert(t, p), q) == StatusAt(t, q)
  {
    InsertFinds(t, p, q);
    if q <= p {
      assert Insert(EMPTY, p[|q|..]).status == NOTHING;
    } else if p <= q {
      FindPrefix(t, p, q);
    }
  }

  lemma {:induction false} UpdateStatus(t: Node, p: Path, n: Node, q: Path)
    requires Find(t, p).Some?
    ensures StatusAt(Update(t, p, n), q) == if p <= q then StatusAt(n, q[|p|..]) else StatusAt(t, q)
  {
    UpdateFinds(t, p, n, q);
  }

  /** Erasing takes exactly one path from the flat map. */
  lemma {:induction false} EraseStatus(t: Node, p: Path, q: Path)
    requires p != [] && q != []
    ensures StatusAt(Erase(t, p), q) == if p == q then NOTHING else StatusAt(t, q)
    decreases |p|
  {
    if p[0] in t.children && p[0] == q[0] {
      var child := t.children[p[0]];
      if |p| == 1 {
        assert p == [p[0]];
        if |q| > 1 {
          SameChildren(child, child.(status := NOTHING), q[1..]);
        } else {
          assert q == [q[0]] && Find(child.(status := NOTHING), q[1..]) == Some(child.(status := NOTHING));
        }
      } else if |q| == 1 {
        EraseKeepsRoot(child, p[1..]);
        assert q[1..] == [] && Find(Erase(child, p[1..]), []).value.status == Find(child, []).value.status;
      } else {
        EraseStatus(child, p[1..], q[1..]);
        assert p == q <==> p[1..] == q[1..];
      }
    }
  }

  lemma {:induction false} SameChildren(a: Node, b: Node, p: Path)
    requires a.children == b.children && p != []
    ensures Find(a, p) == Find(b, p) && (a.children == map[] ==> Find(a, p).None?)
  {
  }

  lemma {:induction false} EraseKeepsRoot(t: Node, p: Path)
    requires p != []
    ensures Erase(t, p).status == t.status
  {
  }

  // No leaf with status zero

  ghost predicate LeanNode(n: Node) {
    Lean(n) && (n.children == map[] ==> n.status != NOTHING)
  }

  /** In a lean trie a path is there exactly if the flat map has a path at or below it. */
  lemma {:induction false} PresentIff(t: Node, p: Path)
    requires Lean(t) && p != []
    ensures Find(t, p).Some? <==> exists q :: p <= q && StatusAt(t, q) != NOTHING
  {
    if Find(t, p).Some? {
      LeanBelow(t, p);
      var r := SomeStatus(Find(t, p).value);
      FindConcat(t, p, r);
      assert p <= p + r && StatusAt(t, p + r) != NOTHING;
    } else {
      forall q | p <= q ensures StatusAt(t, q) == NOTHING {
        FindConcat(t, p, q[|p|..]);
        assert p + q[|p|..] == q;
      }
    }
  }

  lemma {:induction false} LeanBelow(t: Node, p: Path)
    requires Lean(t) && Find(t, p).Some? && p != []
    ensures LeanNode(Find(t, p).value)
    decreases |p|
  {
    var child := t.children[p[0]];
    if |p| > 1 { LeanBelow(child, p[1..]); } else { assert Find(child, p[1..]) == Some(child); }
  }

  lemma {:induction false} SomeStatus(t: Node) returns (r: Path)
    requires LeanNode(t)
    ensures StatusAt(t, r) != NOTHING
    decreases t
  {
    if t.children == map[] {
      r := [];
    } else {
      var a :| a in t.children;
      var below := SomeStatus(t.children[a]);
      r := [a] + below;
      assert r[1..] == below;
    }
  }

  /** Putting a node at a path. */
  function Put(t: Node, p: Path, n: Node): Node
    decreases |p|
  {
    if p == [] then n else t.(children := t.children[p[0] := Put(ChildOrNew(t, p[0]), p[1..], n)])
  }

  lemma {:induction false} InsertPresent(t: Node, p: Path)
    ensures Find(Insert(t, p), p).Some?
  {
    InsertFinds(t, p, p);
  }

  lemma {:induction false} UpdateInsertIsPut(t: Node, p: Path, n: Node)
    ensures Find(Insert(t, p), p).Some? && Update(Insert(t, p), p, n) == Put(t, p, n)
    decreases |p|
  {
    InsertPresent(t, p);
    if p != [] { UpdateInsertIsPut(ChildOrNew(t, p[0]), p[1..], n); }
  }

  lemma {:induction false} UpdateIsPut(t: Node, p: Path, n: Node)
    requires Find(t, p).Some?
    ensures Update(t, p, n) == Put(t, p, n)
    decreases |p|
  {
    if p != [] { UpdateIsPut(t.children[p[0]], p[1..], n); }
  }

  lemma {:induction false} PutLean(t: Node, p: Path, n: Node)
    requires Lean(t) && LeanNode(n) && p != []
    ensures Lean(Put(t, p, n))
    decreases |p|
  {
    var child := ChildOrNew(t, p[0]);
    if |p| > 1 {
      PutLean(child, p[1..], n);
      assert p[1..][0] in Put(child, p[1..], n).children;
    }
  }

  /** Lean, but for the status of one node. */
  ghost predicate LeanExcept(t: Node, p: Path)
    decreases |p|
  {
    if p == [] then Lean(t)
    else forall a | a in t.children :: if a == p[0] then LeanExcept(t.children[a], p[1..]) else LeanNode(t.children[a])
  }

  lemma {:induction false} PutLeanExcept(t: Node, p: Path, n: Node)
    requires Lean(t) && Lean(n)
    ensures LeanExcept(Put(t, p, n), p)
    decreases |p|
  {
    if p != [] { PutLeanExcept(ChildOrNew(t, p[0]), p[1..], n); }
  }

  /** Erasing prunes what would be left over, whatever the status of the erased node was. */
  lemma {:induction false} EraseLean(t: Node, p: Path)
    requires p != [] && LeanExcept(t, p) && Find(t, p).Some?
    ensures Lean(Erase(t, p))
    decreases |p|
  {
    var child := t.children[p[0]];
    if |p| > 1 {
      EraseLean(child, p[1..]);
    } else {
      assert LeanExcept(child, p[1..]) && p[1..] == [];
    }
  }

  /** Erasing any path, present or not, leaves no leaf with status zero. */
  lemma {:induction false} EraseKeepsLean(t: Node, p: Path)
    requires p != [] && Lean(t)
    ensures Lean(Erase(t, p))
    decreases |p|
  {
    if p[0] in t.children && |p| > 1 { EraseKeepsLean(t.children[p[0]], p[1..]); }
  }

  // Renaming

  /** Renaming moves exactly what is at and below the old path to the new one. */
  lemma {:induction false} RenameStatus(t: Node, o: Path, n: Path, q: Path)
    requires o != [] && n != [] && q != [] && Find(t, o).Some? && Find(t, n).None? && !(o <= n)
    ensures Rename(t, o, n).Some?
    ensures StatusAt(Rename(t, o, n).value, q) ==
            if n <= q then StatusAt(t, o + q[|n|..]) else if o <= q then NOTHING else StatusAt(t, q)
  {
    FindAbove(t, n, o);
    InsertFinds(t, n, o);
    InsertFinds(t, n, n);
    var inserted := Insert(t, n);
    var oo, nn := Find(t, o).value, Find(inserted, n).value;
    assert n[|n|..] == [] && nn == EMPTY && Find(inserted, o) == Some(oo);
    var moved := Node(oo.status, oo.children);
    var swapped := Update(inserted, n, moved);
    UpdateFinds(inserted, n, moved, o);
    var left := Node(oo.status, nn.children);
    var emptied := Update(swapped, o, left);
    EraseStatus(emptied, o, q);
    UpdateStatus(swapped, o, left, q);
    UpdateStatus(inserted, n, moved, q);
    InsertStatus(t, n, q);
    if n <= q {
      NotBoth(o, n, q);
      FindConcat(t, o, q[|n|..]);
      assert moved == oo;
    } else if o <= q && q != o {
      assert q[|o|..] != [] && Find(left, q[|o|..]).None?;
    }
  }

  lemma {:induction false} NotBoth(o: Path, n: Path, q: Path)
    requires n <= q && !(o <= n) && !(n <= o)
    ensures !(o <= q)
  {
  }

  lemma {:induction false} RenameLean(t: Node, o: Path, n: Path)
    requires o != [] && n != [] && Find(t, o).Some? && Find(t, n).None? && !(o <= n) && Lean(t)
    ensures Rename(t, o, n).Some? && Lean(Rename(t, o, n).value)
  {
    FindAbove(t, n, o);
    InsertFinds(t, n, o);
    InsertFinds(t, n, n);
    var inserted := Insert(t, n);
    var oo, nn := Find(t, o).value, Find(inserted, n).value;
    assert n[|n|..] == [] && nn == EMPTY && Find(inserted, o) == Some(oo);
    LeanBelow(t, o);
    var moved := Node(oo.status, oo.children);
    assert moved == oo;
    UpdateInsertIsPut(t, n, moved);
    PutLean(t, n, moved);
    var swapped := Update(inserted, n, moved);
    UpdateFinds(inserted, n, moved, o);
    var left := Node(oo.status, nn.children);
    UpdateIsPut(swapped, o, left);
    PutLeanExcept(swapped, o, left);
    UpdateFinds(swapped, o, left, o);
    assert o[|o|..] == [];
    EraseLean(Update(swapped, o, left), o);
  }

  // Reporting

  /** Paths in the order in which nested sorted maps are visited. */
  predicate PathLess(p: Path, q: Path) {
    q != [] && (p == [] || Order.Less(p[0], q[0]) || (p[0] == q[0] && PathLess(p[1..], q[1..])))
  }

  lemma {:induction false} PathLessUnder(prefix: Path, p: Path, q: Path)
    ensures PathLess(prefix + p, prefix + q) <==> PathLess(p, q)
  {
    if prefix == [] {
      assert prefix + p == p && prefix + q == q;
    } else {
      Order.Trichotomy(prefix[0], prefix[0]);
      assert (prefix + p)[1..] == prefix[1..] + p && (prefix + q)[1..] == prefix[1..] + q;
      PathLessUnder(prefix[1..], p, q);
    }
  }

  lemma {:induction false} PathNotLess(p: Path)
    ensures !PathLess(p, p)
  {
    if p != [] {
      Order.Trichotomy(p[0], p[0]);
      PathNotLess(p[1..]);
    }
  }

  datatype Entry = Entry(path: Path, status: Status)

  /** What the callback gets. */
  datatype Report = Report(name: string, status: Status)

  /** The name of a child; at the top there is no slash. */
  function Below(prefix: string, a: string): string {
    if prefix == "" then a else prefix + "/" + a
  }

  function Name(p: Path): string {
    if p == [] then "" else Below(Name(p[..|p| - 1]), p[|p| - 1])
  }

  function Reports(entries: seq<Entry>): seq<Report> {
    seq(|entries|, i requires 0 <= i < |entries| => Report("/" + Name(entries[i].path), entries[i].status))
  }

  lemma {:induction false} UnsplitAppend(p: Path, a: string)
    requires p != []
    ensures Unsplit(p + [a]) == Unsplit(p) + "/" + a
  {
    if |p| == 1 {
      assert (p + [a])[1..] == [a];
    } else {
      assert (p + [a])[1..] == p[1..] + [a];
      UnsplitAppend(p[1..], a);
    }
  }

  lemma {:induction false} NameSize(p: Path)
    requires p != []
    ensures p[0] != "" ==> Name(p) == Unsplit(p) && Name(p) != ""
    ensures p[0] == "" ==> |Name(p)| + (if |p| == 1 then 0 else 1) <= |Unsplit(p)|
  {
    var n := |p| - 1;
    assert p == p[..n] + [p[n]];
    if n > 0 {
      NameSize(p[..n]);
      UnsplitAppend(p[..n], p[n]);
    } else {
      assert p[..n] == [];
    }
  }

  /** A path is reported under its name, unless its first component is empty and not the only one. */
  lemma {:induction false} NameExact(p: Path)
    requires p != []
    ensures Name(p) == Unsplit(p) <==> p[0] != "" || |p| == 1
  {
    NameSize(p);
    if |p| == 1 { assert p[..0] == []; }
  }

  /** An entry that belongs into the list of what is below some names of a node. */
  ghost predicate Listed(e: Entry, t: Node, prefix: Path, names: set<string>) {
    && |e.path| > |prefix| && prefix <= e.path && e.path[|prefix|] in names
    && e.status != NOTHING && StatusAt(t, e.path[|prefix|..]) == e.status
  }

  ghost predicate InOrder(out: seq<Entry>) {
    forall i, j | 0 <= i < j < |out| :: PathLess(out[i].path, out[j].path)
  }

  /** Each path of the flat map below some names of a node, in order, and so only once. */
  ghost predicate Lists(out: seq<Entry>, t: Node, prefix: Path, names: set<string>) {
    && (forall e | e in out :: Listed(e, t, prefix, names))
    && (forall q: Path | q != [] && q[0] in names && StatusAt(t, q) != NOTHING ::
        Entry(prefix + q, StatusAt(t, q)) in out)
    && InOrder(out)
  }

  lemma {:induction false} ListsOnce(out: seq<Entry>, i: nat, j: nat)
    requires InOrder(out) && i < j < |out|
    ensures out[i].path != out[j].path
  {
    PathNotLess(out[i].path);
  }

  lemma {:induction false} Smallest(names: set<string>) returns (a: string)
    requires names != {}
    ensures a in names && forall b | b in names :: b == a || Order.Less(a, b)
    decreases |names|
  {
    a :| a in names;
    var rest := names - {a};
    if rest != {} {
      var c := Smallest(rest);
      Order.Trichotomy(a, c);
      if Order.Less(c, a) {
        a := c;
      } else {
        forall b | b in rest ensures Order.Less(a, b) {
          if b != c { Order.Transitive(a, c, b); }
        }
      }
    }
  }

  ghost predicate Precede(done: set<string>, todo: set<string>) {
    forall a, b | a in done && b in todo :: Order.Less(a, b)
  }

  /** The reports of such a list. */
  ghost predicate Reported(out: seq<Report>, t: Node, prefix: Path, names: set<string>) {
    exists entries :: Lists(entries, t, prefix, names) && out == Reports(entries)
  }

  /** Reports what is below a node, names in order. */
  method Result(t: Node, prefix: string, ghost at: Path) returns (out: seq<Report>)
    requires prefix == Name(at)
    ensures Reported(out, t, at, t.children.Keys)
    decreases t
  {
    hide Lists;
    out := [];
    ghost var entries: seq<Entry> := [];
    var todo := t.children.Keys;
    ghost var done: set<string> := {};
    ListsNone(t, at);
    while todo != {}
      invariant todo !! done && todo + done == t.children.Keys && Precede(done, todo)
      invariant Lists(entries, t, at, done) && out == Reports(entries)
      decreases |todo|
    {
      ghost var least := Smallest(todo);
      var a :| a in todo && forall b | b in todo :: b == a || Order.Less(a, b);
      var part := ResultOf(t, prefix, at, a);
      ghost var more :| Lists(more, t, at, {a}) && part == Reports(more);
      ListsConcat(entries, more, t, at, done, a);
      ReportsConcat(entries, more);
      out, entries := out + part, entries + more;
      todo, done := todo - {a}, done + {a};
    }
    assert done == t.children.Keys;
  }

  /** Reports a child and what is below it. */
  method ResultOf(t: Node, prefix: string, ghost at: Path, a: string) returns (out: seq<Report>)
    requires prefix == Name(at) && a in t.children
    ensures Reported(out, t, at, {a})
    decreases t, 0
  {
    hide Lists;
    var child := t.children[a];
    assert (at + [a])[..|at|] == at;
    out := [];
    ghost var entries: seq<Entry> := [];
    if child.status != NOTHING {
      out, entries := [Report("/" + Below(prefix, a), child.status)], [Entry(at + [a], child.status)];
    }
    var part := Result(child, Below(prefix, a), at + [a]);
    ghost var below :| Lists(below, child, at + [a], child.children.Keys) && part == Reports(below);
    BlockLists(t, at, a, entries, below);
    ReportsConcat(entries, below);
    out := out + part;
    assert Lists(entries + below, t, at, {a});
  }

  /**
   The reports of a whole trie are its flat map: a name leads back to a path with just that status, and every path is
   reported, under its own name if that does not begin with a slash.
   */
  lemma {:induction false} ReportsAreMap(out: seq<Report>, t: Node)
    requires Reported(out, t, [], t.children.Keys)
    ensures forall r | r in out :: exists p: Path :: p != [] && r == Report("/" + Name(p), StatusAt(t, p))
                                                     && r.status != NOTHING
    ensures forall p: Path | p != [] && p[0] != "" && StatusAt(t, p) != NOTHING ::
              Report("/" + Unsplit(p), StatusAt(t, p)) in out
  {
    var entries: seq<Entry> :| Lists(entries, t, [], t.children.Keys) && out == Reports(entries);
    forall r | r in out
      ensures exists p: Path :: p != [] && r == Report("/" + Name(p), StatusAt(t, p)) && r.status != NOTHING
    {
      var i :| 0 <= i < |out| && out[i] == r;
      assert entries[i] in entries && entries[i].path[0..] == entries[i].path;
    }
    forall p: Path | p != [] && p[0] != "" && StatusAt(t, p) != NOTHING
      ensures Report("/" + Unsplit(p), StatusAt(t, p)) in out
    {
      assert p[0] in t.children && [] + p == p;
      var i :| 0 <= i < |entries| && entries[i] == Entry(p, StatusAt(t, p));
      NameExact(p);
      assert out[i] == Report("/" + Unsplit(p), StatusAt(t, p));
    }
  }

  lemma {:induction false} ListsNone(t: Node, prefix: Path)
    ensures Lists([], t, prefix, {})
  {
  }

  lemma {:induction false} ReportsConcat(a: seq<Entry>, b: seq<Entry>)
    ensures Reports(a + b) == Reports(a) + Reports(b)
  {
  }

  lemma {:induction false} NamesInOrder(e: Entry, f: Entry, t: Node, prefix: Path, done: set<string>, a: string)
    requires Listed(e, t, prefix, done) && Listed(f, t, prefix, {a}) && forall b | b in done :: Order.Less(b, a)
    ensures PathLess(e.path, f.path)
  {
    var p, q := e.path[|prefix|..], f.path[|prefix|..];
    assert e.path == prefix + p && f.path == prefix + q;
    PathLessUnder(prefix, p, q);
  }

  lemma {:induction false} ListsConcat(out: seq<Entry>, block: seq<Entry>, t: Node, prefix: Path, done: set<string>,
                                       a: string)
    requires Lists(out, t, prefix, done) && Lists(block, t, prefix, {a}) && forall b | b in done :: Order.Less(b, a)
    ensures Lists(out + block, t, prefix, done + {a})
  {
    var all := out + block;
    hide PathLess;
    forall i, j | 0 <= i < j < |all| ensures PathLess(all[i].path, all[j].path) {
      if i < |out| <= j {
        assert all[i] in out && all[j] in block;
        NamesInOrder(all[i], all[j], t, prefix, done, a);
      } else if |out| <= i {
        assert all[i] == block[i - |out|] && all[j] == block[j - |out|];
      }
    }
  }

  lemma {:induction false} HeadListed(t: Node, prefix: Path, a: string)
    requires a in t.children && t.children[a].status != NOTHING
    ensures Listed(Entry(prefix + [a], t.children[a].status), t, prefix, {a})
  {
    var path := prefix + [a];
    assert path[|prefix|..] == [a] && path[|prefix|] == a && [a][1..] == [];
    assert Find(t, [a]) == Some(t.children[a]);
  }

  lemma {:induction false} BelowListed(e: Entry, t: Node, prefix: Path, a: string)
    requires a in t.children && Listed(e, t.children[a], prefix + [a], t.children[a].children.Keys)
    ensures Listed(e, t, prefix, {a})
  {
    var here, rel := prefix + [a], e.path[|prefix|..];
    assert e.path[|prefix|] == here[|prefix|] == a;
    assert prefix <= e.path && e.path[|here|..] == rel[1..] && rel[0] == a;
    assert Find(t, rel) == Find(t.children[a], rel[1..]);
  }

  lemma {:induction false} BlockLists(t: Node, prefix: Path, a: string, head: seq<Entry>, below: seq<Entry>)
    requires a in t.children
    requires head == if t.children[a].status == NOTHING then [] else [Entry(prefix + [a], t.children[a].status)]
    requires Lists(below, t.children[a], prefix + [a], t.children[a].children.Keys)
    ensures Lists(head + below, t, prefix, {a})
  {
    var child := t.children[a];
    hide PathLess;
    forall e | e in head + below ensures Listed(e, t, prefix, {a}) {
      if e in head { HeadListed(t, prefix, a); } else { BelowListed(e, t, prefix, a); }
    }
    forall q: Path | q != [] && q[0] in {a} && StatusAt(t, q) != NOTHING
      ensures Entry(prefix + q, StatusAt(t, q)) in head + below
    {
      BlockComplete(t, prefix, a, head, below, q);
    }
    BlockInOrder(prefix + [a], head, below);
  }

  lemma {:induction false} BlockComplete(t: Node, prefix: Path, a: string, head: seq<Entry>, below: seq<Entry>, q: Path)
    requires a in t.children
    requires head == if t.children[a].status == NOTHING then [] else [Entry(prefix + [a], t.children[a].status)]
    requires Lists(below, t.children[a], prefix + [a], t.children[a].children.Keys)
    requires q != [] && q[0] == a && StatusAt(t, q) != NOTHING
    ensures Entry(prefix + q, StatusAt(t, q)) in head + below
  {
    var child := t.children[a];
    if |q| == 1 {
      assert q == [a] && Find(child, q[1..]) == Some(child);
    } else {
      var r := q[1..];
      assert StatusAt(t, q) == StatusAt(child, r) && r[0] in child.children;
      assert prefix + q == (prefix + [a]) + r;
      assert Entry((prefix + [a]) + r, StatusAt(child, r)) in below;
    }
  }

  lemma {:induction false} BlockInOrder(prefix: Path, head: seq<Entry>, below: seq<Entry>)
    requires |head| <= 1 && forall e | e in head :: e.path == prefix
    requires InOrder(below) && forall e | e in below :: |e.path| > |prefix| && prefix <= e.path
    ensures InOrder(head + below)
  {
    var all := head + below;
    forall i, j | 0 <= i < j < |all| ensures PathLess(all[i].path, all[j].path) {
      assert all[j] == below[j - |head|] && all[j] in below;
      if i < |head| {
        assert all[i] in head;
        var r := all[j].path[|prefix|..];
        assert prefix + [] == prefix && prefix + r == all[j].path;
        PathLessUnder(prefix, [], r);
      } else {
        assert all[i] == below[i - |head|];
      }
    }
  }

  // The stream

  /** The status of a file that was deleted or changed and is created again. */
  function Recreated(s: Status): Status {
    s.(created := false, deleted := false, content := true, permissions := true, owner := true, group := true,
       xattrs := true, acl := true)
  }

  lemma {:induction false} PutStatus(t: Node, p: Path, s: Status, q: Path)
    ensures Find(Insert(t, p), p).Some?
    ensures var n := Find(Insert(t, p), p).value;
            StatusAt(Update(Insert(t, p), p, n.(status := s)), q) == if q == p then s else StatusAt(t, q)
  {
    InsertPresent(t, p);
    var n := Find(Insert(t, p), p).value;
    UpdateStatus(Insert(t, p), p, n.(status := s), q);
    InsertStatus(t, p, q);
    if p <= q {
      FindConcat(Insert(t, p), p, q[|p|..]);
      assert p + q[|p|..] == q;
      if q != p { SameChildren(n, n.(status := s), q[|p|..]); } else { assert q[|p|..] == []; }
    }
  }

  lemma {:induction false} InsertedNodeIsLean(t: Node, p: Path, s: Status)
    requires Lean(t) && p != [] && s != NOTHING
    ensures Find(Insert(t, p), p).Some?
    ensures var n := Find(Insert(t, p), p).value; Lean(Update(Insert(t, p), p, n.(status := s)))
  {
    InsertPresent(t, p);
    InsertFinds(t, p, p);
    assert p[|p|..] == [];
    var n := Find(Insert(t, p), p).value;
    if Find(t, p).Some? { LeanBelow(t, p); }
    UpdateInsertIsPut(t, p, n.(status := s));
    PutLean(t, p, n.(status := s));
  }

  lemma {:induction false} InsertThere(t: Node, p: Path)
    requires Find(t, p).Some?
    ensures Insert(t, p) == t
    decreases |p|
  {
    if p != [] {
      InsertThere(t.children[p[0]], p[1..]);
      assert t.children[p[0] := t.children[p[0]]] == t.children;
    }
  }

  class StreamProcessor {
    var files: Node

    ghost predicate Valid()
      reads this
    {
      Lean(files)
    }

    /** The path, or something below it, has been reported so far. */
    ghost predicate Touched(p: Path)
      reads this
    {
      exists q :: p <= q && StatusAt(files, q) != NOTHING
    }

    constructor ()
      ensures Valid() && forall q :: StatusAt(files, q) == NOTHING
    {
      files := EMPTY;
    }

    method Created(name: string)
      requires Valid()
      modifies this
      ensures Valid()
      ensures forall q | q != [] ::
                StatusAt(files, q) ==
                if q != Split(name) then StatusAt(old(files), q)
                else if old(Touched(Split(name))) then Recreated(StatusAt(old(files), q)) else CREATED
      ensures var s := StatusAt(files, Split(name));
        old(Touched(Split(name))) ==>
          && !s.created && !s.deleted && s.kind == StatusAt(old(files), Split(name)).kind
          && s.content && s.permissions && s.owner && s.group && s.xattrs && s.acl
    {
      var p := Split(name);
      PresentIff(files, p);
      var node := Find(files, p);
      ghost var before := files;
      InsertPresent(files, p);
      var s := if node.None? then CREATED else Recreated(node.value.status);
      if node.Some? { InsertThere(files, p); }
      InsertedNodeIsLean(files, p, s);
      forall q ensures StatusAt(Update(Insert(files, p), p, Find(Insert(files, p), p).value.(status := s)), q) ==
                       if q == p then s else StatusAt(before, q)
      {
        PutStatus(before, p, s, q);
      }
      files := Update(Insert(files, p), p, Find(Insert(files, p), p).value.(status := s));
    }

    method Deleted(name: string)
      requires Valid()
      modifies this
      ensures Valid()
      ensures forall q | q != [] ::
                StatusAt(files, q) ==
                if q != Split(name) then StatusAt(old(files), q)
                else if old(Touched(Split(name))) then NOTHING else DELETED
    {
      var p := Split(name);
      PresentIff(files, p);
      ghost var before := files;
      if Find(files, p).None? {
        InsertPresent(files, p);
        InsertedNodeIsLean(files, p, DELETED);
        var now := Update(Insert(files, p), p, Find(Insert(files, p), p).value.(status := DELETED));
        forall q ensures StatusAt(now, q) == if q == p then DELETED else StatusAt(before, q) {
          PutStatus(before, p, DELETED, q);
        }
        files := now;
      } else {
        EraseKeepsLean(files, p);
        forall q | q != [] ensures StatusAt(Erase(files, p), q) == if p == q then NOTHING else StatusAt(before, q) {
          EraseStatus(before, p, q);
        }
        files := Erase(files, p);
      }
    }

    /** A rename within the trie; it fails unless the old path is there and the new one is not. */
    method Renamed(from: string, to: string) returns (ok: bool)
      requires Valid() && (Touched(Split(from)) && !Touched(Split(to)) ==> !(Split(from) <= Split(to)))
      modifies this
      ensures Valid()
      ensures ok <==> old(Touched(Split(from))) && !old(Touched(Split(to)))
      ensures forall q | q != [] ::
                StatusAt(files, q) ==
                if !ok then StatusAt(old(files), q)
                else if Split(to) <= q then StatusAt(old(files), Split(from) + q[|Split(to)|..])
                else if Split(from) <= q then NOTHING else StatusAt(old(files), q)
    {
      var o, n := Split(from), Split(to);
      UnsplitSplit(from);
      UnsplitSplit(to);
      PresentIff(files, o);
      PresentIff(files, n);
      ghost var before := files;
      if Find(files, o).None? || Find(files, n).Some? { return false; }
      RenameLean(files, o, n);
      forall q | q != [] ensures StatusAt(Rename(files, o, n).value, q) ==
        if n <= q then StatusAt(before, o + q[|n|..]) else if o <= q then NOTHING else StatusAt(before, q)
      {
        RenameStatus(before, o, n, q);
      }
      files := Rename(files, o, n).value;
      return true;
    }
  }
}
