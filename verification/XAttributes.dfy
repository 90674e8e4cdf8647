/**
 The difference of two sets of extended attributes and its application to a file (XAModification in
 snapper/XAttributes.cc). Attributes are listed in byte order of their names, as std::map does.
 */
module XAttributes {
  import Order

  datatype Attribute = Attribute(name: string, value: string)

  /** The attributes of a file. */
  type Attributes = map<string, string>

  predicate Listed(s: seq<Attribute>, name: string) {
    exists i :: 0 <= i < |s| && s[i].name == name
  }

  ghost predicate SortedByName(s: seq<Attribute>) {
    forall i, j | 0 <= i < j < |s| :: Order.Less(s[i].name, s[j].name)
  }

  ghost predicate DistinctNames(s: seq<Attribute>) {
    forall i, j | 0 <= i < j < |s| :: s[i].name != s[j].name
  }

  /** The attributes that a list stands for. */
  ghost function MapOf(s: seq<Attribute>): Attributes {
    if s == [] then map[] else MapOf(s[..|s| - 1])[s[|s| - 1].name := s[|s| - 1].value]
  }

  lemma {:induction false} MapOfListed(s: seq<Attribute>)
    requires DistinctNames(s)
    ensures forall n :: n in MapOf(s) <==> Listed(s, n)
    ensures forall i | 0 <= i < |s| :: s[i].name in MapOf(s) && MapOf(s)[s[i].name] == s[i].value
  {
    if s != [] {
      var k := |s| - 1;
      MapOfListed(s[..k]);
      ListedNext(s, k);
      assert s[..k + 1] == s;
      forall i | 0 <= i < |s| ensures s[i].name in MapOf(s) && MapOf(s)[s[i].name] == s[i].value {
        if i < k { assert s[..k][i] == s[i]; }
      }
    }
  }

  lemma {:induction false} SortedIsDistinct(s: seq<Attribute>)
    requires SortedByName(s)
    ensures DistinctNames(s)
  {
    forall i, j | 0 <= i < j < |s| ensures s[i].name != s[j].name { Order.Trichotomy(s[i].name, s[j].name); }
  }

  // The difference

  ghost predicate DistinctStrings(s: seq<string>) {
    forall i, j | 0 <= i < j < |s| :: s[i] != s[j]
  }

  /** Missing in dest. */
  ghost predicate Creates(creates: seq<Attribute>, src: Attributes, dest: Attributes, picked: iset<string>) {
    DistinctNames(creates) &&
    forall a :: a in creates <==> a.name in picked && a.name in src && src[a.name] == a.value && a.name !in dest
  }

  /** Missing in src. */
  ghost predicate Deletes(deletes: seq<string>, src: Attributes, dest: Attributes, picked: iset<string>) {
    DistinctStrings(deletes) && forall n :: n in deletes <==> n in picked && n in dest && n !in src
  }

  /** Different in the two. */
  ghost predicate Changes(changes: seq<Attribute>, src: Attributes, dest: Attributes, picked: iset<string>) {
    DistinctNames(changes) &&
    forall a :: a in changes <==>
      && a.name in picked && a.name in src && src[a.name] == a.value
      && a.name in dest && dest[a.name] != a.value
  }

  /** The three lists hold exactly the differences in the names that are picked. */
  ghost predicate Exact(creates: seq<Attribute>, deletes: seq<string>, changes: seq<Attribute>, src: Attributes,
                        dest: Attributes, picked: iset<string>)
  {
    Creates(creates, src, dest, picked) && Deletes(deletes, src, dest, picked) && Changes(changes, src, dest, picked)
  }

  predicate Any(n: string) { true }

  ghost function EveryName(): iset<string> { iset n | Any(n) }

  lemma {:induction false} AppendDistinct(s: seq<Attribute>, a: Attribute)
    requires DistinctNames(s) && forall x | x in s :: x.name != a.name
    ensures DistinctNames(s + [a])
  {
    forall i | 0 <= i < |s| ensures s[i].name != a.name { assert s[i] in s; }
  }

  /** One more name, with the list it belongs to. */
  lemma {:induction false} Extend(creates: seq<Attribute>, deletes: seq<string>, changes: seq<Attribute>,
                                  src: Attributes, dest: Attributes, picked: iset<string>, n: string)
    requires Exact(creates, deletes, changes, src, dest, picked) && n !in picked && (n in src || n in dest)
    ensures var picked' := picked + iset{n};
            && (n in src && n !in dest ==>
                Exact(creates + [Attribute(n, src[n])], deletes, changes, src, dest, picked'))
            && (n in dest && n !in src ==> Exact(creates, deletes + [n], changes, src, dest, picked'))
            && (n in src && n in dest && src[n] != dest[n] ==>
                  Exact(creates, deletes, changes + [Attribute(n, src[n])], src, dest, picked'))
            && (n in src && n in dest && src[n] == dest[n] ==> Exact(creates, deletes, changes, src, dest, picked'))
  {
    if n in src && n !in dest { AppendDistinct(creates, Attribute(n, src[n])); }
    if n in src && n in dest && src[n] != dest[n] { AppendDistinct(changes, Attribute(n, src[n])); }
  }

  // The merge

  /** The cursors have passed exactly the names below whatever is left. */
  ghost predicate Ahead(src: seq<Attribute>, i: nat, dest: seq<Attribute>, j: nat)
    requires i <= |src| && j <= |dest|
  {
    && (forall x, y | 0 <= x < i && j <= y < |dest| :: Order.Less(src[x].name, dest[y].name))
    && (forall x, y | i <= x < |src| && 0 <= y < j :: Order.Less(dest[y].name, src[x].name))
  }

  ghost function Passed(src: seq<Attribute>, i: nat, dest: seq<Attribute>, j: nat): iset<string>
    requires i <= |src| && j <= |dest|
  {
    iset n | Listed(src[..i], n) || Listed(dest[..j], n)
  }

  lemma {:induction false} ListedNext(s: seq<Attribute>, i: nat)
    requires i < |s|
    ensures forall n :: Listed(s[..i + 1], n) <==> Listed(s[..i], n) || n == s[i].name
  {
    forall n ensures Listed(s[..i + 1], n) <==> Listed(s[..i], n) || n == s[i].name {
      if Listed(s[..i], n) {
        var k :| 0 <= k < i && s[..i][k].name == n;
        assert s[..i + 1][k].name == n;
      }
      if Listed(s[..i + 1], n) && n != s[i].name {
        var k :| 0 <= k <= i && s[..i + 1][k].name == n;
        assert s[..i][k].name == n;
      }
      assert s[..i + 1][i].name == s[i].name;
    }
  }

  /** The state of the merge. */
  ghost predicate Merging(src: seq<Attribute>, i: nat, dest: seq<Attribute>, j: nat, creates: seq<Attribute>,
                          deletes: seq<string>, changes: seq<Attribute>)
  {
    && i <= |src| && j <= |dest| && SortedByName(src) && SortedByName(dest) && Ahead(src, i, dest, j)
    && Exact(creates, deletes, changes, MapOf(src), MapOf(dest), Passed(src, i, dest, j))
  }

  lemma {:induction false} FirstIsNew(src: seq<Attribute>, i: nat, dest: seq<Attribute>, j: nat)
    requires i < |src| && j <= |dest| && SortedByName(src) && SortedByName(dest) && Ahead(src, i, dest, j)
    ensures src[i].name !in Passed(src, i, dest, j)
  {
    var n := src[i].name;
    if Listed(src[..i], n) {
      var x :| 0 <= x < i && src[..i][x].name == n;
      Order.Trichotomy(src[x].name, n);
    }
    if Listed(dest[..j], n) {
      var y :| 0 <= y < j && dest[..j][y].name == n;
      Order.Trichotomy(dest[y].name, n);
    }
  }

  lemma {:induction false} SecondIsNew(src: seq<Attribute>, i: nat, dest: seq<Attribute>, j: nat)
    requires i <= |src| && j < |dest| && SortedByName(src) && SortedByName(dest) && Ahead(src, i, dest, j)
    ensures dest[j].name !in Passed(src, i, dest, j)
  {
    var n := dest[j].name;
    if Listed(src[..i], n) {
      var x :| 0 <= x < i && src[..i][x].name == n;
      Order.Trichotomy(src[x].name, n);
    }
    if Listed(dest[..j], n) {
      var y :| 0 <= y < j && dest[..j][y].name == n;
      Order.Trichotomy(dest[y].name, n);
    }
  }

  lemma {:induction false} OnlyInFirst(src: seq<Attribute>, i: nat, dest: seq<Attribute>, j: nat)
    requires i < |src| && j <= |dest| && SortedByName(src) && SortedByName(dest) && Ahead(src, i, dest, j)
    requires j == |dest| || Order.Less(src[i].name, dest[j].name)
    ensures !Listed(dest, src[i].name) && Ahead(src, i + 1, dest, j)
  {
    forall y | j <= y < |dest| ensures Order.Less(src[i].name, dest[y].name) {
      if j < y { Order.Transitive(src[i].name, dest[j].name, dest[y].name); }
    }
    forall y | 0 <= y < |dest| ensures dest[y].name != src[i].name { Order.Trichotomy(dest[y].name, src[i].name); }
  }

  lemma {:induction false} OnlyInSecond(src: seq<Attribute>, i: nat, dest: seq<Attribute>, j: nat)
    requires i <= |src| && j < |dest| && SortedByName(src) && SortedByName(dest) && Ahead(src, i, dest, j)
    requires i == |src| || Order.Less(dest[j].name, src[i].name)
    ensures !Listed(src, dest[j].name) && Ahead(src, i, dest, j + 1)
  {
    forall x | i <= x < |src| ensures Order.Less(dest[j].name, src[x].name) {
      if i < x { Order.Transitive(dest[j].name, src[i].name, src[x].name); }
    }
    forall x | 0 <= x < |src| ensures src[x].name != dest[j].name { Order.Trichotomy(src[x].name, dest[j].name); }
  }

  lemma {:induction false} MapsOf(src: seq<Attribute>, dest: seq<Attribute>)
    requires SortedByName(src) && SortedByName(dest)
    ensures forall n :: n in MapOf(src) <==> Listed(src, n)
    ensures forall n :: n in MapOf(dest) <==> Listed(dest, n)
    ensures forall i | 0 <= i < |src| :: src[i].name in MapOf(src) && MapOf(src)[src[i].name] == src[i].value
    ensures forall i | 0 <= i < |dest| :: dest[i].name in MapOf(dest) && MapOf(dest)[dest[i].name] == dest[i].value
  {
    SortedIsDistinct(src);
    SortedIsDistinct(dest);
    MapOfListed(src);
    MapOfListed(dest);
  }

  lemma {:induction false} PassFirst(src: seq<Attribute>, i: nat, dest: seq<Attribute>, j: nat, creates: seq<Attribute>,
                                     deletes: seq<string>, changes: seq<Attribute>)
    requires Merging(src, i, dest, j, creates, deletes, changes) && i < |src|
    requires j == |dest| || Order.Less(src[i].name, dest[j].name)
    ensures Merging(src, i + 1, dest, j, creates + [src[i]], deletes, changes)
  {
    MapsOf(src, dest);
    OnlyInFirst(src, i, dest, j);
    FirstIsNew(src, i, dest, j);
    Extend(creates, deletes, changes, MapOf(src), MapOf(dest), Passed(src, i, dest, j), src[i].name);
    ListedNext(src, i);
    assert Passed(src, i + 1, dest, j) == Passed(src, i, dest, j) + iset{src[i].name};
    assert Attribute(src[i].name, MapOf(src)[src[i].name]) == src[i];
  }

  lemma {:induction false} PassSecond(src: seq<Attribute>, i: nat, dest: seq<Attribute>, j: nat,
                                      creates: seq<Attribute>, deletes: seq<string>, changes: seq<Attribute>)
    requires Merging(src, i, dest, j, creates, deletes, changes) && j < |dest|
    requires i == |src| || Order.Less(dest[j].name, src[i].name)
    ensures Merging(src, i, dest, j + 1, creates, deletes + [dest[j].name], changes)
  {
    MapsOf(src, dest);
    OnlyInSecond(src, i, dest, j);
    SecondIsNew(src, i, dest, j);
    Extend(creates, deletes, changes, MapOf(src), MapOf(dest), Passed(src, i, dest, j), dest[j].name);
    ListedNext(dest, j);
    assert Passed(src, i, dest, j + 1) == Passed(src, i, dest, j) + iset{dest[j].name};
  }

  lemma {:induction false} BothAhead(src: seq<Attribute>, i: nat, dest: seq<Attribute>, j: nat)
    requires i < |src| && j < |dest| && SortedByName(src) && SortedByName(dest) && Ahead(src, i, dest, j)
    requires src[i].name == dest[j].name
    ensures Ahead(src, i + 1, dest, j + 1)
  {
  }

  lemma {:induction false} PassBoth(src: seq<Attribute>, i: nat, dest: seq<Attribute>, j: nat, creates: seq<Attribute>,
                                    deletes: seq<string>, changes: seq<Attribute>)
    requires Merging(src, i, dest, j, creates, deletes, changes) && i < |src| && j < |dest|
    requires src[i].name == dest[j].name
    ensures Merging(src, i + 1, dest, j + 1, creates, deletes,
                    if src[i].value == dest[j].value then changes else changes + [src[i]])
  {
    MapsOf(src, dest);
    BothAhead(src, i, dest, j);
    FirstIsNew(src, i, dest, j);
    Extend(creates, deletes, changes, MapOf(src), MapOf(dest), Passed(src, i, dest, j), src[i].name);
    ListedNext(src, i);
    ListedNext(dest, j);
    assert Passed(src, i + 1, dest, j + 1) == Passed(src, i, dest, j) + iset{src[i].name};
    assert Attribute(src[i].name, MapOf(src)[src[i].name]) == src[i];
  }

  lemma {:induction false} MergeEnds(src: seq<Attribute>, dest: seq<Attribute>, creates: seq<Attribute>,
                                     deletes: seq<string>, changes: seq<Attribute>)
    requires Merging(src, |src|, dest, |dest|, creates, deletes, changes)
    ensures Exact(creates, deletes, changes, MapOf(src), MapOf(dest), EveryName())
  {
    MapsOf(src, dest);
    assert src[..|src|] == src && dest[..|dest|] == dest;
  }

  lemma {:induction false} MergeBegins(src: seq<Attribute>, dest: seq<Attribute>)
    requires SortedByName(src) && SortedByName(dest)
    ensures Merging(src, 0, dest, 0, [], [], [])
  {
  }

  /** The loop over both lists. */
  method MergeCommon(src: seq<Attribute>, dest: seq<Attribute>)
    returns (i: nat, j: nat, creates: seq<Attribute>, deletes: seq<string>, changes: seq<Attribute>)
    requires SortedByName(src) && SortedByName(dest)
    ensures i <= |src| && j <= |dest| && (i == |src| || j == |dest|)
    ensures Merging(src, i, dest, j, creates, deletes, changes)
  {
    hide Merging;
    i, j, creates, deletes, changes := 0, 0, [], [], [];
    MergeBegins(src, dest);
    while i < |src| && j < |dest|
      invariant i <= |src| && j <= |dest| && Merging(src, i, dest, j, creates, deletes, changes)
      decreases |src| - i + |dest| - j
    {
      Order.Trichotomy(src[i].name, dest[j].name);
      if src[i].name == dest[j].name {
        PassBoth(src, i, dest, j, creates, deletes, changes);
        if src[i].value != dest[j].value { changes := changes + [src[i]]; }
        i, j := i + 1, j + 1;
      } else if Order.Less(src[i].name, dest[j].name) {
        PassFirst(src, i, dest, j, creates, deletes, changes);
        creates, i := creates + [src[i]], i + 1;
      } else {
        PassSecond(src, i, dest, j, creates, deletes, changes);
        deletes, j := deletes + [dest[j].name], j + 1;
      }
    }
  }

  /** The loop over what is left of the second list. */
  method MergeSecond(src: seq<Attribute>, i: nat, dest: seq<Attribute>, j0: nat, creates: seq<Attribute>,
                     deletes: seq<string>, changes: seq<Attribute>)
    returns (r: seq<string>)
    requires i <= |src| && j0 <= |dest| && (i == |src| || j0 == |dest|)
    requires Merging(src, i, dest, j0, creates, deletes, changes)
    ensures Merging(src, i, dest, |dest|, creates, r, changes)
  {
    hide Merging;
    r := deletes;
    for j := j0 to |dest|
      invariant Merging(src, i, dest, j, creates, r, changes)
    {
      PassSecond(src, i, dest, j, creates, r, changes);
      r := r + [dest[j].name];
    }
  }

  /** The loop over what is left of the first list. */
  method MergeFirst(src: seq<Attribute>, i0: nat, dest: seq<Attribute>, creates: seq<Attribute>, deletes: seq<string>,
                    changes: seq<Attribute>)
    returns (r: seq<Attribute>)
    requires i0 <= |src| && Merging(src, i0, dest, |dest|, creates, deletes, changes)
    ensures Merging(src, |src|, dest, |dest|, r, deletes, changes)
  {
    hide Merging;
    r := creates;
    for i := i0 to |src|
      invariant Merging(src, i, dest, |dest|, r, deletes, changes)
    {
      PassFirst(src, i, dest, |dest|, r, deletes, changes);
      r := r + [src[i]];
    }
  }

  class XAModification {
    var creates: seq<Attribute>
    var deletes: seq<string>
    var changes: seq<Attribute>

    /** The lists hold exactly the differences in the picked names. */
    ghost predicate Differences(src: Attributes, dest: Attributes, picked: iset<string>)
      reads this
    {
      Exact(creates, deletes, changes, src, dest, picked)
    }

    /** No name is twice in a list. */
    ghost predicate Distinct()
      reads this
    {
      DistinctNames(creates) && DistinctStrings(deletes) && DistinctNames(changes)
    }

    constructor (src: seq<Attribute>, dest: seq<Attribute>)
      requires SortedByName(src) && SortedByName(dest)
      ensures Distinct() && Differences(MapOf(src), MapOf(dest), EveryName())
    {
      var i, j, cs, ds, rs := MergeCommon(src, dest);
      ds := MergeSecond(src, i, dest, j, cs, ds, rs);
      cs := MergeFirst(src, i, dest, cs, ds, rs);
      MergeEnds(src, dest, cs, ds, rs);
      creates, deletes, changes := cs, ds, rs;
    }

    /** Takes the access control lists out of all three lists. */
    method FilterOutAcls(acls: seq<string>, ghost src: Attributes, ghost dest: Attributes)
      requires Distinct()
      modifies this
      ensures Distinct()
      ensures old(Differences(src, dest, EveryName())) ==> Differences(src, dest, iset n | n !in acls)
    {
      var cs := RemoveAttributes(creates, acls);
      var ds := RemoveNames(deletes, acls);
      var rs := RemoveAttributes(changes, acls);
      if Differences(src, dest, EveryName()) { FilteredExact(creates, deletes, changes, cs, ds, rs, src, dest, acls); }
      creates, deletes, changes := cs, ds, rs;
    }

    /**
     Applies the lists to a file: creates, then deletes, then replaces; stops at the first refusal. On a file with
     the attributes that the difference was made for, nothing is refused.
     */
    method SerializeTo(live: Attributes, ghost src: Attributes, ghost picked: iset<string>)
      returns (ok: bool, now: Attributes)
      ensures Differences(src, live, picked) ==> ok && now == Patched(src, live, picked)
      ensures Differences(src, live, picked) ==> forall n ::
                && (n in picked ==> (n in now <==> n in src) && (n in now ==> now[n] == src[n]))
                && (n !in picked ==> (n in now <==> n in live) && (n in now ==> now[n] == live[n]))
    {
      if Differences(src, live, picked) { InOrder(creates, deletes, changes, src, live, picked); }
      ok, now := CreateAll(live, creates);
      if !ok { return; }
      ok, now := DeleteAll(now, deletes);
      if !ok { return; }
      ok, now := ReplaceAll(now, changes);
    }
  }

  // Filtering

  method RemoveAttributes(s: seq<Attribute>, names: seq<string>) returns (r: seq<Attribute>)
    requires DistinctNames(s)
    ensures DistinctNames(r) && forall a :: a in r <==> a in s && a.name !in names
  {
    r := [];
    for i := 0 to |s|
      invariant DistinctNames(r) && forall a :: a in r <==> a in s[..i] && a.name !in names
    {
      assert s[..i + 1] == s[..i] + [s[i]];
      if s[i].name !in names {
        forall a | a in r ensures a.name != s[i].name { var k :| 0 <= k < i && s[..i][k] == a; }
        AppendDistinct(r, s[i]);
        r := r + [s[i]];
      }
    }
    assert s[..|s|] == s;
  }

  method RemoveNames(s: seq<string>, names: seq<string>) returns (r: seq<string>)
    requires DistinctStrings(s)
    ensures DistinctStrings(r) && forall n :: n in r <==> n in s && n !in names
  {
    r := [];
    for i := 0 to |s|
      invariant DistinctStrings(r) && forall n :: n in r <==> n in s[..i] && n !in names
    {
      assert s[..i + 1] == s[..i] + [s[i]];
      if s[i] !in names {
        assert s[i] !in s[..i];
        r := r + [s[i]];
      }
    }
    assert s[..|s|] == s;
  }

  lemma {:induction false} FilteredExact(creates: seq<Attribute>, deletes: seq<string>, changes: seq<Attribute>,
                                         cs: seq<Attribute>, ds: seq<string>, rs: seq<Attribute>, src: Attributes,
                                         dest: Attributes, acls: seq<string>)
    requires Exact(creates, deletes, changes, src, dest, EveryName())
    requires DistinctNames(cs) && DistinctStrings(ds) && DistinctNames(rs)
    requires forall a :: a in cs <==> a in creates && a.name !in acls
    requires forall n :: n in ds <==> n in deletes && n !in acls
    requires forall a :: a in rs <==> a in changes && a.name !in acls
    ensures Exact(cs, ds, rs, src, dest, iset n | n !in acls)
  {
    assert forall n :: n in EveryName() <==> Any(n);
  }

  // Application

  /** lsetxattr with XATTR_CREATE. */
  method CreateAll(live: Attributes, creates: seq<Attribute>) returns (ok: bool, now: Attributes)
    ensures DistinctNames(creates) && (forall a | a in creates :: a.name !in live) ==>
            ok && now == live + MapOf(creates)
  {
    now := live;
    for k := 0 to |creates|
      invariant DistinctNames(creates) && (forall a | a in creates :: a.name !in live) ==>
                now == live + MapOf(creates[..k])
    {
      if DistinctNames(creates) { NextIsNew(creates, k); }
      assert creates[k] in creates;
      if creates[k].name in now { return false, now; }
      now := now[creates[k].name := creates[k].value];
      MapOfNext(creates, k);
    }
    assert creates[..|creates|] == creates;
    return true, now;
  }

  lemma {:induction false} NextIsNew(s: seq<Attribute>, k: nat)
    requires DistinctNames(s) && k < |s|
    ensures s[k].name !in MapOf(s[..k])
  {
    MapOfListed(s[..k]);
  }

  lemma {:induction false} MapOfNext(s: seq<Attribute>, k: nat)
    requires k < |s|
    ensures MapOf(s[..k + 1]) == MapOf(s[..k])[s[k].name := s[k].value]
  {
    assert s[..k + 1][..k] == s[..k];
  }

  /** lremovexattr. */
  method DeleteAll(live: Attributes, deletes: seq<string>) returns (ok: bool, now: Attributes)
    ensures DistinctStrings(deletes) && (forall n | n in deletes :: n in live) ==>
              ok && now == live - set n | n in deletes
  {
    now := live;
    for k := 0 to |deletes|
      invariant now == live - set n | n in deletes[..k]
    {
      assert deletes[k] in deletes && deletes[..k + 1] == deletes[..k] + [deletes[k]];
      if deletes[k] !in now { return false, now; }
      now := now - {deletes[k]};
    }
    assert deletes[..|deletes|] == deletes;
    return true, now;
  }

  /** lsetxattr with XATTR_REPLACE. */
  method ReplaceAll(live: Attributes, changes: seq<Attribute>) returns (ok: bool, now: Attributes)
    ensures (forall a | a in changes :: a.name in live) ==> ok && now == live + MapOf(changes)
  {
    now := live;
    for k := 0 to |changes|
      invariant now == live + MapOf(changes[..k])
    {
      assert changes[k] in changes;
      if changes[k].name !in now { return false, now; }
      now := now[changes[k].name := changes[k].value];
      MapOfNext(changes, k);
    }
    assert changes[..|changes|] == changes;
    return true, now;
  }

  /** src in the picked names, dest in the others. */
  ghost function Patched(src: Attributes, dest: Attributes, picked: iset<string>): Attributes {
    map n | n in src.Keys + dest.Keys && (if n in picked then n in src else n in dest) ::
      if n in picked then src[n] else dest[n]
  }

  lemma {:induction false} MapOfElements(s: seq<Attribute>)
    requires DistinctNames(s)
    ensures forall n :: n in MapOf(s) ==> Attribute(n, MapOf(s)[n]) in s
    ensures forall a | a in s :: a.name in MapOf(s) && MapOf(s)[a.name] == a.value
  {
    MapOfListed(s);
    forall n | n in MapOf(s) ensures Attribute(n, MapOf(s)[n]) in s {
      var i :| 0 <= i < |s| && s[i].name == n;
      assert s[i] == Attribute(n, MapOf(s)[n]);
    }
  }

  /** Each step finds what it needs, and the three together make the file like src in the picked names. */
  lemma {:induction false} InOrder(creates: seq<Attribute>, deletes: seq<string>, changes: seq<Attribute>,
                                   src: Attributes, dest: Attributes, picked: iset<string>)
    requires Exact(creates, deletes, changes, src, dest, picked)
    ensures DistinctNames(creates) && forall a | a in creates :: a.name !in dest
    ensures DistinctStrings(deletes) && forall n | n in deletes :: n in dest + MapOf(creates)
    ensures forall a | a in changes :: a.name in dest + MapOf(creates) - set n | n in deletes
    ensures dest + MapOf(creates) - (set n | n in deletes) + MapOf(changes) == Patched(src, dest, picked)
  {
    StepsFind(creates, deletes, changes, src, dest, picked);
    var r := dest + MapOf(creates) - (set n | n in deletes) + MapOf(changes);
    var p := Patched(src, dest, picked);
    forall n ensures n in r <==> n in p { PatchedIn(creates, deletes, changes, src, dest, picked, n); }
    forall n | n in r ensures r[n] == p[n] { PatchedAt(creates, deletes, changes, src, dest, picked, n); }
    SameMap(r, p);
  }

  lemma {:induction false} SameMap(a: Attributes, b: Attributes)
    requires (forall n :: n in a <==> n in b) && forall n | n in a :: a[n] == b[n]
    ensures a == b
  {
  }

  lemma {:induction false} StepsFind(creates: seq<Attribute>, deletes: seq<string>, changes: seq<Attribute>,
                                     src: Attributes, dest: Attributes, picked: iset<string>)
    requires Exact(creates, deletes, changes, src, dest, picked)
    ensures DistinctNames(creates) && forall a | a in creates :: a.name !in dest
    ensures DistinctStrings(deletes) && forall n | n in deletes :: n in dest + MapOf(creates)
    ensures forall a | a in changes :: a.name in dest + MapOf(creates) - set n | n in deletes
  {
  }

  lemma {:induction false} PatchedIn(creates: seq<Attribute>, deletes: seq<string>, changes: seq<Attribute>,
                                     src: Attributes, dest: Attributes, picked: iset<string>, n: string)
    requires Exact(creates, deletes, changes, src, dest, picked)
    ensures n in dest + MapOf(creates) - (set x | x in deletes) + MapOf(changes) <==> n in Patched(src, dest, picked)
  {
    MapOfElements(creates);
    MapOfElements(changes);
    assert n in picked && n in src && n !in dest ==> Attribute(n, src[n]) in creates;
    assert n in MapOf(creates) ==> Attribute(n, MapOf(creates)[n]) in creates;
    assert n in MapOf(changes) ==> Attribute(n, MapOf(changes)[n]) in changes;
  }

  lemma {:induction false} PatchedAt(creates: seq<Attribute>, deletes: seq<string>, changes: seq<Attribute>,
                                     src: Attributes, dest: Attributes, picked: iset<string>, n: string)
    requires Exact(creates, deletes, changes, src, dest, picked)
    requires n in dest + MapOf(creates) - (set x | x in deletes) + MapOf(changes)
    ensures n in Patched(src, dest, picked)
    ensures (dest + MapOf(creates) - (set x | x in deletes) + MapOf(changes))[n] == Patched(src, dest, picked)[n]
  {
    MapOfElements(creates);
    MapOfElements(changes);
    assert n in picked && n in src && n in dest && src[n] != dest[n] ==> Attribute(n, src[n]) in changes;
    if n in MapOf(changes) {
      assert Attribute(n, MapOf(changes)[n]) in changes;
    } else if n in MapOf(creates) {
      assert Attribute(n, MapOf(creates)[n]) in creates;
    }
  }

  // The undo of attributes

  /**
   Gives a file the attributes of the snapshot (File::modifyXattributes): no call is refused, the access control lists
   stay as they are, and all other attributes are those of the snapshot.
   */
  method ModifyXattributes(src: seq<Attribute>, dest: seq<Attribute>, acls: seq<string>)
    returns (ok: bool, now: Attributes)
    requires SortedByName(src) && SortedByName(dest)
    ensures ok
    ensures forall n | n !in acls :: n in now <==> Listed(src, n)
    ensures forall a | a in src && a.name !in acls :: a.name in now && now[a.name] == a.value
    ensures forall n | n in acls :: n in now <==> Listed(dest, n)
    ensures forall a | a in dest && a.name in acls :: a.name in now && now[a.name] == a.value
  {
    hide SortedByName, Patched, Exact;
    var modification := new XAModification(src, dest);
    modification.FilterOutAcls(acls, MapOf(src), MapOf(dest));
    var live := FileOf(dest);
    ok, now := modification.SerializeTo(live, MapOf(src), iset n | n !in acls);
    SortedIsDistinct(src);
    SortedIsDistinct(dest);
    MapOfListed(src);
    MapOfListed(dest);
    MapOfElements(src);
    MapOfElements(dest);
  }

  /** The attributes of a file from their list. */
  method FileOf(s: seq<Attribute>) returns (live: Attributes)
    ensures live == MapOf(s)
  {
    live := map[];
    for k := 0 to |s|
      invariant live == MapOf(s[..k])
    {
      MapOfNext(s, k);
      live := live[s[k].name := s[k].value];
    }
    assert s[..|s|] == s;
  }
}
