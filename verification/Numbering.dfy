/**
 The list of snapshots of a config and the numbered directories behind it (snapper/Snapshot.cc): the choice of
 numbers, creation with its failures, deletion, pairing, and reading the list back from disk.
 */
module Numbering {
  import opened Wrappers
  import opened SnapshotList

  /** The current system, which every list starts with. */
  const CURRENT := Snapshot(Single, 0, 0, 0, "", map[])

  /** How far a creation gets. */
  datatype Outcome = Fine | NoDirectory | NoFilesystemSnapshot | NoInfo

  function Find(s: seq<Snapshot>, num: nat): (r: Option<Snapshot>)
    ensures r.Some? ==> r.value in s && r.value.num == num
    ensures r.None? ==> forall x | x in s :: x.num != num
  {
    if s == [] then None else if s[0].num == num then Some(s[0]) else Find(s[1..], num)
  }

  /** The highest of a number and the numbers of all directories. */
  method Highest(least: nat, dirs: set<nat>) returns (num: nat)
    ensures num >= least && (forall d | d in dirs :: d <= num) && (num == least || num in dirs)
  {
    num := least;
    var todo := dirs;
    while todo != {}
      invariant todo <= dirs && num >= least && (num == least || num in dirs)
      invariant forall d | d in dirs && d !in todo :: d <= num
      decreases |todo|
    {
      var d :| d in todo;
      if d > num { num := d; }
      todo := todo - {d};
    }
  }

  /** The first number above another that neither a snapshot of the file system nor a directory has. */
  method FreeNumber(above: nat, volumes: set<nat>, dirs: set<nat>) returns (num: nat)
    ensures num > above && num !in volumes && num !in dirs
    ensures forall k | above < k < num :: k in volumes || k in dirs
  {
    num := above + 1;
    while num in volumes || num in dirs
      invariant num > above && forall k | above < k < num :: k in volumes || k in dirs
      decreases |set k | k in volumes + dirs && k >= num|
    {
      ghost var f, g := (set k | k in volumes + dirs && k >= num), (set k | k in volumes + dirs && k >= num + 1);
      assert f == g + {num};
      num := num + 1;
    }
  }

  /** Removes the directories that belong to no snapshot, as far as they are empty. */
  method RemoveStale(entries: seq<Snapshot>, nums: set<nat>, occupied: set<nat>, dirs: set<nat>)
    returns (left: set<nat>)
    ensures forall d :: d in left <==> d in dirs && (d !in nums || Find(entries, d).Some? || d in occupied)
  {
    left := dirs;
    var todo := nums;
    while todo != {}
      invariant todo <= nums
      invariant forall d :: d in left <==>
                d in dirs && (d !in nums || d in todo || Find(entries, d).Some? || d in occupied)
      decreases |todo|
    {
      var d :| d in todo;
      if Find(entries, d).None? && d !in occupied { left := left - {d}; }
      todo := todo - {d};
    }
  }

  // The store as a value

  /** The list, the numbered directories, the info files in them, and all numbers that were ever given. */
  datatype Store = Store(entries: seq<Snapshot>, dirs: set<nat>, infos: map<nat, Snapshot>, ever: set<nat>)

  const START := Store([CURRENT], {}, map[], {})

  /** The list and the disk agree, and every number in use was given here. */
  ghost predicate Consistent(t: Store) {
    && t.entries != [] && t.entries[0] == CURRENT && Ascending(t.entries) && OnePost(t.entries)
    && t.infos.Keys <= t.dirs <= t.ever && 0 !in t.ever
    && (forall x | x in t.entries && x.num > 0 :: x.num in t.infos)
    && (forall n | n in t.infos :: t.infos[n] in t.entries && t.infos[n].num == n)
  }

  ghost predicate Tops(h: nat, ever: set<nat>) {
    forall n | n in ever :: n <= h
  }

  /** The highest number ever given still has a directory. */
  ghost predicate Remembers(t: Store) {
    t.ever == {} || exists d :: d in t.dirs && Tops(d, t.ever)
  }

  /** The highest number ever given is still in the list. */
  ghost predicate ListsHighest(t: Store) {
    t.ever == {} || exists x :: x in t.entries && Tops(x.num, t.ever)
  }

  /** The highest of a number and the members of a set. */
  ghost function Top(least: nat, dirs: set<nat>): (h: nat)
    ensures h >= least && (forall d | d in dirs :: d <= h) && (h == least || h in dirs)
    decreases |dirs|
  {
    if dirs == {} then least
    else
      var d :| d in dirs;
      assert dirs == (dirs - {d}) + {d};
      var h := Top(least, dirs - {d});
      if d > h then d else h
  }

  function LastNum(entries: seq<Snapshot>): nat {
    if entries == [] then 0 else entries[|entries| - 1].num
  }

  /** The number that the next creation gets. */
  ghost function NextNum(t: Store): nat {
    Top(LastNum(t.entries), t.dirs) + 1
  }

  /** A creation, as far as it gets. A failure after the directory was made leaves only directories of entries. */
  ghost function CreateStep(t: Store, x: Snapshot, outcome: Outcome): Store {
    match outcome
    case Fine =>
      var y := x.(num := NextNum(t));
      Store(t.entries + [y], t.infos.Keys + {y.num}, t.infos[y.num := y], t.ever + {y.num})
    case NoDirectory => t
    case _ => t.(dirs := t.infos.Keys)
  }

  /** There is a pre snapshot of that number, and it has no post snapshot yet. */
  predicate CanPost(entries: seq<Snapshot>, preNum: nat) {
    && Find(entries, preNum).Some? && Find(entries, preNum).value.kind == Pre && FindPost(entries, preNum).None?
  }

  lemma {:induction false} CanPostIff(t: Store, preNum: nat)
    requires Consistent(t)
    ensures CanPost(t.entries, preNum) <==>
      && (exists y :: y in t.entries && y.num == preNum && y.kind == Pre)
      && forall y | y in t.entries && y.kind == Post :: y.preNum != preNum
  {
    FindPostIs(t.entries, preNum);
    if y :| y in t.entries && y.num == preNum && y.kind == Pre {
      SameNumber(t.entries, y, Find(t.entries, preNum).value);
    }
  }

  predicate CanDelete(entries: seq<Snapshot>, num: nat, undeletable: bool) {
    num > 0 && Find(entries, num).Some? && !undeletable
  }

  ghost function DeleteStep(t: Store, unique: bool, num: nat): Store {
    var dirs := if unique && num == LastNum(t.entries) then t.dirs else t.dirs - {num};
    Store(Without(t.entries, {num}), dirs, t.infos - {num}, t.ever)
  }

  lemma {:induction false} LastIsHighest(entries: seq<Snapshot>, x: Snapshot)
    requires Ascending(entries) && x in entries
    ensures x.num <= LastNum(entries)
  {
    var i :| 0 <= i < |entries| && entries[i] == x;
    assert entries[i].num <= entries[|entries| - 1].num;
  }

  /** What is in sight when a number is chosen. */
  lemma {:induction false} InSight(t: Store)
    requires Consistent(t)
    ensures forall x | x in t.entries :: x.num < NextNum(t)
    ensures t.infos.Keys <= t.dirs && forall d | d in t.dirs :: Find(t.entries, d).Some? <==> d in t.infos
  {
    forall x | x in t.entries ensures x.num < NextNum(t) { LastIsHighest(t.entries, x); }
  }

  /** The next number is one above the highest in sight. */
  lemma {:induction false} NextInSight(t: Store)
    requires Consistent(t)
    ensures forall x | x in t.entries :: x.num < NextNum(t)
    ensures forall d | d in t.dirs :: d < NextNum(t)
    ensures NextNum(t) > 0 && (NextNum(t) - 1 in t.dirs || exists x :: x in t.entries && x.num == NextNum(t) - 1)
  {
    InSight(t);
    assert t.entries[|t.entries| - 1] in t.entries;
  }

  lemma {:induction false} CreateConsistent(t: Store, x: Snapshot, outcome: Outcome)
    requires Consistent(t) && (x.kind == Post ==> FindPost(t.entries, x.preNum).None?)
    ensures Consistent(CreateStep(t, x, outcome))
  {
    if outcome == Fine {
      InSight(t);
      AppendKeeps(t.entries, x.(num := NextNum(t)));
    }
  }

  lemma {:induction false} DeleteConsistent(t: Store, unique: bool, num: nat)
    requires Consistent(t) && num in t.infos
    ensures Consistent(DeleteStep(t, unique, num))
  {
    var r := DeleteStep(t, unique, num);
    WithoutElements(t.entries, {num});
    WithoutAscending(t.entries, {num});
    WithoutKeepsFirst(t.entries, {num});
    OnePostOfPart(t.entries, r.entries);
    forall n | n in r.infos ensures r.infos[n] in r.entries && r.infos[n].num == n { assert r.infos[n] == t.infos[n]; }
  }

  lemma {:induction false} EntryIff(t: Store, x: Snapshot)
    requires Consistent(t)
    ensures x in t.entries <==> x == CURRENT || (x.num in t.infos && t.infos[x.num] == x)
  {
    assert t.entries[0] in t.entries;
    if x in t.entries {
      if x.num == 0 { SameNumber(t.entries, x, CURRENT); } else { SameNumber(t.entries, x, t.infos[x.num]); }
    }
  }

  lemma {:induction false} FoundHasInfo(t: Store, num: nat)
    requires Consistent(t) && num > 0
    ensures Find(t.entries, num).Some? <==> num in t.infos
  {
  }

  // Memory of the highest number

  /** The next number is above all earlier ones exactly if the highest of them still has a directory. */
  lemma {:induction false} AboveAll(t: Store)
    requires Consistent(t)
    ensures Remembers(t) <==> forall n | n in t.ever :: n < NextNum(t)
  {
    if Remembers(t) {
      forall n | n in t.ever ensures n < NextNum(t) {
        var d :| d in t.dirs && Tops(d, t.ever);
      }
    } else if forall n | n in t.ever :: n < NextNum(t) {
      var last := t.entries[|t.entries| - 1];
      assert last in t.entries;
      var n :| n in t.ever;
      assert Tops(NextNum(t) - 1, t.ever);
    }
  }

  lemma {:induction false} CreateRemembers(t: Store, x: Snapshot)
    requires Consistent(t) && Remembers(t)
    ensures Remembers(CreateStep(t, x, Fine))
  {
    var r := CreateStep(t, x, Fine);
    AboveAll(t);
    assert NextNum(t) in r.dirs && Tops(NextNum(t), r.ever);
  }

  /** After a failure half-way the highest number is remembered exactly if it is listed. */
  lemma {:induction false} OnlyListedLeft(t: Store)
    requires Consistent(t)
    ensures Remembers(t.(dirs := t.infos.Keys)) <==> ListsHighest(t)
  {
    if t.ever != {} && Remembers(t.(dirs := t.infos.Keys)) {
      var d :| d in t.infos.Keys && Tops(d, t.ever);
      assert t.infos[d] in t.entries && Tops(t.infos[d].num, t.ever);
    }
    if t.ever != {} && ListsHighest(t) {
      var x :| x in t.entries && Tops(x.num, t.ever);
      var n :| n in t.ever;
      assert x.num in t.infos.Keys;
    }
  }

  lemma {:induction false} ListsTheSame(t: Store, r: Store)
    requires r.entries == t.entries && r.ever == t.ever
    ensures ListsHighest(r) <==> ListsHighest(t)
  {
  }

  /** A deletion forgets the highest number only if it deletes just that one and need not keep its directory. */
  lemma {:induction false} DeleteRemembers(t: Store, unique: bool, num: nat)
    requires Consistent(t) && num in t.infos && Remembers(t)
    ensures Remembers(DeleteStep(t, unique, num)) <==> unique || !Tops(num, t.ever)
  {
    var last, r := t.entries[|t.entries| - 1], DeleteStep(t, unique, num);
    assert last in t.entries && t.infos[num] in t.entries && num in t.ever && last.num in t.ever;
    LastIsHighest(t.entries, t.infos[num]);
    var d :| d in t.dirs && Tops(d, t.ever);
    assert d == num ==> num == last.num;
    if d in r.dirs { assert Tops(d, r.ever); }
  }

  lemma {:induction false} KeysOf(m: map<nat, Snapshot>, n: nat, x: Snapshot)
    ensures (m - {n}).Keys == m.Keys - {n} && m[n := x].Keys == m.Keys + {n}
  {
  }

  /** The entry, the info file and, unless it is kept for its number, the directory go, and nothing else. */
  lemma {:induction false} DeletedExactly(t: Store, unique: bool, num: nat)
    requires Consistent(t) && num in t.infos
    ensures var r := DeleteStep(t, unique, num);
      && (forall x :: x in r.entries <==> x in t.entries && x.num != num)
      && r.infos == t.infos - {num} && r.infos.Keys == t.infos.Keys - {num}
      && (num in r.dirs <==> unique && forall x | x in t.entries :: x.num <= num)
      && (forall d | d != num :: d in r.dirs <==> d in t.dirs)
  {
    WithoutElements(t.entries, {num});
    assert t.infos[num] in t.entries && t.entries[|t.entries| - 1] in t.entries;
    forall x | x in t.entries ensures x.num <= LastNum(t.entries) { LastIsHighest(t.entries, x); }
  }

  class Snapshots {
    const uniqueNumbers: bool
    var entries: seq<Snapshot>
    /** The numbered directories. */
    var dirs: set<nat>
    /** Those with an info file, and what it says. */
    var infos: map<nat, Snapshot>
    /** Those with a snapshot of the file system. */
    var volumes: set<nat>
    /** All numbers that were ever given. */
    ghost var ever: set<nat>

    ghost function State(): Store
      reads this
    {
      Store(entries, dirs, infos, ever)
    }

    ghost predicate Valid()
      reads this
    {
      volumes == infos.Keys && Consistent(State())
    }

    ghost predicate Remembered()
      reads this
    {
      Remembers(State())
    }

    ghost predicate HighestListed()
      reads this
    {
      ListsHighest(State())
    }

    constructor (uniqueNumbers: bool)
      ensures Valid() && Remembered() && State() == START && this.uniqueNumbers == uniqueNumbers
    {
      this.uniqueNumbers := uniqueNumbers;
      entries, dirs, infos, volumes := [CURRENT], {}, map[], {};
      ever := {};
    }

    /** Above every number in sight; afterwards empty directories that belong to no snapshot are removed. */
    method NextNumber() returns (num: nat)
      requires Valid()
      modifies this`dirs
      ensures num == NextNum(old(State())) && dirs == infos.Keys + {num}
      ensures num !in volumes && (forall d | d in old(dirs) :: d < num) && (forall x | x in entries :: x.num < num)
    {
      hide Consistent;
      InSight(State());
      num := Highest(LastNum(entries), dirs);
      assert num + 1 !in volumes && num + 1 !in dirs;
      num := FreeNumber(num, volumes, dirs);
      var nums := dirs;
      dirs := dirs + {num};
      dirs := RemoveStale(entries, nums, infos.Keys + volumes, dirs);
    }

    /** The new number, the file system snapshot, the info file and the entry; failures are cleaned up after. */
    method Create(x: Snapshot, outcome: Outcome) returns (r: Option<nat>)
      requires Valid() && (x.kind == Post ==> FindPost(entries, x.preNum).None?)
      modifies this
      ensures Valid() && State() == CreateStep(old(State()), x, outcome)
      ensures r == if outcome == Fine then Some(NextNum(old(State()))) else None
      ensures r.Some? ==> (forall y | y in old(entries) :: y.num < r.value) && forall d | d in old(dirs) :: d < r.value
      ensures r.Some? ==> r.value - 1 in old(dirs) || exists y :: y in old(entries) && y.num == r.value - 1
      ensures r.Some? ==> entries == old(entries) + [x.(num := r.value)]
      ensures r.Some? ==> infos == old(infos)[r.value := x.(num := r.value)] && dirs == infos.Keys
      ensures r.None? ==> entries == old(entries) && infos == old(infos)
      ensures r.None? ==> dirs == if outcome == NoDirectory then old(dirs) else infos.Keys
      ensures r.Some? ==> (old(Remembered()) <==> forall n | n in old(ever) :: n < r.value)
      ensures r.Some? && old(Remembered()) ==> Remembered()
      ensures outcome == NoFilesystemSnapshot || outcome == NoInfo ==> (Remembered() <==> HighestListed())
    {
      hide Consistent, Remembers, ListsHighest, NextNum;
      ghost var was := State();
      CreateConsistent(was, x, outcome);
      CreationRemembers(was, x, outcome);
      AboveAll(was);
      NextInSight(was);
      KeysOf(infos, NextNum(was), x);
      if outcome == NoDirectory { return None; }
      var num := NextNumber();
      if outcome == NoFilesystemSnapshot || outcome == NoInfo {
        dirs := dirs - {num};
        ListsTheSame(was, State());
        return None;
      }
      Enter(x.(num := num));
      return Some(num);
    }

    /** The file system snapshot, the info file and the entry. */
    method Enter(x: Snapshot)
      requires volumes == infos.Keys && dirs == infos.Keys + {x.num}
      modifies this
      ensures volumes == infos.Keys && dirs == old(dirs) && ever == old(ever) + {x.num}
      ensures entries == old(entries) + [x] && infos == old(infos)[x.num := x]
    {
      KeysOf(infos, x.num, x);
      volumes, infos, entries := volumes + {x.num}, infos[x.num := x], entries + [x];
      ever := ever + {x.num};
    }

    /** A post snapshot needs a pre snapshot that has none yet. */
    method CreatePost(preNum: nat, x: Snapshot, outcome: Outcome) returns (r: Result<Option<nat>>)
      requires Valid()
      modifies this
      ensures Valid() && (r.Err? <==> !CanPost(old(entries), preNum))
      ensures r.Ok? <==> && (exists y :: y in old(entries) && y.num == preNum && y.kind == Pre)
                         && forall y | y in old(entries) && y.kind == Post :: y.preNum != preNum
      ensures State() == if r.Err? then old(State())
                         else CreateStep(old(State()), x.(kind := Post, preNum := preNum), outcome)
      ensures r.Ok? ==> r.value == if outcome == Fine then Some(NextNum(old(State()))) else None
      ensures r.Ok? && r.value.Some? ==> (old(Remembered()) <==> forall n | n in old(ever) :: n < r.value.value)
      ensures r.Ok? && r.value.Some? && old(Remembered()) ==> Remembered()
      ensures r.Ok? && (outcome == NoFilesystemSnapshot || outcome == NoInfo) ==> (Remembered() <==> HighestListed())
    {
      hide Consistent, Remembers, ListsHighest, CreateStep;
      CanPostIff(State(), preNum);
      var pre := Find(entries, preNum);
      if pre.None? || pre.value.kind != Pre || FindPost(entries, preNum).Some? { return Err; }
      var num := Create(x.(kind := Post, preNum := preNum), outcome);
      return Ok(num);
    }

    /** The directory of the highest number is kept if numbers are to be unique. */
    method Delete(num: nat, undeletable: bool) returns (ok: bool)
      requires Valid()
      modifies this
      ensures Valid() && (ok <==> CanDelete(old(entries), num, undeletable))
      ensures State() == if ok then DeleteStep(old(State()), uniqueNumbers, num) else old(State())
      ensures ok ==> forall x :: x in entries <==> x in old(entries) && x.num != num
      ensures ok ==> infos == old(infos) - {num} && num !in volumes && forall n | n != num ::
                n in volumes <==> n in old(volumes)
      ensures ok ==> (num in dirs <==> uniqueNumbers && forall x | x in old(entries) :: x.num <= num)
      ensures ok ==> forall d | d != num :: d in dirs <==> d in old(dirs)
      ensures ok && old(Remembered()) ==> (Remembered() <==> uniqueNumbers || !Tops(num, old(ever)))
    {
      hide Consistent, Remembers, Tops, LastNum, Without;
      var x := Find(entries, num);
      if num == 0 || x.None? || undeletable { return false; }
      ghost var was := State();
      InSight(was);
      FoundHasInfo(was, num);
      DeleteConsistent(was, uniqueNumbers, num);
      if Remembered() { DeleteRemembers(was, uniqueNumbers, num); }
      KeysOf(infos, num, CURRENT);
      var last := LastNum(entries);
      DeletedExactly(was, uniqueNumbers, num);
      volumes, infos := volumes - {num}, infos - {num};
      if !uniqueNumbers || num != last { dirs := dirs - {num}; }
      entries := Without(entries, {num});
      assert State() == DeleteStep(was, uniqueNumbers, num);
      return true;
    }

    /** Reads the list from disk. */
    method Reload()
      requires Valid()
      modifies this`entries
      ensures entries == old(entries) && Valid()
    {
      var list := [CURRENT];
      var todo := dirs;
      while todo != {}
        invariant todo <= dirs && Ascending(list) && entries == old(entries)
        invariant forall x :: x in list <==> x == CURRENT || (x.num in infos && infos[x.num] == x && x.num !in todo)
        decreases |todo|
      {
        var d :| d in todo;
        if d in infos && infos[d].num == d && d in volumes {
          InsertKeeps(list, infos[d]);
          InsertElements(list, infos[d]);
          list := Insert(list, infos[d]);
        }
        todo := todo - {d};
      }
      forall x ensures x in list <==> x in entries { EntryIff(State(), x); }
      SameAscending(list, entries);
      entries := list;
    }
  }

  // Runs

  datatype Request =
    | CreateSingle(data: Snapshot, outcome: Outcome)
    | CreatePre(data: Snapshot, outcome: Outcome)
    | CreatePost(preNum: nat, data: Snapshot, outcome: Outcome)
    | Delete(num: nat, undeletable: bool)
    | Reload

  /** A request that starts to create a snapshot: the snapshot, but for its number, and how far it gets. */
  function Creation(entries: seq<Snapshot>, request: Request): Option<(Snapshot, Outcome)> {
    match request
    case CreateSingle(data, outcome) => Some((data.(kind := Single, preNum := 0), outcome))
    case CreatePre(data, outcome) => Some((data.(kind := Pre, preNum := 0), outcome))
    case CreatePost(preNum, data, outcome) =>
      if CanPost(entries, preNum) then Some((data.(kind := Post, preNum := preNum), outcome)) else None
    case _ => None
  }

  ghost function Step(unique: bool, t: Store, request: Request): Store {
    match Creation(t.entries, request)
    case Some((x, outcome)) => CreateStep(t, x, outcome)
    case None =>
      if request.Delete? && CanDelete(t.entries, request.num, request.undeletable)
      then DeleteStep(t, unique, request.num)
      else t
  }

  /** The snapshot that a request creates. */
  ghost function Made(t: Store, request: Request): Option<Snapshot> {
    match Creation(t.entries, request)
    case Some((x, outcome)) => if outcome == Fine then Some(x.(num := NextNum(t))) else None
    case None => None
  }

  lemma {:induction false} StepConsistent(unique: bool, t: Store, request: Request)
    requires Consistent(t)
    ensures Consistent(Step(unique, t, request))
  {
    match Creation(t.entries, request)
    case Some((x, outcome)) => CreateConsistent(t, x, outcome);
    case None =>
      if request.Delete? && CanDelete(t.entries, request.num, request.undeletable) {
        FoundHasInfo(t, request.num);
        DeleteConsistent(t, unique, request.num);
      }
  }

  /** The store after all requests, and the snapshots created on the way. */
  ghost function Run(unique: bool, requests: seq<Request>): Store {
    if requests == [] then START
    else Step(unique, Run(unique, requests[..|requests| - 1]), requests[|requests| - 1])
  }

  lemma {:induction false} RunConsistent(unique: bool, requests: seq<Request>)
    ensures Consistent(Run(unique, requests))
  {
    if requests != [] {
      RunConsistent(unique, requests[..|requests| - 1]);
      StepConsistent(unique, Run(unique, requests[..|requests| - 1]), requests[|requests| - 1]);
    }
  }

  ghost function AllMade(unique: bool, requests: seq<Request>): seq<Snapshot> {
    if requests == [] then []
    else
      var past := requests[..|requests| - 1];
      var x := Made(Run(unique, past), requests[|past|]);
      AllMade(unique, past) + (if x.Some? then [x.value] else [])
  }

  /** Request k creates a snapshot. */
  ghost predicate Gives(unique: bool, requests: seq<Request>, k: nat)
    requires k < |requests|
  {
    Made(Run(unique, requests[..k]), requests[k]).Some?
  }

  /**
   The highest number is forgotten: by a creation that fails half-way while it is not in the list, or by its deletion
   if numbers need not be unique.
   */
  ghost predicate Forgets(unique: bool, t: Store, request: Request) {
    match Creation(t.entries, request)
    case Some((_, outcome)) => (outcome == NoFilesystemSnapshot || outcome == NoInfo) && !ListsHighest(t)
    case None =>
      && request.Delete? && CanDelete(t.entries, request.num, request.undeletable)
      && !unique && Tops(request.num, t.ever)
  }

  ghost predicate ForgetsAt(unique: bool, requests: seq<Request>, k: nat)
    requires k < |requests|
  {
    Forgets(unique, Run(unique, requests[..k]), requests[k])
  }

  ghost predicate NeverForgets(unique: bool, requests: seq<Request>) {
    forall k | 0 <= k < |requests| :: !ForgetsAt(unique, requests, k)
  }

  /** No snapshot is created after the highest number was forgotten. */
  ghost predicate InTime(unique: bool, requests: seq<Request>) {
    forall k, j | 0 <= k < j < |requests| && ForgetsAt(unique, requests, k) :: !Gives(unique, requests, j)
  }

  /** The memory of the highest number after a step, as long as no number is given without it. */
  lemma {:induction false} StepRemembers(unique: bool, t: Store, request: Request)
    requires Consistent(t)
    ensures Remembers(t) && !Forgets(unique, t, request) ==> Remembers(Step(unique, t, request))
    ensures Forgets(unique, t, request) ==> !Remembers(Step(unique, t, request))
    ensures !Remembers(t) && Made(t, request).None? ==> !Remembers(Step(unique, t, request))
  {
    hide Consistent, Remembers, ListsHighest, Tops, CreateStep, DeleteStep;
    match Creation(t.entries, request)
    case Some((x, outcome)) => CreationRemembers(t, x, outcome);
    case None =>
      if request.Delete? && CanDelete(t.entries, request.num, request.undeletable) {
        FoundHasInfo(t, request.num);
        DeletionRemembers(unique, t, request.num);
      }
  }

  lemma {:induction false} CreationRemembers(t: Store, x: Snapshot, outcome: Outcome)
    requires Consistent(t)
    ensures outcome == Fine && Remembers(t) ==> Remembers(CreateStep(t, x, outcome))
    ensures outcome == NoDirectory ==> (Remembers(CreateStep(t, x, outcome)) <==> Remembers(t))
    ensures outcome == NoFilesystemSnapshot || outcome == NoInfo ==>
              && (Remembers(CreateStep(t, x, outcome)) <==> ListsHighest(t))
              && (ListsHighest(t) ==> Remembers(t))
  {
    OnlyListedLeft(t);
    if outcome == Fine && Remembers(t) { CreateRemembers(t, x); }
    if !Remembers(t) { FewerForget(t, t.(dirs := t.infos.Keys)); }
  }

  lemma {:induction false} DeletionRemembers(unique: bool, t: Store, num: nat)
    requires Consistent(t) && num in t.infos
    ensures Remembers(DeleteStep(t, unique, num)) <==> Remembers(t) && (unique || !Tops(num, t.ever))
  {
    if Remembers(t) { DeleteRemembers(t, unique, num); } else { FewerForget(t, DeleteStep(t, unique, num)); }
  }

  lemma {:induction false} FewerForget(t: Store, r: Store)
    requires Consistent(t) && !Remembers(t) && r.ever == t.ever && r.dirs <= t.dirs
    ensures !Remembers(r)
  {
  }

  ghost function NumSet(s: seq<Snapshot>): set<nat> {
    set x | x in s :: x.num
  }

  lemma {:induction false} NumSetOn(s: seq<Snapshot>, x: Snapshot)
    ensures NumSet(s + [x]) == NumSet(s) + {x.num}
  {
  }

  lemma {:induction false} EverAreMade(unique: bool, requests: seq<Request>)
    ensures Run(unique, requests).ever == NumSet(AllMade(unique, requests))
  {
    if requests != [] {
      var past, last := requests[..|requests| - 1], requests[|requests| - 1];
      assert requests == past + [last];
      EverAreMade(unique, past);
      RunNext(unique, past, last);
      hide Run, AllMade;
      EverNext(unique, Run(unique, past), last);
      var x := Made(Run(unique, past), last);
      if x.Some? { NumSetOn(AllMade(unique, past), x.value); }
    }
  }

  lemma {:induction false} EverNext(unique: bool, t: Store, request: Request)
    ensures Step(unique, t, request).ever ==
            if Made(t, request).Some? then t.ever + {Made(t, request).value.num} else t.ever
  {
  }

  lemma {:induction false} AscendingOn(s: seq<Snapshot>, x: Snapshot)
    ensures Ascending(s + [x]) <==> Ascending(s) && forall y | y in s :: y.num < x.num
  {
    var r := s + [x];
    if Ascending(r) {
      forall i, j | 0 <= i < j < |s| ensures s[i].num < s[j].num { assert r[i].num < r[j].num; }
      forall y | y in s ensures y.num < x.num {
        var i :| 0 <= i < |s| && s[i] == y;
        assert r[i].num < r[|s|].num;
      }
    }
    if Ascending(s) && forall y | y in s :: y.num < x.num {
      forall i, j | 0 <= i < j < |r| ensures r[i].num < r[j].num { assert s[i] in s; }
    }
  }

  /** One more request: the numbers still increase exactly if it does not give one while the highest is forgotten. */
  lemma {:induction false} IncreaseNext(unique: bool, past: seq<Request>, request: Request)
    ensures Ascending(AllMade(unique, past + [request])) <==>
            && Ascending(AllMade(unique, past))
            && (Made(Run(unique, past), request).Some? ==> Remembers(Run(unique, past)))
  {
    var requests, t, made := past + [request], Run(unique, past), AllMade(unique, past);
    assert requests[..|requests| - 1] == past;
    var x := Made(t, request);
    RunConsistent(unique, past);
    EverAreMade(unique, past);
    hide Run, Consistent, Remembers;
    if x.Some? {
      AboveAll(t);
      AscendingOn(made, x.value);
      assert forall y | y in made :: y.num in NumSet(made);
    } else {
      assert made + [] == made;
    }
  }

  lemma {:induction false} PrefixNext(unique: bool, past: seq<Request>, request: Request)
    ensures var all := past + [request];
            && (NeverForgets(unique, all) <==>
                NeverForgets(unique, past) && !Forgets(unique, Run(unique, past), request))
            && (InTime(unique, all) <==>
                InTime(unique, past) && (Made(Run(unique, past), request).Some? ==> NeverForgets(unique, past)))
  {
    var all := past + [request];
    assert all[..|past|] == past;
    forall k | 0 <= k < |past|
      ensures ForgetsAt(unique, all, k) == ForgetsAt(unique, past, k) && Gives(unique, all, k) == Gives(unique, past, k)
    {
      assert all[..k] == past[..k];
    }
    assert ForgetsAt(unique, all, |past|) == Forgets(unique, Run(unique, past), request);
    assert Gives(unique, all, |past|) == Made(Run(unique, past), request).Some?;
  }

  lemma {:induction false} RunNext(unique: bool, past: seq<Request>, request: Request)
    ensures Run(unique, past + [request]) == Step(unique, Run(unique, past), request)
    ensures AllMade(unique, past + [request]) ==
            var x := Made(Run(unique, past), request);
            if x.Some? then AllMade(unique, past) + [x.value] else AllMade(unique, past)
  {
    assert (past + [request])[..|past|] == past;
  }

  /** As long as the numbers increase, the highest is remembered exactly if it was never forgotten. */
  lemma {:induction false} RememberedUnlessForgotten(unique: bool, requests: seq<Request>)
    requires Ascending(AllMade(unique, requests))
    ensures Remembers(Run(unique, requests)) <==> NeverForgets(unique, requests)
  {
    if requests != [] {
      var past, last := requests[..|requests| - 1], requests[|requests| - 1];
      assert requests == past + [last];
      hide AllMade, Run, Remembers, Made, Forgets, NeverForgets, Step;
      IncreaseNext(unique, past, last);
      PrefixNext(unique, past, last);
      RunNext(unique, past, last);
      RunConsistent(unique, past);
      StepRemembers(unique, Run(unique, past), last);
      RememberedUnlessForgotten(unique, past);
      if Made(Run(unique, past), last).Some? { GivenIsFine(unique, Run(unique, past), last); }
    }
  }

  lemma {:induction false} GivenIsFine(unique: bool, t: Store, request: Request)
    requires Made(t, request).Some?
    ensures !Forgets(unique, t, request)
  {
  }

  /**
   Numbers over all runs of creations with any outcome, deletions and reloads. They strictly increase exactly if no
   snapshot is created after the highest number was forgotten; before that the highest number has its directory.
   */
  lemma {:induction false} NumbersIncrease(unique: bool, requests: seq<Request>)
    ensures Ascending(AllMade(unique, requests)) <==> InTime(unique, requests)
    ensures NeverForgets(unique, requests) ==> InTime(unique, requests) && Remembers(Run(unique, requests))
  {
    if requests == [] {
    } else {
      var past, last := requests[..|requests| - 1], requests[|requests| - 1];
      assert requests == past + [last];
      NumbersIncrease(unique, past);
      IncreaseNext(unique, past, last);
      PrefixNext(unique, past, last);
      if Ascending(AllMade(unique, past)) { RememberedUnlessForgotten(unique, past); }
    }
    if NeverForgets(unique, requests) && Ascending(AllMade(unique, requests)) {
      RememberedUnlessForgotten(unique, requests);
    }
  }

  /** With unique numbers and no creation that fails half-way the numbers increase, whatever is deleted and reloaded. */
  lemma {:induction false} NoFailureNoRepeat(requests: seq<Request>)
    requires forall q | q in requests && (q.CreateSingle? || q.CreatePre? || q.CreatePost?) ::
               q.outcome == Fine || q.outcome == NoDirectory
    ensures Ascending(AllMade(true, requests)) && Remembers(Run(true, requests))
  {
    hide Run, AllMade, Remembers;
    forall k | 0 <= k < |requests| ensures !ForgetsAt(true, requests, k) { assert requests[k] in requests; }
    NumbersIncrease(true, requests);
  }

  // Entries over runs

  /** The snapshot that was created last with a number, unless it was deleted since. */
  ghost function Latest(unique: bool, requests: seq<Request>, num: nat): Option<Snapshot> {
    if requests == [] then None
    else
      var past, last := requests[..|requests| - 1], requests[|requests| - 1];
      var x := Made(Run(unique, past), last);
      if x.Some? && x.value.num == num then x
      else if last.Delete? && last.num == num && !last.undeletable then None
      else Latest(unique, past, num)
  }

  lemma {:induction false} FindIs(entries: seq<Snapshot>, num: nat, r: Option<Snapshot>)
    requires Ascending(entries) && match r {
      case Some(x) => x in entries && x.num == num
      case None => forall x | x in entries :: x.num != num
    }
    ensures Find(entries, num) == r
  {
    if r.Some? { SameNumber(entries, Find(entries, num).value, r.value); }
  }

  lemma {:induction false} FindNext(unique: bool, t: Store, request: Request, num: nat)
    requires Consistent(t) && Ascending(Step(unique, t, request).entries) && num > 0
    ensures Find(Step(unique, t, request).entries, num) ==
            var x := Made(t, request);
            if x.Some? && x.value.num == num then x
            else if request.Delete? && request.num == num && !request.undeletable then None
            else Find(t.entries, num)
  {
    var r, x := Step(unique, t, request), Made(t, request);
    if x.Some? {
      assert r.entries == t.entries + [x.value];
      FindIs(r.entries, num, if x.value.num == num then x else Find(t.entries, num));
    } else if request.Delete? && CanDelete(t.entries, request.num, request.undeletable) {
      WithoutElements(t.entries, {request.num});
      FindIs(r.entries, num, if request.num == num then None else Find(t.entries, num));
    }
  }

  /** In every run the list holds, under each number, what was created last with it and not deleted since. */
  lemma {:induction false} ListIsLatest(unique: bool, requests: seq<Request>, num: nat)
    requires num > 0
    ensures Find(Run(unique, requests).entries, num) == Latest(unique, requests, num)
  {
    RunConsistent(unique, requests);
    if requests == [] {
    } else {
      var past, last := requests[..|requests| - 1], requests[|requests| - 1];
      ListIsLatest(unique, past, num);
      RunConsistent(unique, past);
      assert requests[..|past|] == past && Run(unique, requests) == Step(unique, Run(unique, past), last);
      hide Run, Step, Made;
      FindNext(unique, Run(unique, past), last, num);
    }
  }

  /** A deleted number is not listed until it is given again. */
  lemma {:induction false} GoneUntilGiven(unique: bool, past: seq<Request>, num: nat, later: seq<Request>)
    requires num > 0
    requires var all := past + [Delete(num, false)] + later;
      forall k | |past| < k < |all| :: GivenAt(unique, all, k) != Some(num)
    ensures Find(Run(unique, past + [Delete(num, false)] + later).entries, num).None?
    decreases |later|
  {
    var all := past + [Delete(num, false)] + later;
    var n := |all| - 1;
    ListIsLatest(unique, all, num);
    if later == [] {
      assert all[..n] == past && all[n] == Delete(num, false);
    } else {
      var before := past + [Delete(num, false)] + later[..|later| - 1];
      assert all[..n] == before;
      forall k | |past| < k < |before| ensures GivenAt(unique, before, k) != Some(num) {
        assert all[..k] == before[..k];
        assert GivenAt(unique, all, k) != Some(num);
      }
      GoneUntilGiven(unique, past, num, later[..|later| - 1]);
      ListIsLatest(unique, before, num);
      assert GivenAt(unique, all, n) != Some(num);
    }
  }

  /** The number that request k gives to a new snapshot. */
  ghost function GivenAt(unique: bool, requests: seq<Request>, k: nat): Option<nat>
    requires k < |requests|
  {
    match Made(Run(unique, requests[..k]), requests[k])
    case Some(x) => Some(x.num)
    case None => None
  }

  // Pairs over runs

  /** Every entry was created. */
  lemma {:induction false} EntriesAreMade(unique: bool, requests: seq<Request>)
    ensures forall x | x in Run(unique, requests).entries :: x == CURRENT || x in AllMade(unique, requests)
  {
    if requests != [] {
      var past, last := requests[..|requests| - 1], requests[|requests| - 1];
      EntriesAreMade(unique, past);
      EntriesNext(unique, Run(unique, past), last, AllMade(unique, past));
    }
  }

  lemma {:induction false} EntriesNext(unique: bool, t: Store, request: Request, made: seq<Snapshot>)
    requires forall x | x in t.entries :: x == CURRENT || x in made
    ensures var all := made + (if Made(t, request).Some? then [Made(t, request).value] else []);
            forall x | x in Step(unique, t, request).entries :: x == CURRENT || x in all
  {
    if request.Delete? { WithoutElements(t.entries, {request.num}); }
  }

  /** Every post snapshot was created after a pre snapshot of its pre number. */
  lemma {:induction false} PostAfterPre(unique: bool, requests: seq<Request>, j: nat) returns (i: nat)
    requires j < |AllMade(unique, requests)| && AllMade(unique, requests)[j].kind == Post
    ensures i < j && AllMade(unique, requests)[i].kind == Pre
    ensures AllMade(unique, requests)[i].num == AllMade(unique, requests)[j].preNum
  {
    var past, last := requests[..|requests| - 1], requests[|requests| - 1];
    var made := AllMade(unique, past);
    if j < |made| {
      i := PostAfterPre(unique, past, j);
    } else {
      EntriesAreMade(unique, past);
      hide Run, AllMade;
      var pre := Find(Run(unique, past).entries, last.preNum).value;
      i :| 0 <= i < |made| && made[i] == pre;
    }
  }

  /**
   In every run whose numbers increase, a post snapshot in the list is the only one with its pre number, and what is
   found under that number is the pre snapshot it was made for, and no later one.
   */
  lemma {:induction false} NeverRebound(unique: bool, requests: seq<Request>, post: Snapshot)
    requires InTime(unique, requests) && post in Run(unique, requests).entries && post.kind == Post
    ensures var all, entries := AllMade(unique, requests), Run(unique, requests).entries;
      && (exists i, j :: 0 <= i < j < |all| && all[j] == post && all[i].kind == Pre && all[i].num == post.preNum
            && (Find(entries, post.preNum).Some? ==> Find(entries, post.preNum).value == all[i]))
      && (forall x | x in entries && x.kind == Post && x.preNum == post.preNum :: x == post)
  {
    var all, entries := AllMade(unique, requests), Run(unique, requests).entries;
    NumbersIncrease(unique, requests);
    EntriesAreMade(unique, requests);
    var j :| 0 <= j < |all| && all[j] == post;
    var i := PostAfterPre(unique, requests, j);
    var found := Find(entries, post.preNum);
    RunConsistent(unique, requests);
    if found.Some? {
      EntryIff(Run(unique, requests), found.value);
      assert all[i] in all;
      PreHasNumber(unique, requests, i);
      SameNumber(all, found.value, all[i]);
    }
    forall x | x in entries && x.kind == Post && x.preNum == post.preNum
      ensures x == post
    {
      SamePost(entries, x, post);
    }
  }

  lemma {:induction false} PreHasNumber(unique: bool, requests: seq<Request>, i: nat)
    requires i < |AllMade(unique, requests)|
    ensures AllMade(unique, requests)[i].num > 0
  {
    var past := requests[..|requests| - 1];
    if i < |AllMade(unique, past)| { PreHasNumber(unique, past, i); }
  }

  // The requests one after the other

  function Nums(s: seq<Snapshot>): seq<nat> {
    seq(|s|, i requires 0 <= i < |s| => s[i].num)
  }

  /** Serves any requests: the store and the numbers are those of the run. */
  method Serve(unique: bool, requests: seq<Request>) returns (nums: seq<nat>, s: Snapshots)
    ensures s.Valid() && s.State() == Run(unique, requests) && nums == Nums(AllMade(unique, requests))
  {
    hide Consistent, Step, Made, CreateStep, DeleteStep;
    s := new Snapshots(unique);
    nums := [];
    for k := 0 to |requests|
      invariant fresh(s) && s.uniqueNumbers == unique && s.Valid()
      invariant s.State() == Run(unique, requests[..k]) && nums == Nums(AllMade(unique, requests[..k]))
    {
      assert requests[..k + 1][..k] == requests[..k];
      var num := ServeOne(s, requests[k]);
      if num.Some? { nums := nums + [num.value]; }
    }
    assert requests[..|requests|] == requests;
  }

  method ServeOne(s: Snapshots, request: Request) returns (num: Option<nat>)
    requires s.Valid()
    modifies s
    ensures s.Valid() && s.State() == Step(s.uniqueNumbers, old(s.State()), request)
    ensures Made(old(s.State()), request).Some? <==> num.Some?
    ensures num.Some? ==> num.value == Made(old(s.State()), request).value.num
  {
    hide Consistent, Remembers, ListsHighest, CreateStep, DeleteStep, NextNum;
    num := None;
    match request
    case CreateSingle(data, outcome) => num := s.Create(data.(kind := Single, preNum := 0), outcome);
    case CreatePre(data, outcome) => num := s.Create(data.(kind := Pre, preNum := 0), outcome);
    case CreatePost(preNum, data, outcome) =>
      var r := s.CreatePost(preNum, data, outcome);
      if r.Ok? { num := r.value; }
    case Delete(n, undeletable) => var ok := s.Delete(n, undeletable);
    case Reload => s.Reload();
  }

  /** A snapshot is created, deleted, a creation fails, and another one is made: its number has come back. */
  lemma {:induction false} NumberComesBack(x: Snapshot, failure: Outcome)
    requires failure == NoFilesystemSnapshot || failure == NoInfo
    ensures var lost := [CreateSingle(x, Fine), Delete(1, false), CreateSingle(x, failure)];
            && ForgetsAt(true, lost, 2)
            && Nums(AllMade(true, lost + [CreateSingle(x, Fine)])) == [1, 1]
  {
    var r1 := [CreateSingle(x, Fine), Delete(1, false)];
    var lost := [CreateSingle(x, Fine), Delete(1, false), CreateSingle(x, failure)];
    var t := Store([CURRENT], {1}, map[], {1});
    AfterDeletion(x);
    assert lost == r1 + [CreateSingle(x, failure)] && lost[..2] == r1;
    hide Run, AllMade;
    RunNext(true, r1, CreateSingle(x, failure));
    RunNext(true, lost, CreateSingle(x, Fine));
    FailsAfterDeletion(x, failure);
  }

  lemma {:induction false} FailsAfterDeletion(x: Snapshot, failure: Outcome)
    requires failure == NoFilesystemSnapshot || failure == NoInfo
    ensures var t, q := Store([CURRENT], {1}, map[], {1}), CreateSingle(x, failure);
            && Forgets(true, t, q) && Made(t, q).None? && Step(true, t, q) == t.(dirs := {})
            && NextNum(t.(dirs := {})) == 1
  {
    var t := Store([CURRENT], {1}, map[], {1});
    assert 1 in t.ever && t.infos.Keys == {};
  }

  lemma {:induction false} AfterDeletion(x: Snapshot)
    ensures var run := [CreateSingle(x, Fine), Delete(1, false)];
            Run(true, run) == Store([CURRENT], {1}, map[], {1}) && Nums(AllMade(true, run)) == [1]
  {
    hide Run, AllMade;
    var y := x.(kind := Single, preNum := 0, num := 1);
    AfterFirst(x);
    assert [CreateSingle(x, Fine), Delete(1, false)] == [CreateSingle(x, Fine)] + [Delete(1, false)];
    RunNext(true, [CreateSingle(x, Fine)], Delete(1, false));
    DeleteOnly(y);
  }

  lemma {:induction false} DeleteOnly(y: Snapshot)
    requires y.num == 1
    ensures Step(true, Store([CURRENT] + [y], {1}, map[1 := y], {1}), Delete(1, false)) ==
            Store([CURRENT], {1}, map[], {1})
  {
    hide Without, Find;
    WithoutAppended([CURRENT], y, {1});
    WithoutNone([CURRENT], {1});
    assert map[1 := y] - {1} == map[];
    assert y in [CURRENT] + [y];
  }

  lemma {:induction false} AfterFirst(x: Snapshot)
    ensures var y := x.(kind := Single, preNum := 0, num := 1);
            && Run(true, [CreateSingle(x, Fine)]) == Store([CURRENT] + [y], {1}, map[1 := y], {1})
            && AllMade(true, [CreateSingle(x, Fine)]) == [y]
  {
    var y := x.(kind := Single, preNum := 0, num := 1);
    assert [] + [CreateSingle(x, Fine)] == [CreateSingle(x, Fine)];
    RunNext(true, [], CreateSingle(x, Fine));
    assert map[][1 := y].Keys == {1};
  }

  // Sorted lists

  lemma {:induction false} AppendKeeps(s: seq<Snapshot>, x: Snapshot)
    requires Ascending(s) && OnePost(s) && forall y | y in s :: y.num < x.num
    requires x.kind == Post ==> FindPost(s, x.preNum).None?
    ensures Ascending(s + [x]) && OnePost(s + [x])
  {
    FindPostIs(s, x.preNum);
    var r := s + [x];
    forall i, j | 0 <= i < j < |r| ensures r[i].num < r[j].num {
      if j < |s| { assert s[i].num < s[j].num; } else { assert s[i] in s; }
    }
    forall y, z, num | IsPostOf(r, y, num) && IsPostOf(r, z, num) ensures y == z {
      assert y in s && z in s ==> IsPostOf(s, y, num) && IsPostOf(s, z, num);
    }
  }

  lemma {:induction false} ConsAscending(x: Snapshot, s: seq<Snapshot>)
    requires Ascending(s) && forall y | y in s :: x.num < y.num
    ensures Ascending([x] + s)
  {
    var r := [x] + s;
    forall i, j | 0 <= i < j < |r| ensures r[i].num < r[j].num {
      if i > 0 { assert s[i - 1].num < s[j - 1].num; } else { assert r[j] in s; }
    }
  }

  function Insert(s: seq<Snapshot>, x: Snapshot): seq<Snapshot> {
    if s == [] then [x] else if x.num < s[0].num then [x] + s else [s[0]] + Insert(s[1..], x)
  }

  lemma {:induction false} InsertElements(s: seq<Snapshot>, x: Snapshot)
    ensures forall y :: y in Insert(s, x) <==> y in s || y == x
  {
    if s != [] {
      InsertElements(s[1..], x);
      HeadAndTail(s);
    }
  }

  lemma {:induction false} InsertAfterHead(s: seq<Snapshot>, x: Snapshot)
    requires Ascending(s) && s != [] && s[0].num < x.num && Ascending(Insert(s[1..], x))
    ensures Ascending([s[0]] + Insert(s[1..], x))
  {
    TailAscending(s);
    InsertElements(s[1..], x);
    ConsAscending(s[0], Insert(s[1..], x));
  }

  lemma {:induction false} InsertBeforeHead(s: seq<Snapshot>, x: Snapshot)
    requires Ascending(s) && s != [] && x.num < s[0].num
    ensures Ascending([x] + s)
  {
    TailAscending(s);
    HeadAndTail(s);
    ConsAscending(x, s);
  }

  lemma {:induction false} InsertKeeps(s: seq<Snapshot>, x: Snapshot)
    requires Ascending(s) && forall y | y in s :: y.num != x.num
    ensures Ascending(Insert(s, x))
  {
    if s == [] {
      assert Ascending([x]);
    } else {
      assert s[0] in s && forall y | y in s[1..] :: y in s;
      TailAscending(s);
      hide Ascending;
      if x.num > s[0].num {
        InsertKeeps(s[1..], x);
        InsertAfterHead(s, x);
      } else {
        InsertBeforeHead(s, x);
      }
    }
  }
}
