/** The budgeted worklist that assigns a project quota to every directory of a mount, and the
    recursive description of the trees it accepts. */
module DirectoryQuota {
  import opened Sequences

  /** Directories one call may visit. */
  const BUDGET: nat := 100_000

  type Path = seq<string>

  /** The quota part of a directory's extended attributes: its project, the inheritance flag 0x200
      and every other flag bit. */
  datatype Attributes = Attributes(project: nat, inherit: bool, otherFlags: nat)

  datatype Directory = Directory(device: nat, owner: nat, xfs: bool, entries: seq<Entry>)
  datatype Entry = Subdirectory(name: string, directory: Directory) | Other(name: string)

  /** The operation at which the host reports a failure for one directory, or a write it reports done and
      does not do. */
  datatype Fault = OnOpen | OnList | OnRead | OnWrite | Ignored | OnReread

  // ---- The tree, described recursively ----

  function Size(d: Directory): (n: nat)
    ensures n >= 1
    decreases d, 1
  {
    1 + ForestSize(d.entries)
  }

  function ForestSize(entries: seq<Entry>): nat
    decreases entries, 0
  {
    if entries == [] then 0
    else (if entries[0].Subdirectory? then Size(entries[0].directory) else 0) + ForestSize(entries[1..])
  }

  /** The paths of all directories below and including one, with multiplicity. */
  function Nodes(d: Directory, path: Path): multiset<Path>
    decreases d, 1
  {
    multiset{path} + ForestNodes(d.entries, path)
  }

  function ForestNodes(entries: seq<Entry>, path: Path): multiset<Path>
    decreases entries, 0
  {
    if entries == [] then multiset{}
    else
      (if entries[0].Subdirectory? then Nodes(entries[0].directory, path + [entries[0].name]) else multiset{})
      + ForestNodes(entries[1..], path)
  }

  /** A file system gives the entries of one directory distinct names. */
  ghost predicate WellNamed(d: Directory)
    decreases d, 1
  {
    WellNamedForest(d.entries)
  }

  ghost predicate WellNamedForest(entries: seq<Entry>)
    decreases entries, 0
  {
    entries == [] ||
    (&& (forall i | 1 <= i < |entries| :: entries[i].name != entries[0].name)
     && (entries[0].Subdirectory? ==> WellNamed(entries[0].directory))
     && WellNamedForest(entries[1..]))
  }

  /** One directory passes the owner, device, file system and unassigned-project checks. */
  ghost predicate NodeAccepted(d: Directory, path: Path, before: map<Path, Attributes>, faults: map<Path, Fault>,
                               device: nat)
  {
    && d.xfs && d.device == device && d.owner == 0
    && path !in faults
    && path in before && before[path].project == 0
  }

  /** A whole tree passes: every node is accepted and nothing but directories occurs in it. */
  ghost predicate Accepted(d: Directory, path: Path, before: map<Path, Attributes>, faults: map<Path, Fault>,
                           device: nat)
    decreases d, 1
  {
    NodeAccepted(d, path, before, faults, device) && ForestAccepted(d.entries, path, before, faults, device)
  }

  ghost predicate ForestAccepted(entries: seq<Entry>, path: Path, before: map<Path, Attributes>,
                                 faults: map<Path, Fault>, device: nat)
    decreases entries, 0
  {
    entries == [] ||
    (&& entries[0].Subdirectory?
     && Accepted(entries[0].directory, path + [entries[0].name], before, faults, device)
     && ForestAccepted(entries[1..], path, before, faults, device))
  }

  function Assign(a: Attributes, project: nat): Attributes {
    a.(project := project, inherit := true)
  }

  // ---- Facts about trees ----

  /** No directory occurs twice in a well-named tree. */
  lemma {:induction false} NodesUnique(d: Directory, path: Path, x: Path)
    requires WellNamed(d)
    ensures Nodes(d, path)[x] <= 1
    ensures x in Nodes(d, path) ==> path <= x
    decreases d, 1
  {
    ForestUnique(d.entries, path, x);
  }

  lemma {:induction false} ForestUnique(entries: seq<Entry>, path: Path, x: Path)
    requires WellNamedForest(entries)
    ensures ForestNodes(entries, path)[x] <= 1
    ensures x in ForestNodes(entries, path) ==>
              |path| < |x| && path <= x && exists i | 0 <= i < |entries| :: entries[i].name == x[|path|]
    decreases entries, 0
  {
    if entries != [] {
      var first, rest := entries[0], entries[1..];
      ForestUnique(rest, path, x);
      if first.Subdirectory? {
        NodesUnique(first.directory, path + [first.name], x);
        if x in Nodes(first.directory, path + [first.name]) {
          assert x[|path|] == (path + [first.name])[|path|] == first.name;
          assert path <= path + [first.name] <= x;
        }
      }
      if x in ForestNodes(rest, path) {
        var i :| 0 <= i < |rest| && rest[i].name == x[|path|];
        assert entries[i + 1].name == x[|path|];
      }
    }
  }

  lemma {:induction false} NodesCounted(d: Directory, path: Path)
    ensures |Nodes(d, path)| == Size(d)
    decreases d, 1
  {
    ForestCounted(d.entries, path);
  }

  lemma {:induction false} ForestCounted(entries: seq<Entry>, path: Path)
    ensures |ForestNodes(entries, path)| == ForestSize(entries)
    decreases entries, 0
  {
    if entries != [] {
      ForestCounted(entries[1..], path);
      if entries[0].Subdirectory? {
        NodesCounted(entries[0].directory, path + [entries[0].name]);
      }
    }
  }

  // ---- Looking a path up ----

  function Find(entries: seq<Entry>, name: string): (found: seq<Directory>)
    ensures |found| <= 1
  {
    if entries == [] then []
    else if entries[0].name == name && entries[0].Subdirectory? then [entries[0].directory]
    else Find(entries[1..], name)
  }

  /** The directory a path names: a list of none or one. */
  function Lookup(d: Directory, path: Path): (found: seq<Directory>)
    ensures |found| <= 1
    decreases path
  {
    if path == [] then [d]
    else
      var next := Find(d.entries, path[0]);
      if next == [] then [] else Lookup(next[0], path[1..])
  }

  lemma {:induction false} LookupExtends(d: Directory, path: Path, inner: Directory, name: string)
    requires Lookup(d, path) == [inner]
    ensures Lookup(d, path + [name]) == Find(inner.entries, name)
    decreases path
  {
    if path == [] {
      var next := Find(inner.entries, name);
      assert [name][1..] == [];
      if next != [] { assert Lookup(next[0], []) == [next[0]] == next; }
    } else {
      var next := Find(d.entries, path[0]);
      LookupExtends(next[0], path[1..], inner, name);
      assert (path + [name])[1..] == path[1..] + [name];
    }
  }

  lemma {:induction false} FindAt(entries: seq<Entry>, i: nat)
    requires WellNamedForest(entries) && i < |entries| && entries[i].Subdirectory?
    ensures Find(entries, entries[i].name) == [entries[i].directory]
    ensures WellNamed(entries[i].directory)
  {
    if i > 0 { FindAt(entries[1..], i - 1); }
  }

  // ---- The worklist ----

  /** One pending path together with the directory it names. */
  datatype Item = Item(path: Path, directory: Directory)

  ghost function Paths(work: seq<Item>): seq<Path> {
    seq(|work|, i requires 0 <= i < |work| => work[i].path)
  }

  ghost function WorkSize(work: seq<Item>): nat {
    if work == [] then 0 else Size(work[0].directory) + WorkSize(work[1..])
  }

  ghost function WorkNodes(work: seq<Item>): multiset<Path> {
    if work == [] then multiset{} else Nodes(work[0].directory, work[0].path) + WorkNodes(work[1..])
  }

  ghost predicate WorkAccepted(work: seq<Item>, before: map<Path, Attributes>, faults: map<Path, Fault>, device: nat) {
    forall item | item in work :: Accepted(item.directory, item.path, before, faults, device)
  }

  ghost predicate Located(root: Directory, work: seq<Item>) {
    forall item | item in work :: Lookup(root, item.path) == [item.directory] && WellNamed(item.directory)
  }

  predicate AllDirectories(entries: seq<Entry>) {
    forall i | 0 <= i < |entries| :: entries[i].Subdirectory?
  }

  ghost function Children(entries: seq<Entry>, path: Path): (items: seq<Item>)
    requires AllDirectories(entries)
    ensures |items| == |entries|
    ensures forall i | 0 <= i < |entries| :: items[i] == Item(path + [entries[i].name], entries[i].directory)
  {
    seq(|entries|, i requires 0 <= i < |entries| && AllDirectories(entries) =>
      Item(path + [entries[i].name], entries[i].directory))
  }

  lemma {:induction false} WorkAtLeastOneEach(work: seq<Item>)
    ensures WorkSize(work) >= |work|
  {
    if work != [] { WorkAtLeastOneEach(work[1..]); }
  }

  lemma {:induction false} WorkSizeConcat(a: seq<Item>, b: seq<Item>)
    ensures WorkSize(a + b) == WorkSize(a) + WorkSize(b)
  {
    ConcatEmpty(a, b);
    if a != [] {
      ConcatFirst(a, b);
      WorkSizeConcat(a[1..], b);
    }
  }

  lemma {:induction false} WorkNodesConcat(a: seq<Item>, b: seq<Item>, x: Path)
    ensures WorkNodes(a + b)[x] == WorkNodes(a)[x] + WorkNodes(b)[x]
  {
    ConcatEmpty(a, b);
    if a != [] {
      ConcatFirst(a, b);
      WorkNodesConcat(a[1..], b, x);
    }
  }

  lemma WorkConcat(a: seq<Item>, b: seq<Item>)
    ensures WorkSize(a + b) == WorkSize(a) + WorkSize(b)
    ensures WorkNodes(a + b) == WorkNodes(a) + WorkNodes(b)
  {
    WorkSizeConcat(a, b);
    forall x ensures WorkNodes(a + b)[x] == WorkNodes(a)[x] + WorkNodes(b)[x] {
      WorkNodesConcat(a, b, x);
    }
  }

  lemma WorkSingle(item: Item)
    ensures WorkSize([item]) == Size(item.directory)
    ensures WorkNodes([item]) == Nodes(item.directory, item.path)
  {
    assert [item][1..] == [];
  }

  /** Pushing all children of a directory puts exactly its forest on the stack. */
  lemma {:induction false} ChildrenMakeTheForest(entries: seq<Entry>, path: Path)
    requires AllDirectories(entries)
    ensures WorkSize(Children(entries, path)) == ForestSize(entries)
    ensures WorkNodes(Children(entries, path)) == ForestNodes(entries, path)
  {
    if entries != [] {
      ChildrenMakeTheForest(entries[1..], path);
      assert Children(entries, path)[1..] == Children(entries[1..], path);
    }
  }

  lemma {:induction false} ForestAcceptedPointwise(entries: seq<Entry>, path: Path, before: map<Path, Attributes>,
                                                   faults: map<Path, Fault>, device: nat)
    ensures ForestAccepted(entries, path, before, faults, device) <==>
              AllDirectories(entries) && WorkAccepted(Children(entries, path), before, faults, device)
  {
    if entries != [] {
      ForestAcceptedPointwise(entries[1..], path, before, faults, device);
      if AllDirectories(entries) {
        var items := Children(entries, path);
        assert items == [items[0]] + Children(entries[1..], path);
      } else if entries[0].Subdirectory? {
        assert !AllDirectories(entries[1..]) by {
          var i :| 0 <= i < |entries| && !entries[i].Subdirectory?;
          assert entries[1..][i - 1] == entries[i];
        }
      }
    }
  }

  /** Directories whose attributes the host holds, and where it will fail. */
  class Volume {
    const root: Directory
    const faults: map<Path, Fault>
    var attributes: map<Path, Attributes>

    constructor (root: Directory, faults: map<Path, Fault>, attributes: map<Path, Attributes>)
      ensures this.root == root && this.faults == faults && this.attributes == attributes
    {
      this.root, this.faults, this.attributes := root, faults, attributes;
    }
  }

  /** The entries of an open directory, refused when there are more than the budget leaves room for or
      when one of them is not a directory. */
  method QuotaChildren(entries: seq<Entry>, maximum: int) returns (children: seq<string>, ok: bool)
    ensures ok <==> 0 <= maximum && |entries| <= maximum && AllDirectories(entries)
    ensures ok ==> |children| == |entries| && forall i | 0 <= i < |entries| :: children[i] == entries[i].name
  {
    children := [];
    if maximum < 0 { return [], false; }
    var listed := if |entries| <= maximum + 1 then entries else entries[..maximum + 1];
    if |listed| > maximum { return [], false; }
    for i := 0 to |listed|
      invariant |children| == i
      invariant forall j | 0 <= j < i :: listed[j].Subdirectory? && children[j] == listed[j].name
    {
      if !listed[i].Subdirectory? { return [], false; }
      children := children + [listed[i].name];
    }
    return children, true;
  }

  predicate FailsAt(faults: map<Path, Fault>, path: Path, at: Fault) {
    path in faults && faults[path] == at
  }

  /** One visit: open, check, list within the budget, read, write and re-read the attributes. */
  method Visit(volume: Volume, path: Path, device: nat, project: nat, maximum: int, ghost dir: Directory)
    returns (children: seq<string>, ok: bool)
    requires Lookup(volume.root, path) == [dir]
    modifies volume
    ensures ok <==> && project != 0 && 0 <= maximum && |dir.entries| <= maximum && AllDirectories(dir.entries)
                    && NodeAccepted(dir, path, old(volume.attributes), volume.faults, device)
    ensures ok ==> && |children| == |dir.entries|
                   && (forall i | 0 <= i < |dir.entries| :: children[i] == dir.entries[i].name)
                   && volume.attributes == old(volume.attributes)[path := Assign(old(volume.attributes)[path], project)]
    ensures volume.attributes == old(volume.attributes)
            || (path in old(volume.attributes) && old(volume.attributes)[path].project == 0
                && volume.attributes == old(volume.attributes)[path := Assign(old(volume.attributes)[path], project)])
  {
    children := [];
    var found := Lookup(volume.root, path);
    var directory := found[0];
    if FailsAt(volume.faults, path, OnOpen) || !directory.xfs { return [], false; }
    if project == 0 || directory.device != device || directory.owner != 0 { return [], false; }
    if FailsAt(volume.faults, path, OnList) { return [], false; }
    children, ok := QuotaChildren(directory.entries, maximum);
    if !ok { return; }
    if FailsAt(volume.faults, path, OnRead) || path !in volume.attributes { return [], false; }
    var destination := volume.attributes[path];
    if destination.project != 0 { return [], false; }
    destination := destination.(project := project, inherit := true);
    if FailsAt(volume.faults, path, OnWrite) { return [], false; }
    if !FailsAt(volume.faults, path, Ignored) { volume.attributes := volume.attributes[path := destination]; }
    if FailsAt(volume.faults, path, OnReread) { return [], false; }
    var applied := volume.attributes[path];
    if applied.project != project || !applied.inherit { return [], false; }
  }

  /** The host's attributes after a set of directories has been assigned: these have the project and inherit it, and
      keep every other flag; nothing else has changed. */
  ghost predicate AssignedExactly(before: map<Path, Attributes>, after: map<Path, Attributes>, marked: multiset<Path>,
                                  project: nat)
  {
    && after.Keys == before.Keys
    && forall p | p in before :: after[p] == if p in marked then Attributes(project, true, before[p].otherFlags) else before[p]
  }

  /** When a visit is refused, its node was assigned or was not; either way the log says which were. */
  lemma LastLog(root: Directory, top: Directory, path: Path, rest: seq<Item>, current: Path, dir: Directory, log: seq<Path>,
                before: map<Path, Attributes>, was: map<Path, Attributes>, now: map<Path, Attributes>, project: nat)
    returns (last: seq<Path>)
    requires WorklistInvariant(root, top, path, rest + [Item(current, dir)], log)
    requires AssignedExactly(before, was, multiset(log), project)
    requires now == was || (current in was && now == was[current := Assign(was[current], project)])
    ensures multiset(last) <= Nodes(top, path) && AssignedExactly(before, now, multiset(last), project)
    ensures forall i, j | 0 <= i < j < |last| :: last[i] != last[j]
  {
    Unvisited(root, top, path, rest, current, dir, log);
    last := log;
    if now != was {
      OneMoreAssigned(before, was, log, current, project);
      last := log + [current];
    }
    LogDistinct(top, path, last);
  }

  /** The worklist accepts exactly the trees the recursive description accepts within the budget, and
      then assigns every directory once; when it fails, it has changed nothing but unassigned
      directories of the tree. Both exhaustion guards are unreachable: the budget is never spent with
      work pending, and never smaller than the work pending. */
  method InheritDirectoryQuota(volume: Volume, path: Path, device: nat, project: nat, ghost top: Directory)
    returns (ok: bool, ghost log: seq<Path>)
    requires Lookup(volume.root, path) == [top] && WellNamed(top)
    modifies volume
    ensures ok <==> && project != 0 && Size(top) <= 100_000
                    && Accepted(top, path, old(volume.attributes), volume.faults, device)
    ensures multiset(log) <= Nodes(top, path)
    ensures forall i, j | 0 <= i < j < |log| :: log[i] != log[j]
    ensures AssignedExactly(old(volume.attributes), volume.attributes, multiset(log), project)
    ensures ok ==> multiset(log) == Nodes(top, path)
  {
    ghost var before := volume.attributes;
    var pending := [path];
    var remaining := BUDGET;
    ghost var work := [Item(path, top)];
    log := [];
    WorkSingle(Item(path, top));
    while |pending| != 0
      invariant pending == Paths(work) && |pending| <= remaining
      invariant remaining == BUDGET - |log|
      invariant WorklistInvariant(volume.root, top, path, work, log)
      invariant AssignedExactly(before, volume.attributes, multiset(log), project)
      invariant log != [] ==> project != 0
      invariant Accepted(top, path, before, volume.faults, device) <==>
                  WorkAccepted(work, before, volume.faults, device)
      decreases remaining
    {
      if remaining == 0 {
        assert false;
      }
      remaining := remaining - 1;
      var current := pending[|pending| - 1];
      pending := pending[..|pending| - 1];
      ghost var rest, dir := PathsPop(work);
      Unvisited(volume.root, top, path, rest, current, dir, log);
      assert 0 <= remaining - |pending|;
      label visit:
      var children, visited := Visit(volume, current, device, project, remaining - |pending|, dir);
      if !visited {
        Rejects(top, path, rest, current, dir, log, before, volume.faults, device, project);
        log := LastLog(volume.root, top, path, rest, current, dir, log, before, old@visit(volume.attributes), volume.attributes, project);
        return false, log;
      }
      pending := Pushed(pending, current, children, rest, dir.entries);
      Advances(volume.root, top, path, rest, current, dir, log);
      OneMoreAssigned(before, old@visit(volume.attributes), log, current, project);
      KeepsAcceptance(rest, current, dir, before, volume.faults, device);
      log := log + [current];
      work := rest + Children(dir.entries, current);
    }
    LogDistinct(top, path, log);
    ok := true;
  }

  /** Append the children of a visited directory to the stack. */
  method Pushed(pending: seq<Path>, current: Path, children: seq<string>, ghost rest: seq<Item>,
                ghost entries: seq<Entry>)
    returns (result: seq<Path>)
    requires AllDirectories(entries) && pending == Paths(rest)
    requires |children| == |entries| && forall i | 0 <= i < |entries| :: children[i] == entries[i].name
    ensures result == Paths(rest + Children(entries, current))
  {
    result := pending;
    for i := 0 to |children|
      invariant result == pending + Paths(Children(entries, current))[..i]
    {
      result := result + [current + [children[i]]];
    }
    PathsConcat(rest, Children(entries, current));
  }

  /** Everything is either done once or still reachable from the stack. */
  ghost predicate WorklistInvariant(root: Directory, top: Directory, path: Path, work: seq<Item>, log: seq<Path>) {
    && Located(root, work)
    && WellNamed(top)
    && |log| + WorkSize(work) == Size(top)
    && multiset(log) + WorkNodes(work) == Nodes(top, path)
  }

  lemma PathsConcat(a: seq<Item>, b: seq<Item>)
    ensures Paths(a + b) == Paths(a) + Paths(b)
  {
  }

  lemma PathsPop(work: seq<Item>) returns (rest: seq<Item>, dir: Directory)
    requires work != []
    ensures |rest| == |work| - 1 && Paths(work)[..|rest|] == Paths(rest)
    ensures work == rest + [Item(Paths(work)[|rest|], dir)]
  {
    rest, dir := work[..|work| - 1], work[|work| - 1].directory;
  }

  lemma OneMoreAssigned(before: map<Path, Attributes>, now: map<Path, Attributes>, log: seq<Path>, current: Path,
                        project: nat)
    requires AssignedExactly(before, now, multiset(log), project)
    requires current in now && current !in multiset(log)
    ensures AssignedExactly(before, now[current := Assign(now[current], project)], multiset(log + [current]), project)
  {
  }

  lemma LogDistinct(top: Directory, path: Path, log: seq<Path>)
    requires WellNamed(top) && multiset(log) <= Nodes(top, path)
    ensures forall i, j | 0 <= i < j < |log| :: log[i] != log[j]
  {
    forall i, j | 0 <= i < j < |log| ensures log[i] != log[j] {
      NodesUnique(top, path, log[i]);
      if log[i] == log[j] { RepeatedTwice(log, i, j); }
    }
  }

  lemma RepeatedTwice(log: seq<Path>, i: nat, j: nat)
    requires i < j < |log| && log[i] == log[j]
    ensures multiset(log)[log[i]] >= 2
  {
    assert log == log[..i] + [log[i]] + log[i + 1..];
    assert log[i + 1..] == log[i + 1..j] + [log[j]] + log[j + 1..];
  }

  /** The directory on top of the stack has not been assigned yet, and may be. */
  lemma Unvisited(root: Directory, top: Directory, path: Path, rest: seq<Item>, current: Path, dir: Directory,
                  log: seq<Path>)
    requires WorklistInvariant(root, top, path, rest + [Item(current, dir)], log)
    ensures Lookup(root, current) == [dir] && WellNamed(dir)
    ensures current !in multiset(log)
    ensures multiset(log + [current]) <= Nodes(top, path)
  {
    assert Item(current, dir) in rest + [Item(current, dir)];
    WorkConcat(rest, [Item(current, dir)]);
    WorkSingle(Item(current, dir));
    NodesUnique(top, path, current);
  }

  /** A failed visit means the tree is not acceptable, or is too large. */
  lemma Rejects(top: Directory, path: Path, rest: seq<Item>, current: Path, dir: Directory,
                log: seq<Path>, before: map<Path, Attributes>, faults: map<Path, Fault>, device: nat, project: nat)
    requires |log| + WorkSize(rest + [Item(current, dir)]) == Size(top)
    requires Accepted(top, path, before, faults, device) <==>
               WorkAccepted(rest + [Item(current, dir)], before, faults, device)
    requires !(&& project != 0 && |dir.entries| <= BUDGET - |log| - 1 - |rest| && AllDirectories(dir.entries)
               && NodeAccepted(dir, current, before, faults, device))
    ensures !(project != 0 && Size(top) <= BUDGET && Accepted(top, path, before, faults, device))
  {
    if Accepted(top, path, before, faults, device) && project != 0 {
      assert Item(current, dir) in rest + [Item(current, dir)];
      ForestAcceptedPointwise(dir.entries, current, before, faults, device);
      WorkConcat(rest, [Item(current, dir)]);
      WorkSingle(Item(current, dir));
      WorkAtLeastOneEach(rest);
      ChildrenMakeTheForest(dir.entries, current);
      WorkAtLeastOneEach(Children(dir.entries, current));
    }
  }

  /** A successful visit moves one directory from the stack to the log and its children onto the stack. */
  lemma Advances(root: Directory, top: Directory, path: Path, rest: seq<Item>, current: Path, dir: Directory,
                 log: seq<Path>)
    requires AllDirectories(dir.entries)
    requires WorklistInvariant(root, top, path, rest + [Item(current, dir)], log)
    ensures WorklistInvariant(root, top, path, rest + Children(dir.entries, current), log + [current])
  {
    WorkConcat(rest, [Item(current, dir)]);
    WorkSingle(Item(current, dir));
    WorkConcat(rest, Children(dir.entries, current));
    ChildrenMakeTheForest(dir.entries, current);
    assert Item(current, dir) in rest + [Item(current, dir)];
    ChildrenLocated(root, current, dir);
  }

  lemma ChildrenLocated(root: Directory, current: Path, dir: Directory)
    requires AllDirectories(dir.entries) && Lookup(root, current) == [dir] && WellNamed(dir)
    ensures Located(root, Children(dir.entries, current))
  {
    forall item | item in Children(dir.entries, current)
      ensures Lookup(root, item.path) == [item.directory] && WellNamed(item.directory)
    {
      var i :| 0 <= i < |dir.entries| && item == Children(dir.entries, current)[i];
      FindAt(dir.entries, i);
      LookupExtends(root, current, dir, dir.entries[i].name);
    }
  }

  lemma KeepsAcceptance(rest: seq<Item>, current: Path, dir: Directory, before: map<Path, Attributes>,
                        faults: map<Path, Fault>, device: nat)
    requires AllDirectories(dir.entries) && NodeAccepted(dir, current, before, faults, device)
    ensures WorkAccepted(rest + [Item(current, dir)], before, faults, device) <==>
              WorkAccepted(rest + Children(dir.entries, current), before, faults, device)
  {
    ForestAcceptedPointwise(dir.entries, current, before, faults, device);
    assert Item(current, dir) in rest + [Item(current, dir)];
  }
}
