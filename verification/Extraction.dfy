/** Extracting an archive member by member into an empty tree, on a file system that follows links. */
module Extraction {
  import opened Options
  import opened ByteStrings
  import opened ArchiveNames

  datatype Node = Dir | File(of: Entry) | SymbolicLink(target: Bytes)

  type Tree = map<Path, Node>

  const EMPTY: Tree := map[[] := Dir]

  /** Symbolic links the kernel follows in one lookup before it gives up. */
  const MAX_HOPS: nat := 40

  /** A finished walk: where it ended, if it did, and whether it met anything but directories. */
  datatype Walk = Walk(tree: Tree, at: Option<Path>, strayed: bool)

  function Parent(path: Path): Path { if path == [] then [] else path[..|path| - 1] }

  /** Walk down from a directory, following symbolic links and, if asked, making missing directories. */
  function Descend(tree: Tree, at: Path, rest: Path, create: bool, hops: nat): Walk
    decreases hops, |rest|
  {
    if rest == [] then Walk(tree, Some(at), false)
    else if rest[0] == DOT_DOT then Descend(tree, Parent(at), rest[1..], create, hops)
    else
      var child := at + [rest[0]];
      if child !in tree then
        if create then Descend(tree[child := Dir], child, rest[1..], create, hops) else Walk(tree, None, false)
      else
        match tree[child]
        case Dir => Descend(tree, child, rest[1..], create, hops)
        case File(_) => Walk(tree, None, true)
        case SymbolicLink(target) =>
          if hops == 0 then Walk(tree, None, true)
          else
            var from := if target != [] && target[0] == SLASH then [] else at;
            Descend(tree, from, Parts(target) + rest[1..], create, hops - 1).(strayed := true)
  }

  /** The result of extracting one member: the path it was put at, if any. */
  datatype Step = Step(tree: Tree, placed: Option<Path>, strayed: bool)

  /** The node a hard link would share, looked up without following a final symbolic link. */
  function Linked(tree: Tree, target: Path): (Option<Node>, bool) {
    if target == [] then (None, false)
    else
      var walk := Descend(tree, [], target[..|target| - 1], false, MAX_HOPS);
      if walk.at == None then (None, walk.strayed)
      else
        var there := walk.at.value + [target[|target| - 1]];
        if there !in tree || tree[there] == Dir then (None, walk.strayed) else (Some(tree[there]), walk.strayed)
  }

  function Extract(tree: Tree, e: Entry): Step {
    var path := Parts(e.name);
    if path == [] then Step(tree, if e.kind == Directory then Some([]) else None, false)
    else
      var walk := Descend(tree, [], path[..|path| - 1], true, MAX_HOPS);
      if walk.at == None then Step(walk.tree, None, walk.strayed)
      else
        var here := walk.at.value + [path[|path| - 1]];
        var present := here in walk.tree;
        match e.kind
        case Directory =>
          if !present then Step(walk.tree[here := Dir], Some(here), walk.strayed)
          else if walk.tree[here] == Dir then Step(walk.tree, Some(here), walk.strayed)
          else Step(walk.tree, None, true)
        case Regular =>
          if present && walk.tree[here].SymbolicLink? then Step(walk.tree, None, true)
          else if present && walk.tree[here] == Dir then Step(walk.tree, None, walk.strayed)
          else Step(walk.tree[here := File(e)], Some(here), walk.strayed)
        case Symlink =>
          if present || e.link == None then Step(walk.tree, None, walk.strayed)
          else Step(walk.tree[here := SymbolicLink(e.link.value)], Some(here), walk.strayed)
        case Link =>
          if e.link == None then Step(walk.tree, None, walk.strayed)
          else
            var (node, strayed) := Linked(walk.tree, Parts(e.link.value));
            if present || node == None then Step(walk.tree, None, walk.strayed || strayed)
            else Step(walk.tree[here := node.value], Some(here), walk.strayed || strayed)
        case Other => Step(walk.tree, None, walk.strayed)
  }

  /** The tree after extracting the first `n` members of a list. */
  function After(entries: seq<Entry>, n: nat): Tree
    requires n <= |entries|
  {
    if n == 0 then EMPTY else Extract(After(entries, n - 1), entries[n - 1]).tree
  }

  // ---- Walking where only directories are met ----

  ghost predicate OnlyDirectories(tree: Tree, at: Path, rest: Path) {
    forall k | 1 <= k <= |rest| :: at + rest[..k] in tree ==> tree[at + rest[..k]] == Dir
  }

  /** The tree with every directory along a path present. */
  function WithDirectories(tree: Tree, at: Path, rest: Path): Tree
    decreases |rest|
  {
    if rest == [] then tree
    else
      var child := at + [rest[0]];
      WithDirectories(if child in tree then tree else tree[child := Dir], child, rest[1..])
  }

  lemma Shift(at: Path, rest: Path, k: nat)
    requires 1 <= k <= |rest|
    ensures at + rest[..k] == (at + [rest[0]]) + rest[1..][..k - 1]
  {
    assert rest[..k] == [rest[0]] + rest[1..][..k - 1];
  }

  lemma ShiftBack(at: Path, rest: Path, k: nat)
    requires rest != [] && k <= |rest| - 1
    ensures (at + [rest[0]]) + rest[1..][..k] == at + rest[..k + 1]
  {
    Shift(at, rest, k + 1);
  }

  lemma OnlyDirectoriesBelow(tree: Tree, at: Path, rest: Path)
    requires rest != [] && OnlyDirectories(tree, at, rest)
    ensures at + [rest[0]] in tree ==> tree[at + [rest[0]]] == Dir
    ensures OnlyDirectories(tree, at + [rest[0]], rest[1..])
    ensures OnlyDirectories(tree[at + [rest[0]] := Dir], at + [rest[0]], rest[1..])
  {
    assert rest[..1] == [rest[0]];
    var child := at + [rest[0]];
    forall k | 1 <= k <= |rest[1..]| ensures child + rest[1..][..k] in tree ==> tree[child + rest[1..][..k]] == Dir {
      ShiftBack(at, rest, k);
    }
  }

  /** A walk that can meet only directories ends at the lexical path and makes just the directories
      along it. */
  lemma {:induction false} DescendSafe(tree: Tree, at: Path, rest: Path, create: bool, hops: nat)
    requires OnlyDirectories(tree, at, rest) && DOT_DOT !in rest
    ensures var w := Descend(tree, at, rest, create, hops);
            && !w.strayed
            && (create ==> w.at == Some(at + rest) && w.tree == WithDirectories(tree, at, rest))
            && (!create ==> w.tree == tree && (w.at.Some? ==> w.at == Some(at + rest)))
    decreases |rest|
  {
    if rest == [] {
      assert at + rest == at;
    } else {
      var child := at + [rest[0]];
      OnlyDirectoriesBelow(tree, at, rest);
      assert child + rest[1..] == at + rest;
      assert DOT_DOT !in rest[1..];
      if child in tree {
        DescendSafe(tree, child, rest[1..], create, hops);
      } else if create {
        DescendSafe(tree[child := Dir], child, rest[1..], create, hops);
      }
    }
  }

  ghost predicate Extends(small: Tree, large: Tree) {
    forall q | q in small :: q in large && large[q] == small[q]
  }

  /** What is new in the extended tree are directories along the path. */
  lemma {:induction false} WithDirectoriesAdds(tree: Tree, at: Path, rest: Path)
    ensures Extends(tree, WithDirectories(tree, at, rest))
    ensures forall q | q in WithDirectories(tree, at, rest) && q !in tree ::
              WithDirectories(tree, at, rest)[q] == Dir && at < q && q <= at + rest
    decreases |rest|
  {
    if rest != [] {
      var child := at + [rest[0]];
      var tree' := if child in tree then tree else tree[child := Dir];
      assert child + rest[1..] == at + rest;
      WithDirectoriesAdds(tree', child, rest[1..]);
    }
  }

  lemma {:induction false} MeaningfulKeeps(parts: seq<Bytes>)
    ensures forall part | part in Meaningful(parts) :: part in parts
  {
    if parts != [] { MeaningfulKeeps(parts[1..]); }
  }

  lemma NoDotDot(name: Bytes)
    requires ValidPath(name)
    ensures DOT_DOT !in Parts(name)
  {
    MeaningfulKeeps(Split(name));
  }

  // ---- What every extraction of an admissible archive keeps ----

  /** The member put a node of its own kind at its own path. A hard link may have been skipped. */
  ghost predicate Landed(tree: Tree, e: Entry) {
    var path := Parts(e.name);
    && (e.kind == Directory ==> path in tree && tree[path] == Dir)
    && (e.kind == Regular ==> path in tree && tree[path] == File(e))
    && (e.kind == Symlink ==> path in tree && e.link.Some? && tree[path] == SymbolicLink(e.link.value))
    && (e.kind == Link ==> path in tree ==> tree[path] != Dir)
  }

  ghost predicate Explained(q: Path, node: Node, done: seq<Entry>) {
    if node == Dir then q == [] || exists e | e in done :: q <= Parts(e.name)
    else exists e | e in done :: e.kind != Directory && Parts(e.name) == q
  }

  /** Every node is at the lexical path of a member extracted before, or is a directory above one. */
  ghost predicate Faithful(tree: Tree, done: seq<Entry>) {
    && [] in tree && tree[[]] == Dir
    && (forall q | q in tree :: Explained(q, tree[q], done))
    && (forall e | e in done :: Landed(tree, e))
  }

  ghost predicate Safe(done: seq<Entry>, e: Entry) {
    Admissible(done + [e], true)
  }

  /** A file or link among the members done is not on the way to the next one. */
  lemma NotAbove(done: seq<Entry>, e: Entry, x: Entry, path: Path)
    requires Safe(done, e) && x in done && x.kind != Directory
    requires path == Parts(e.name) || (IsLink(e) && path == Parts(e.link.value))
    ensures !(Parts(x.name) < path)
    ensures Parts(x.name) != Parts(e.name)
  {
    var all := done + [e];
    var i :| 0 <= i < |done| && done[i] == x;
    assert all[i] == x && all[|done|] == e;
    assert x in all && e in all;
    assert EntryAllowed(x, true) && ClearEntry(all, e);
    assert Clear(all, path);
  }

  /** Nothing but directories lies above the member's name or its hard-link target. */
  lemma AboveAreDirectories(tree: Tree, done: seq<Entry>, e: Entry, path: Path)
    requires Faithful(tree, done) && Safe(done, e) && path != []
    requires path == Parts(e.name) || (IsLink(e) && path == Parts(e.link.value))
    ensures OnlyDirectories(tree, [], path[..|path| - 1])
  {
    var above := path[..|path| - 1];
    forall k | 1 <= k <= |above| && [] + above[..k] in tree ensures tree[[] + above[..k]] == Dir {
      var q := [] + above[..k];
      assert q < path;
      forall x | x in done && x.kind != Directory ensures Parts(x.name) != q {
        NotAbove(done, e, x, path);
      }
      assert Explained(q, tree[q], done);
    }
  }

  /** The member's own place is free, or is a directory made for what lies below a directory member. */
  lemma OwnPlace(tree: Tree, done: seq<Entry>, e: Entry)
    requires Faithful(tree, done) && Safe(done, e) && Parts(e.name) in tree
    ensures tree[Parts(e.name)] == Dir && e.kind == Directory
  {
    var p := Parts(e.name);
    var all := done + [e];
    assert e in all && EntryAllowed(e, true);
    if p != [] {
      assert Explained(p, tree[p], done);
      var x :| x in done && p <= Parts(x.name) && (tree[p] != Dir ==> Parts(x.name) == p);
      var i :| 0 <= i < |done| && done[i] == x;
      assert all[i] == x && all[|done|] == e;
      assert p < Parts(x.name);
      assert ClearEntry(all, all[i]);
    }
  }

  /** Adding directories above a member and then the member keeps every node explained. */
  lemma StillExplained(tree: Tree, large: Tree, done: seq<Entry>, e: Entry, q: Path)
    requires Faithful(tree, done) && Extends(tree, large) && q in large
    requires q !in tree ==> if large[q] == Dir then q <= Parts(e.name) else q == Parts(e.name) && e.kind != Directory
    ensures Explained(q, large[q], done + [e])
  {
    assert e in done + [e];
    if q in tree {
      assert Explained(q, tree[q], done);
      if tree[q] != Dir {
        var x :| x in done && x.kind != Directory && Parts(x.name) == q;
        assert x in done + [e];
      } else if q != [] {
        var x :| x in done && q <= Parts(x.name);
        assert x in done + [e];
      }
    }
  }

  /** Members extracted before stay where they are; a hard link skipped before stays skipped. */
  lemma StillLanded(tree: Tree, large: Tree, done: seq<Entry>, e: Entry)
    requires Faithful(tree, done) && Extends(tree, large) && Safe(done, e)
    requires forall q | q in large && q !in tree :: q <= Parts(e.name)
    ensures forall x | x in done :: Landed(large, x)
  {
    forall x | x in done ensures Landed(large, x) {
      assert Landed(tree, x);
      if x.kind == Link {
        NotAbove(done, e, x, Parts(e.name));
        assert Parts(x.name) in large ==> Parts(x.name) in tree;
      }
    }
  }

  /** Nothing but directories was met, and the member is at its own path; a hard link may be skipped. */
  ghost predicate GoodStep(e: Entry, step: Step) {
    && !step.strayed
    && (e.kind != Link ==> step.placed == Some(Parts(e.name)))
    && (e.kind == Link && step.placed.Some? ==> step.placed == Some(Parts(e.name)))
  }

  ghost predicate Adds(tree: Tree, large: Tree, e: Entry) {
    && Extends(tree, large)
    && Landed(large, e)
    && (forall q | q in large && q !in tree ::
          if large[q] == Dir then q <= Parts(e.name) else q == Parts(e.name) && e.kind != Directory)
  }

  lemma AddsKeeps(tree: Tree, large: Tree, done: seq<Entry>, e: Entry)
    requires Faithful(tree, done) && Safe(done, e) && Adds(tree, large, e)
    ensures Faithful(large, done + [e])
  {
    forall q | q in large ensures Explained(q, large[q], done + [e]) {
      StillExplained(tree, large, done, e, q);
    }
    StillLanded(tree, large, done, e);
  }

  /** A hard link's target is looked up without straying, and what it shares is no directory. */
  lemma LinkedSafe(tree: Tree, target: Path)
    requires target != [] ==> OnlyDirectories(tree, [], target[..|target| - 1])
    requires DOT_DOT !in target
    ensures !Linked(tree, target).1 && Linked(tree, target).0 != Some(Dir)
  {
    if target != [] {
      DescendSafe(tree, [], target[..|target| - 1], false, MAX_HOPS);
    }
  }

  /** Below the directories made for a name, the target's own ancestors are still directories. */
  lemma OnlyDirectoriesKept(tree: Tree, large: Tree, at: Path, rest: Path)
    requires OnlyDirectories(tree, at, rest) && Extends(tree, large)
    requires forall q | q in large && q !in tree :: large[q] == Dir
    ensures OnlyDirectories(large, at, rest)
  {
  }

  /** One extraction neither strays nor lands anywhere but at the member's lexical path. */
  lemma ExtractSafe(tree: Tree, done: seq<Entry>, e: Entry)
    requires Faithful(tree, done) && Safe(done, e)
    ensures GoodStep(e, Extract(tree, e)) && Adds(tree, Extract(tree, e).tree, e)
  {
    assert e in done + [e] && EntryAllowed(e, true);
    if Parts(e.name) in tree { OwnPlace(tree, done, e); }
    if Parts(e.name) != [] {
      var above := Parts(e.name)[..|Parts(e.name)| - 1];
      var made := MakesParents(tree, done, e, above);
      if e.kind == Link { TargetSafe(tree, made, done, e); }
      ExtractCases(tree, made, above, e);
    }
  }

  /** Walking to a member's parent makes the missing directories above it, and nothing else. */
  lemma MakesParents(tree: Tree, done: seq<Entry>, e: Entry, above: Path) returns (made: Tree)
    requires Faithful(tree, done) && Safe(done, e) && Parts(e.name) != [] && above == Parts(e.name)[..|Parts(e.name)| - 1]
    ensures Descend(tree, [], above, true, MAX_HOPS) == Walk(made, Some(above), false)
    ensures Extends(tree, made) && forall q | q in made && q !in tree :: made[q] == Dir && q <= above
  {
    assert e in done + [e] && EntryAllowed(e, true);
    assert [] + above == above;
    NoDotDot(e.name);
    AboveAreDirectories(tree, done, e, Parts(e.name));
    DescendSafe(tree, [], above, true, MAX_HOPS);
    WithDirectoriesAdds(tree, [], above);
    made := WithDirectories(tree, [], above);
  }

  lemma TargetSafe(tree: Tree, made: Tree, done: seq<Entry>, e: Entry)
    requires Faithful(tree, done) && Safe(done, e) && e.kind == Link
    requires Extends(tree, made) && forall q | q in made && q !in tree :: made[q] == Dir
    ensures e.link.Some?
    ensures !Linked(made, Parts(e.link.value)).1 && Linked(made, Parts(e.link.value)).0 != Some(Dir)
  {
    assert e in done + [e] && EntryAllowed(e, true);
    var target := Parts(e.link.value);
    NoDotDot(e.link.value);
    if target != [] {
      AboveAreDirectories(tree, done, e, target);
      OnlyDirectoriesKept(tree, made, [], target[..|target| - 1]);
    }
    LinkedSafe(made, target);
  }

  lemma ExtractCases(tree: Tree, made: Tree, above: Path, e: Entry)
    requires Parts(e.name) != [] && above == Parts(e.name)[..|Parts(e.name)| - 1]
    requires Descend(tree, [], above, true, MAX_HOPS) == Walk(made, Some(above), false)
    requires Extends(tree, made)
    requires forall q | q in made && q !in tree :: made[q] == Dir && q <= above
    requires EntryAllowed(e, true)
    requires Parts(e.name) in tree ==> tree[Parts(e.name)] == Dir && e.kind == Directory
    requires e.kind == Link ==> !Linked(made, Parts(e.link.value)).1 && Linked(made, Parts(e.link.value)).0 != Some(Dir)
    ensures GoodStep(e, Extract(tree, e)) && Adds(tree, Extract(tree, e).tree, e)
  {
    var path := Parts(e.name);
    assert above + [path[|path| - 1]] == path;
    assert !(path <= above);
  }

  /** The extraction of member `i`, in its turn, goes as it should. */
  ghost predicate GoodAt(entries: seq<Entry>, i: nat)
    requires i < |entries|
  {
    GoodStep(entries[i], Extract(After(entries, i), entries[i]))
  }

  lemma RunStep(entries: seq<Entry>, n: nat)
    requires Admissible(entries, true) && n < |entries| && Faithful(After(entries, n), entries[..n])
    ensures Faithful(After(entries, n + 1), entries[..n + 1]) && GoodAt(entries, n)
  {
    var tree, done, e := After(entries, n), entries[..n], entries[n];
    assert entries[..n + 1] == done + [e];
    AdmissiblePrefix(entries, n + 1);
    ExtractSafe(tree, done, e);
    AddsKeeps(tree, Extract(tree, e).tree, done, e);
  }

  /** Over a whole extraction of an admissible archive, the tree stays faithful to the member names. */
  lemma {:induction false} RunKeeps(entries: seq<Entry>, n: nat)
    requires Admissible(entries, true) && n <= |entries|
    ensures Faithful(After(entries, n), entries[..n])
    decreases n
  {
    if n > 0 {
      RunKeeps(entries, n - 1);
      RunStep(entries, n - 1);
    }
  }

  /** Every member, in its turn, is extracted as it should be. */
  lemma EachTurn(entries: seq<Entry>, i: nat)
    requires Admissible(entries, true) && i < |entries|
    ensures GoodAt(entries, i)
  {
    RunKeeps(entries, i);
    RunStep(entries, i);
  }

  lemma AdmissiblePrefix(entries: seq<Entry>, n: nat)
    requires Admissible(entries, true) && n <= |entries|
    ensures Admissible(entries[..n], true)
  {
    forall e | e in entries[..n] ensures ClearEntry(entries[..n], e) {
      assert ClearEntry(entries, e);
    }
  }

  /** Extracting in this order, no lookup meets anything but directories and every member that is put
      anywhere is put at its own lexical path; at the end every file, directory and symbolic link is there
      with its own content, and nothing else but the directories above them. */
  ghost predicate SafeRun(entries: seq<Entry>, order: seq<Entry>) {
    && (forall i | 0 <= i < |order| :: GoodAt(order, i))
    && (forall e | e in entries :: Landed(After(order, |order|), e))
    && (forall q | q in After(order, |order|) :: Explained(q, After(order, |order|)[q], entries))
  }

  /** Link safety: an accepted archive may be extracted in any order. */
  lemma LinkSafe(entries: seq<Entry>, order: seq<Entry>)
    requires Admissible(entries, true) && multiset(order) == multiset(entries)
    ensures SafeRun(entries, order)
  {
    OrderIrrelevant(entries, order, true);
    forall i | 0 <= i < |order| ensures GoodAt(order, i) {
      EachTurn(order, i);
    }
    RunKeeps(order, |order|);
    assert order[..|order|] == order;
    SameMembers(entries, order);
    forall q | q in After(order, |order|) ensures Explained(q, After(order, |order|)[q], entries) {
      ExplainedBy(q, After(order, |order|)[q], order, entries);
    }
  }

  lemma ExplainedBy(q: Path, node: Node, order: seq<Entry>, entries: seq<Entry>)
    requires Explained(q, node, order) && forall e | e in order :: e in entries
    ensures Explained(q, node, entries)
  {
  }

  // ---- The check is not stricter than it needs to be ----

  /** A walk that runs into a file or link strays. */
  lemma {:induction false} DescendStrays(tree: Tree, at: Path, rest: Path, create: bool, hops: nat, k: nat)
    requires 1 <= k <= |rest| && DOT_DOT !in rest
    requires forall j | 1 <= j < k :: at + rest[..j] in tree && tree[at + rest[..j]] == Dir
    requires at + rest[..k] in tree && tree[at + rest[..k]] != Dir
    ensures Descend(tree, at, rest, create, hops).strayed
    decreases k
  {
    assert rest[..1] == [rest[0]];
    if k > 1 {
      var child := at + [rest[0]];
      assert at + rest[..1] == child;
      forall j | 1 <= j < k - 1 ensures child + rest[1..][..j] in tree && tree[child + rest[1..][..j]] == Dir {
        ShiftBack(at, rest, j);
      }
      ShiftBack(at, rest, k - 1);
      DescendStrays(tree, child, rest[1..], create, hops, k - 1);
    }
  }

  /** The path a member reaches through: its own name, or its hard-link target. */
  ghost predicate Reaches(e: Entry, path: Path) {
    path == Parts(e.name) || (IsLink(e) && path == Parts(e.link.value))
  }

  /** After the offending member alone, everything above it is a directory and it is not. */
  lemma Alone(a: Entry)
    requires EntryAllowed(a, true) && a.kind in {Regular, Symlink}
    ensures var tree := Extract(EMPTY, a).tree;
            && Parts(a.name) in tree && tree[Parts(a.name)] != Dir
            && forall j | 1 <= j < |Parts(a.name)| :: Parts(a.name)[..j] in tree && tree[Parts(a.name)[..j]] == Dir
  {
    var path := Parts(a.name);
    assert Faithful(EMPTY, []);
    assert [] + [a] == [a];
    ExtractSafe(EMPTY, [], a);
    var above := path[..|path| - 1];
    NoDotDot(a.name);
    AboveAreDirectories(EMPTY, [], a, path);
    DescendSafe(EMPTY, [], above, true, MAX_HOPS);
    DirectoriesMade(EMPTY, [], above);
    forall j | 1 <= j < |path| ensures path[..j] in Extract(EMPTY, a).tree && Extract(EMPTY, a).tree[path[..j]] == Dir {
      assert [] + above[..j] == path[..j];
      assert path[..j] != path;
    }
  }

  lemma {:induction false} DirectoriesMade(tree: Tree, at: Path, rest: Path)
    requires OnlyDirectories(tree, at, rest)
    ensures forall j | 1 <= j <= |rest| ::
              at + rest[..j] in WithDirectories(tree, at, rest) && WithDirectories(tree, at, rest)[at + rest[..j]] == Dir
    decreases |rest|
  {
    if rest != [] {
      var child := at + [rest[0]];
      var tree' := if child in tree then tree else tree[child := Dir];
      OnlyDirectoriesBelow(tree, at, rest);
      DirectoriesMade(tree', child, rest[1..]);
      WithDirectoriesAdds(tree', child, rest[1..]);
      forall j | 1 <= j <= |rest|
        ensures at + rest[..j] in WithDirectories(tree, at, rest) && WithDirectories(tree, at, rest)[at + rest[..j]] == Dir
      {
        Shift(at, rest, j);
        if j == 1 { assert at + rest[..1] == child; }
      }
    }
  }

  /** Walks only ever add nodes, and one that makes directories and does not stray arrives. */
  lemma {:induction false} DescendKeeps(tree: Tree, at: Path, rest: Path, create: bool, hops: nat)
    ensures Extends(tree, Descend(tree, at, rest, create, hops).tree)
    ensures create && !Descend(tree, at, rest, create, hops).strayed ==> Descend(tree, at, rest, create, hops).at.Some?
    decreases hops, |rest|
  {
    if rest == [] {
    } else if rest[0] == DOT_DOT {
      DescendKeeps(tree, Parent(at), rest[1..], create, hops);
    } else {
      var child := at + [rest[0]];
      if child !in tree {
        if create { DescendKeeps(tree[child := Dir], child, rest[1..], create, hops); }
      } else if tree[child] == Dir {
        DescendKeeps(tree, child, rest[1..], create, hops);
      } else if tree[child].SymbolicLink? && hops > 0 {
        var target := tree[child].target;
        var from := if target != [] && target[0] == SLASH then [] else at;
        DescendKeeps(tree, from, Parts(target) + rest[1..], create, hops - 1);
      }
    }
  }

  /** A tree in which `q` is a file or link below directories only. */
  ghost predicate Obstructed(tree: Tree, q: Path) {
    && q in tree && tree[q] != Dir
    && forall j | 1 <= j < |q| :: q[..j] in tree && tree[q[..j]] == Dir
  }

  lemma WalkObstructed(tree: Tree, q: Path, path: Path, create: bool)
    requires Obstructed(tree, q) && [] < q < path && DOT_DOT !in path
    ensures Descend(tree, [], path[..|path| - 1], create, MAX_HOPS).strayed
  {
    var above := path[..|path| - 1];
    forall j | 1 <= j <= |q| ensures [] + above[..j] == q[..j] {
    }
    assert q[..|q|] == q;
    DescendStrays(tree, [], above, create, MAX_HOPS, |q|);
  }

  /** Extracting a member that reaches through a file or link strays. */
  lemma ExtractStrays(tree: Tree, q: Path, e: Entry, path: Path)
    requires Obstructed(tree, q) && EntryAllowed(e, true) && Reaches(e, path) && [] < q < path
    ensures Extract(tree, e).strayed || (Parts(e.name) == [])
  {
    if path == Parts(e.name) {
      NoDotDot(e.name);
      WalkObstructed(tree, q, path, true);
    } else if Parts(e.name) != [] {
      NoDotDot(e.link.value);
      var above := Parts(e.name)[..|Parts(e.name)| - 1];
      var walk := Descend(tree, [], above, true, MAX_HOPS);
      DescendKeeps(tree, [], above, true, MAX_HOPS);
      if !walk.strayed {
        assert Obstructed(walk.tree, q);
        WalkObstructed(walk.tree, q, path, false);
      }
    }
  }

  lemma TakeOut(entries: seq<Entry>, a: Entry) returns (rest: seq<Entry>)
    requires a in entries
    ensures multiset([a] + rest) == multiset(entries)
    ensures forall b | b in entries && b != a :: b in rest
  {
    var i :| 0 <= i < |entries| && entries[i] == a;
    rest := entries[..i] + entries[i + 1..];
    assert entries == entries[..i] + [a] + entries[i + 1..];
    assert multiset(entries) == multiset(rest) + multiset{a};
    forall b | b in entries && b != a ensures b in rest {
      assert b in multiset(entries) && b in multiset(rest);
    }
  }

  lemma TwoInFront(entries: seq<Entry>, a: Entry, b: Entry) returns (order: seq<Entry>)
    requires a in entries && b in entries && a != b
    ensures |order| >= 2 && order[0] == a && order[1] == b && multiset(order) == multiset(entries)
  {
    var others := TakeOut(entries, a);
    var rest := TakeOut(others, b);
    order := [a] + ([b] + rest);
    assert multiset(order) == multiset{a} + multiset([b] + rest);
  }

  /** The converse of link safety: a member list with a file or symbolic link above another member's name
      or hard-link target has an order in which extraction walks into it. */
  lemma CheckIsNeeded(entries: seq<Entry>, a: Entry, b: Entry, path: Path) returns (order: seq<Entry>)
    requires AllAllowed(entries, true) && a in entries && b in entries && a.kind in {Regular, Symlink}
    requires Reaches(b, path) && Parts(a.name) < path
    ensures multiset(order) == multiset(entries) && |order| >= 2
    ensures Extract(After(order, 1), order[1]).strayed
  {
    assert EntryAllowed(a, true) && EntryAllowed(b, true);
    order := TwoInFront(entries, a, b);
    Alone(a);
    assert After(order, 1) == Extract(After(order, 0), a).tree;
    ExtractStrays(After(order, 1), Parts(a.name), b, path);
  }

  // ---- Hard links ----

  /** Every node hangs below another. */
  ghost predicate Rooted(tree: Tree) {
    forall q | q in tree && q != [] :: Parent(q) in tree
  }

  lemma {:induction false} RootedPrefix(tree: Tree, q: Path, k: nat)
    requires Rooted(tree) && q in tree && k <= |q|
    ensures q[..k] in tree
    decreases |q| - k
  {
    if k == |q| {
      assert q[..k] == q;
    } else {
      RootedPrefix(tree, q, k + 1);
      assert Parent(q[..k + 1]) == q[..k];
    }
  }

  lemma {:induction false} DescendFinds(tree: Tree, at: Path, rest: Path, hops: nat)
    requires OnlyDirectories(tree, at, rest) && DOT_DOT !in rest
    requires forall k | 1 <= k <= |rest| :: at + rest[..k] in tree
    ensures Descend(tree, at, rest, false, hops).at == Some(at + rest)
    decreases |rest|
  {
    if rest == [] {
      assert at + rest == at;
    } else {
      var child := at + [rest[0]];
      OnlyDirectoriesBelow(tree, at, rest);
      assert rest[..1] == [rest[0]] && at + rest[..1] == child;
      forall k | 1 <= k <= |rest[1..]| ensures child + rest[1..][..k] in tree {
        ShiftBack(at, rest, k);
      }
      assert child + rest[1..] == at + rest;
      DescendFinds(tree, child, rest[1..], hops);
    }
  }

  lemma {:induction false} WithDirectoriesRooted(tree: Tree, at: Path, rest: Path)
    requires Rooted(tree) && at in tree
    ensures Rooted(WithDirectories(tree, at, rest)) && at + rest in WithDirectories(tree, at, rest)
    decreases |rest|
  {
    if rest == [] {
      assert at + rest == at;
    } else {
      var child := at + [rest[0]];
      assert Parent(child) == at;
      assert child + rest[1..] == at + rest;
      WithDirectoriesRooted(if child in tree then tree else tree[child := Dir], child, rest[1..]);
    }
  }

  lemma {:induction false} RunRooted(entries: seq<Entry>, n: nat)
    requires Admissible(entries, true) && n <= |entries|
    ensures Rooted(After(entries, n))
    decreases n
  {
    if n > 0 {
      RunRooted(entries, n - 1);
      RootedStep(entries, n - 1);
    }
  }

  lemma RootedStep(entries: seq<Entry>, n: nat)
    requires Admissible(entries, true) && n < |entries| && Rooted(After(entries, n))
    ensures Rooted(After(entries, n + 1))
  {
    RunKeeps(entries, n);
    AdmissiblePrefix(entries, n + 1);
    assert entries[..n + 1] == entries[..n] + [entries[n]];
    ExtractRooted(After(entries, n), entries[..n], entries[n]);
  }

  lemma ExtractRooted(tree: Tree, done: seq<Entry>, e: Entry)
    requires Faithful(tree, done) && Safe(done, e) && Rooted(tree)
    ensures Rooted(Extract(tree, e).tree)
  {
    var path := Parts(e.name);
    if path != [] {
      assert e in done + [e] && EntryAllowed(e, true);
      var above := path[..|path| - 1];
      NoDotDot(e.name);
      AboveAreDirectories(tree, done, e, path);
      DescendSafe(tree, [], above, true, MAX_HOPS);
      WithDirectoriesRooted(tree, [], above);
      assert [] + above == above && Parent(path) == above && above + [path[|path| - 1]] == path;
    }
  }

  /** What a hard link shares is exactly the file or symbolic link at its target's lexical path. */
  lemma LinkedFinds(tree: Tree, target: Path)
    requires Rooted(tree) && [] in tree && tree[[]] == Dir && DOT_DOT !in target
    requires target != [] ==> OnlyDirectories(tree, [], target[..|target| - 1])
    ensures Linked(tree, target).0 == if target in tree && tree[target] != Dir then Some(tree[target]) else None
  {
    if target != [] {
      var above := target[..|target| - 1];
      assert [] + above == above && above + [target[|target| - 1]] == target;
      DescendSafe(tree, [], above, false, MAX_HOPS);
      if target in tree {
        forall k | 1 <= k <= |above| ensures [] + above[..k] in tree {
          RootedPrefix(tree, target, k);
          assert [] + above[..k] == target[..k];
        }
        DescendFinds(tree, [], above, MAX_HOPS);
      }
    }
  }

  lemma ExtractLink(tree: Tree, done: seq<Entry>, e: Entry)
    requires Faithful(tree, done) && Safe(done, e) && Rooted(tree) && e.kind == Link
    ensures e.link.Some?
    ensures var target, step := Parts(e.link.value), Extract(tree, e);
            && (step.placed.Some? <==> target in tree && tree[target] != Dir)
            && (step.placed.Some? ==> Parts(e.name) in step.tree && step.tree[Parts(e.name)] == tree[target])
  {
    assert e in done + [e] && EntryAllowed(e, true);
    var path, target := Parts(e.name), Parts(e.link.value);
    var above := path[..|path| - 1];
    assert [] + above == above && above + [path[|path| - 1]] == path;
    if path in tree { OwnPlace(tree, done, e); }
    NoDotDot(e.name);
    NoDotDot(e.link.value);
    AboveAreDirectories(tree, done, e, path);
    DescendSafe(tree, [], above, true, MAX_HOPS);
    WithDirectoriesAdds(tree, [], above);
    WithDirectoriesRooted(tree, [], above);
    var made := WithDirectories(tree, [], above);
    if target != [] {
      AboveAreDirectories(tree, done, e, target);
      OnlyDirectoriesKept(tree, made, [], target[..|target| - 1]);
    }
    LinkedFinds(made, target);
    LinkCases(tree, made, above, e);
  }

  lemma LinkCases(tree: Tree, made: Tree, above: Path, e: Entry)
    requires IsLink(e) && Parts(e.name) != [] && above == Parts(e.name)[..|Parts(e.name)| - 1]
    requires Descend(tree, [], above, true, MAX_HOPS) == Walk(made, Some(above), false)
    requires Extends(tree, made)
    requires forall q | q in made && q !in tree :: made[q] == Dir && q <= above
    requires Parts(e.name) !in tree
    requires var target := Parts(e.link.value);
             Linked(made, target).0 == if target in made && made[target] != Dir then Some(made[target]) else None
    ensures var target, step := Parts(e.link.value), Extract(tree, e);
            && (step.placed.Some? <==> target in tree && tree[target] != Dir)
            && (step.placed.Some? ==> Parts(e.name) in step.tree && step.tree[Parts(e.name)] == tree[target])
  {
    var path, target := Parts(e.name), Parts(e.link.value);
    NotMade(tree, made, above, path);
    var (node, strayed) := Linked(made, target);
    LinkPlaced(tree, made, above, e, node, strayed);
    LinkResult(tree, made, path, target, node, strayed, Extract(tree, e));
  }

  lemma NotMade(tree: Tree, made: Tree, above: Path, path: Path)
    requires path != [] && above == path[..|path| - 1] && path !in tree
    requires forall q | q in made && q !in tree :: q <= above
    ensures path !in made && above + [path[|path| - 1]] == path
  {
    assert !(path <= above);
  }

  lemma LinkResult(tree: Tree, made: Tree, path: Path, target: Path, node: Option<Node>, strayed: bool, step: Step)
    requires Extends(tree, made) && forall p | p in made && p !in tree :: made[p] == Dir
    requires node == if target in made && made[target] != Dir then Some(made[target]) else None
    requires step == if node == None then Step(made, None, strayed) else Step(made[path := node.value], Some(path), strayed)
    ensures step.placed.Some? <==> target in tree && tree[target] != Dir
    ensures step.placed.Some? ==> path in step.tree && step.tree[path] == tree[target]
  {
    OnlyDirectoriesAdded(tree, made, target);
  }

  lemma OnlyDirectoriesAdded(tree: Tree, made: Tree, q: Path)
    requires Extends(tree, made) && forall p | p in made && p !in tree :: made[p] == Dir
    ensures q in made && made[q] != Dir <==> q in tree && tree[q] != Dir
    ensures q in tree ==> q in made && made[q] == tree[q]
  {
  }

  /** What extracting a hard link does where its own place is free. */
  lemma LinkPlaced(tree: Tree, made: Tree, above: Path, e: Entry, node: Option<Node>, strayed: bool)
    requires IsLink(e) && Parts(e.name) != [] && above + [Parts(e.name)[|Parts(e.name)| - 1]] == Parts(e.name) && Parts(e.name) !in made
    requires Descend(tree, [], Parts(e.name)[..|Parts(e.name)| - 1], true, MAX_HOPS) == Walk(made, Some(above), false)
    requires Linked(made, Parts(e.link.value)) == (node, strayed)
    ensures Extract(tree, e) ==
              if node == None then Step(made, None, strayed) else Step(made[Parts(e.name) := node.value], Some(Parts(e.name)), strayed)
  {
  }

  /** A hard link is put in place exactly when its target's lexical path already holds a file or a
      symbolic link, and then shares that node. */
  lemma HardLinkShares(entries: seq<Entry>, i: nat)
    requires Admissible(entries, true) && i < |entries| && entries[i].kind == Link
    ensures entries[i].link.Some?
    ensures var tree, target, name := After(entries, i), Parts(entries[i].link.value), Parts(entries[i].name);
            && (Extract(tree, entries[i]).placed.Some? <==> target in tree && tree[target] != Dir)
            && (target in tree && tree[target] != Dir ==>
                  name in After(entries, i + 1) && After(entries, i + 1)[name] == tree[target])
  {
    RunKeeps(entries, i);
    RunRooted(entries, i);
    AdmissiblePrefix(entries, i + 1);
    assert entries[..i + 1] == entries[..i] + [entries[i]];
    ExtractLink(After(entries, i), entries[..i], entries[i]);
  }

  /** Nothing but directories above a hard link that shares a file put in place before. */
  lemma LinkObstructs(t: Entry, a: Entry)
    requires EntryAllowed(t, true) && t.kind in {Regular, Symlink} && EntryAllowed(a, true) && IsLink(a)
    requires Parts(a.link.value) == Parts(t.name) && !(Parts(a.name) <= Parts(t.name)) && !(Parts(t.name) <= Parts(a.name))
    ensures Obstructed(After([t, a], 2), Parts(a.name))
  {
    var both, q := [t, a], Parts(a.name);
    PairAdmissible(t, a);
    assert both[..2] == both && both[..1] == [t];
    RunKeeps(both, 1);
    RunKeeps(both, 2);
    RunRooted(both, 2);
    HardLinkShares(both, 1);
    assert Landed(After(both, 1), t);
    var tree := After(both, 2);
    forall j | 1 <= j < |q| ensures q[..j] in tree && tree[q[..j]] == Dir {
      RootedPrefix(tree, q, j);
      assert Explained(q[..j], tree[q[..j]], both);
      assert q[..j] <= q && q[..j] != q;
    }
  }

  lemma PairAdmissible(t: Entry, a: Entry)
    requires EntryAllowed(t, true) && t.kind in {Regular, Symlink} && EntryAllowed(a, true) && IsLink(a)
    requires Parts(a.link.value) == Parts(t.name) && !(Parts(a.name) <= Parts(t.name)) && !(Parts(t.name) <= Parts(a.name))
    ensures Admissible([t, a], true)
  {
    forall e | e in [t, a] ensures EntryAllowed(e, true) && ClearEntry([t, a], e) {
    }
  }

  lemma ThreeInFront(entries: seq<Entry>, a: Entry, b: Entry, c: Entry) returns (order: seq<Entry>)
    requires a in entries && b in entries && c in entries && a != b && a != c && b != c
    ensures |order| >= 3 && order[..3] == [a, b, c] && multiset(order) == multiset(entries)
  {
    var others := TakeOut(entries, a);
    var rest := TwoInFront(others, b, c);
    order := [a] + rest;
    assert multiset(order) == multiset{a} + multiset(rest);
  }

  lemma AfterTwo(order: seq<Entry>, t: Entry, a: Entry)
    requires |order| >= 2 && order[0] == t && order[1] == a
    ensures After(order, 1) == Extract(EMPTY, t).tree && After(order, 2) == After([t, a], 2)
  {
    assert After(order, 0) == EMPTY;
    assert After(order, 1) == Extract(After(order, 0), t).tree == After([t, a], 1);
  }

  /** The same with a hard link above another member, if its target is a listed file or symbolic link that does
      not lie below the link itself: extracted in the order target, link, member, something strays. */
  lemma LinkCheckIsNeeded(entries: seq<Entry>, t: Entry, a: Entry, b: Entry, path: Path) returns (order: seq<Entry>)
    requires AllAllowed(entries, true) && t in entries && a in entries && b in entries
    requires t.kind in {Regular, Symlink} && IsLink(a) && Parts(a.link.value) == Parts(t.name)
    requires !(Parts(a.name) <= Parts(t.name)) && Reaches(b, path) && Parts(a.name) < path
    ensures multiset(order) == multiset(entries) && |order| >= 3
    ensures Extract(After(order, 1), order[1]).strayed || Extract(After(order, 2), order[2]).strayed
  {
    assert EntryAllowed(t, true) && EntryAllowed(a, true) && EntryAllowed(b, true);
    order := ThreeInFront(entries, t, a, b);
    assert order[0] == order[..3][0] && order[1] == order[..3][1] && order[2] == order[..3][2];
    AfterTwo(order, t, a);
    if Parts(t.name) < Parts(a.name) {
      Alone(t);
      ExtractStrays(After(order, 1), Parts(t.name), a, Parts(a.name));
    } else {
      LinkObstructs(t, a);
      ExtractStrays(After(order, 2), Parts(a.name), b, path);
    }
  }
}
