/** The names of archive members: byte strings normalised to paths of components, and the checks that
    admit a member list. */
module ArchiveNames {
  import opened Options
  import opened ByteStrings

  const SLASH: Byte := 47
  const DOT: Bytes := [46]
  const DOT_DOT: Bytes := [46, 46]
  const MAX_NAME: nat := 4096

  type Path = seq<Bytes>

  datatype Kind = Regular | Directory | Symlink | Link | Other

  /** One member as the tar reader reports it. */
  datatype Entry = Entry(name: Bytes, kind: Kind, link: Option<Bytes>)

  // ---- Splitting and joining ----

  function Split(s: Bytes): (parts: seq<Bytes>)
    ensures parts != []
  {
    if s == [] then [[]]
    else
      var rest := Split(s[1..]);
      if s[0] == SLASH then [[]] + rest else [[s[0]] + rest[0]] + rest[1..]
  }

  function Meaningful(parts: seq<Bytes>): Path {
    if parts == [] then []
    else (if parts[0] == [] || parts[0] == DOT then [] else [parts[0]]) + Meaningful(parts[1..])
  }

  function Parts(name: Bytes): Path { Meaningful(Split(name)) }

  function Join(path: Path): Bytes {
    if path == [] then []
    else if |path| == 1 then path[0]
    else Join(path[..|path| - 1]) + [SLASH] + path[|path| - 1]
  }

  predicate CleanPart(part: Bytes) { part != [] && SLASH !in part }

  predicate Clean(path: Path) {
    forall i | 0 <= i < |path| :: CleanPart(path[i])
  }

  lemma {:induction false} SplitHasNoSlash(s: Bytes)
    ensures forall i | 0 <= i < |Split(s)| :: SLASH !in Split(s)[i]
  {
    if s != [] {
      SplitHasNoSlash(s[1..]);
    }
  }

  lemma {:induction false} MeaningfulIsClean(parts: seq<Bytes>)
    requires forall i | 0 <= i < |parts| :: SLASH !in parts[i]
    ensures Clean(Meaningful(parts))
  {
    if parts != [] {
      MeaningfulIsClean(parts[1..]);
    }
  }

  lemma PartsClean(name: Bytes)
    ensures Clean(Parts(name))
  {
    SplitHasNoSlash(name);
    MeaningfulIsClean(Split(name));
  }

  /** Position of the last slash, or -1. */
  function LastSlash(s: Bytes): (at: int)
    ensures -1 <= at < |s|
    ensures at >= 0 ==> s[at] == SLASH
    ensures forall i | at < i < |s| :: s[i] != SLASH
  {
    if s == [] then -1
    else if s[|s| - 1] == SLASH then |s| - 1
    else LastSlash(s[..|s| - 1])
  }

  lemma LastSlashIs(s: Bytes, front: Bytes, last: Bytes)
    requires s == front + [SLASH] + last && SLASH !in last
    ensures LastSlash(s) == |front| && s[..|front|] == front && s[|front| + 1..] == last
  {
    assert s[|front|] == SLASH;
    assert forall i | |front| < i < |s| :: s[i] == last[i - |front| - 1];
  }

  /** Cutting a joined path at its last slash drops its last component. */
  lemma JoinCut(path: Path)
    requires Clean(path) && path != []
    ensures Join(path) != []
    ensures |path| == 1 ==> LastSlash(Join(path)) == -1
    ensures |path| > 1 ==>
              && LastSlash(Join(path)) >= 0
              && Join(path)[..LastSlash(Join(path))] == Join(path[..|path| - 1])
              && Join(path)[LastSlash(Join(path)) + 1..] == path[|path| - 1]
  {
    var last := path[|path| - 1];
    assert CleanPart(last);
    if |path| > 1 {
      LastSlashIs(Join(path), Join(path[..|path| - 1]), last);
    } else {
      assert Join(path) == last;
    }
  }

  /** Distinct component paths have distinct normalised names. */
  lemma {:induction false} JoinInjective(a: Path, b: Path)
    requires Clean(a) && Clean(b) && Join(a) == Join(b)
    ensures a == b
    decreases |a|
  {
    if a == [] || b == [] {
      if a != [] { JoinCut(a); }
      if b != [] { JoinCut(b); }
    } else {
      JoinCut(a);
      JoinCut(b);
      if |a| > 1 && |b| > 1 {
        JoinInjective(a[..|a| - 1], b[..|b| - 1]);
      }
      assert |a| == |b| && a[|a| - 1] == b[|b| - 1];
      assert a == a[..|a| - 1] + [a[|a| - 1]];
      assert b == b[..|b| - 1] + [b[|b| - 1]];
    }
  }

  lemma SameNormalised(a: Bytes, b: Bytes)
    ensures Join(Parts(a)) == Join(Parts(b)) <==> Parts(a) == Parts(b)
  {
    PartsClean(a);
    PartsClean(b);
    if Join(Parts(a)) == Join(Parts(b)) { JoinInjective(Parts(a), Parts(b)); }
  }

  lemma {:induction false} SplitPart(part: Bytes)
    requires SLASH !in part
    ensures Split(part) == [part]
  {
    if part != [] {
      SplitPart(part[1..]);
      assert [part[0]] + part[1..] == part;
    }
  }

  lemma {:induction false} SplitSlash(a: Bytes, b: Bytes)
    ensures Split(a + [SLASH] + b) == Split(a) + Split(b)
  {
    var s := a + [SLASH] + b;
    if a == [] {
      assert s[1..] == b;
    } else {
      SplitSlash(a[1..], b);
      assert s[0] == a[0] && s[1..] == a[1..] + [SLASH] + b;
      Prepended(a[0], Split(a[1..]), Split(b));
    }
  }

  lemma Prepended(c: Byte, x: seq<Bytes>, y: seq<Bytes>)
    requires x != []
    ensures [[c] + (x + y)[0]] + (x + y)[1..] == [[c] + x[0]] + x[1..] + y
    ensures [[]] + (x + y) == [[]] + x + y
  {
  }

  /** Splitting undoes joining. */
  lemma {:induction false} SplitJoin(path: Path)
    requires Clean(path) && path != []
    ensures Split(Join(path)) == path
    decreases |path|
  {
    var front, last := path[..|path| - 1], path[|path| - 1];
    assert CleanPart(last);
    SplitPart(last);
    if |path| > 1 {
      SplitJoin(front);
      SplitSlash(Join(front), last);
    }
    assert path == front + [last];
  }

  lemma {:induction false} MeaningfulAll(parts: seq<Bytes>)
    requires forall i | 0 <= i < |parts| :: parts[i] != [] && parts[i] != DOT
    ensures Meaningful(parts) == parts
  {
    if parts != [] { MeaningfulAll(parts[1..]); }
  }

  /** A name joined from plain components is its own normal form. */
  lemma PlainName(path: Path)
    requires path != [] && Clean(path) && DOT !in path
    ensures Parts(Join(path)) == path && Split(Join(path)) == path
  {
    SplitJoin(path);
    MeaningfulAll(path);
  }

  // ---- What is admitted ----

  predicate ValidPath(name: Bytes) {
    && 0 < |name| <= MAX_NAME
    && name[0] != SLASH
    && 0 !in name
    && DOT_DOT !in Split(name)
  }

  predicate ValidTarget(link: Option<Bytes>) {
    link.Some? && 0 < |link.value| <= MAX_NAME && 0 !in link.value
  }

  predicate EntryAllowed(e: Entry, tree: bool) {
    && ValidPath(e.name)
    && e.kind != Other
    && (tree && Parts(e.name) == [] ==> e.kind == Directory)
    && (e.kind == Link ==> e.link.Some? && ValidPath(e.link.value))
    && (e.kind == Symlink ==> ValidTarget(e.link))
  }

  predicate IsLink(e: Entry) { e.kind == Link && e.link.Some? }

  ghost predicate Distinct(entries: seq<Entry>) {
    forall i, j | 0 <= i < j < |entries| :: Parts(entries[i].name) != Parts(entries[j].name)
  }

  /** Every member strictly above a path is a directory. */
  ghost predicate Clear(entries: seq<Entry>, path: Path) {
    forall e | e in entries :: [] < Parts(e.name) < path ==> e.kind == Directory
  }

  ghost predicate ClearEntry(entries: seq<Entry>, e: Entry) {
    && Clear(entries, Parts(e.name))
    && (IsLink(e) ==> Clear(entries, Parts(e.link.value)))
  }

  ghost predicate Admissible(entries: seq<Entry>, tree: bool) {
    && AllAllowed(entries, tree)
    && Distinct(entries)
    && (tree ==> AllClear(entries))
  }

  ghost predicate AllAllowed(entries: seq<Entry>, tree: bool) {
    forall e | e in entries :: EntryAllowed(e, tree)
  }

  ghost predicate AllClear(entries: seq<Entry>) {
    forall e | e in entries :: ClearEntry(entries, e)
  }

  // ---- The checks as they are carried out ----

  /** A table that maps exactly these keys to these kinds. */
  ghost predicate Table(names: map<Bytes, Kind>, keys: seq<Bytes>, kinds: seq<Kind>) {
    && |keys| == |kinds|
    && (forall i | 0 <= i < |keys| :: keys[i] in names && names[keys[i]] == kinds[i])
    && (forall key | key in names :: key in keys)
  }

  ghost function KeysOf(entries: seq<Entry>): (keys: seq<Bytes>)
    ensures |keys| == |entries|
  {
    seq(|entries|, i requires 0 <= i < |entries| => Join(Parts(entries[i].name)))
  }

  ghost function KindsOf(entries: seq<Entry>): (kinds: seq<Kind>)
    ensures |kinds| == |entries|
  {
    seq(|entries|, i requires 0 <= i < |entries| => entries[i].kind)
  }

  /** The name table holds exactly the kinds of the members seen, under their normalised names. */
  ghost predicate Tabulates(names: map<Bytes, Kind>, entries: seq<Entry>) {
    Table(names, KeysOf(entries), KindsOf(entries))
  }

  lemma Listed(names: map<Bytes, Kind>, entries: seq<Entry>, e: Entry)
    requires Tabulates(names, entries) && e in entries
    ensures Join(Parts(e.name)) in names && names[Join(Parts(e.name))] == e.kind
  {
    var i :| 0 <= i < |entries| && entries[i] == e;
    assert KeysOf(entries)[i] in names;
  }

  lemma Holder(names: map<Bytes, Kind>, entries: seq<Entry>, key: Bytes) returns (e: Entry)
    requires Tabulates(names, entries) && key in names
    ensures e in entries && key == Join(Parts(e.name))
  {
    var i :| 0 <= i < |entries| && KeysOf(entries)[i] == key;
    e := entries[i];
  }

  predicate DirectoryOrAbsent(names: map<Bytes, Kind>, key: Bytes) {
    key in names ==> names[key] == Directory
  }

  /** No proper prefix of a name, cut at a slash, is listed as anything but a directory. */
  predicate WalkClear(names: map<Bytes, Kind>, name: Bytes)
    decreases |name|
  {
    var at := LastSlash(name);
    at < 0 || (DirectoryOrAbsent(names, name[..at]) && WalkClear(names, name[..at]))
  }

  /** Strip one component after another and look each remaining prefix up. */
  method BelowDirectories(names: map<Bytes, Kind>, name: Bytes) returns (ok: bool)
    ensures ok <==> WalkClear(names, name)
  {
    var prefix := name;
    while LastSlash(prefix) >= 0
      invariant WalkClear(names, name) <==> WalkClear(names, prefix)
      decreases |prefix|
    {
      prefix := prefix[..LastSlash(prefix)];
      if prefix in names && names[prefix] != Directory { return false; }
    }
    return true;
  }

  ghost predicate ClearBelow(names: map<Bytes, Kind>, path: Path, n: nat)
    requires n <= |path|
  {
    forall k | 1 <= k < n :: DirectoryOrAbsent(names, Join(path[..k]))
  }

  /** Cutting at slashes visits exactly the proper prefixes of the path. */
  lemma {:induction false} WalkVisits(names: map<Bytes, Kind>, path: Path, n: nat)
    requires Clean(path) && n <= |path|
    ensures WalkClear(names, Join(path[..n])) <==> ClearBelow(names, path, n)
    decreases n
  {
    if n == 0 {
    } else {
      JoinCut(path[..n]);
      assert path[..n][..n - 1] == path[..n - 1];
      if n > 1 { WalkVisits(names, path, n - 1); }
    }
  }

  /** The byte-level walk decides the component-level property. */
  lemma WalkDecides(names: map<Bytes, Kind>, entries: seq<Entry>, path: Path)
    requires Clean(path) && Tabulates(names, entries)
    ensures WalkClear(names, Join(path)) <==> Clear(entries, path)
  {
    WalkVisits(names, path, |path|);
    assert path[..|path|] == path;
    if Clear(entries, path) {
      forall k | 1 <= k < |path| ensures DirectoryOrAbsent(names, Join(path[..k])) {
        ClearPrefix(names, entries, path, k);
      }
    } else {
      var e :| e in entries && [] < Parts(e.name) < path && e.kind != Directory;
      var k := |Parts(e.name)|;
      assert path[..k] == Parts(e.name);
      Listed(names, entries, e);
      assert !DirectoryOrAbsent(names, Join(path[..k]));
    }
  }

  lemma ClearPrefix(names: map<Bytes, Kind>, entries: seq<Entry>, path: Path, k: nat)
    requires Clean(path) && Tabulates(names, entries) && Clear(entries, path) && 1 <= k < |path|
    ensures DirectoryOrAbsent(names, Join(path[..k]))
  {
    if Join(path[..k]) in names {
      var e := Holder(names, entries, Join(path[..k]));
      Listed(names, entries, e);
      PartsClean(e.name);
      JoinInjective(path[..k], Parts(e.name));
      assert [] < Parts(e.name) < path;
    }
  }

  /** The collected targets are the normalised targets of the hard links. */
  ghost predicate TargetsOf(targets: seq<Bytes>, entries: seq<Entry>) {
    && (forall e | e in entries && IsLink(e) :: Join(Parts(e.link.value)) in targets)
    && (forall t | t in targets :: exists e | e in entries :: IsLink(e) && t == Join(Parts(e.link.value)))
  }

  lemma EmptyKey(name: Bytes)
    ensures Join(Parts(name)) == [] <==> Parts(name) == []
  {
    PartsClean(name);
    if Parts(name) != [] { JoinCut(Parts(name)); }
  }

  /** What the first pass looks at in one entry. */
  method CheckEntry(e: Entry, tree: bool, names: map<Bytes, Kind>) returns (ok: bool)
    ensures ok <==> EntryAllowed(e, tree) && Join(Parts(e.name)) !in names
  {
    var key := Join(Parts(e.name));
    EmptyKey(e.name);
    if !ValidPath(e.name) || (tree && key == [] && e.kind != Directory) || key in names { return false; }
    if e.kind == Other { return false; }
    if e.kind == Link && !(e.link.Some? && ValidPath(e.link.value)) { return false; }
    if e.kind == Symlink && !ValidTarget(e.link) { return false; }
    return true;
  }

  lemma TableStep(names: map<Bytes, Kind>, keys: seq<Bytes>, kinds: seq<Kind>, key: Bytes, kind: Kind)
    requires Table(names, keys, kinds) && key !in names
    ensures Table(names[key := kind], keys + [key], kinds + [kind])
  {
    assert forall k | k in keys :: k in keys + [key];
  }

  lemma TabulatesStep(names: map<Bytes, Kind>, seen: seq<Entry>, e: Entry)
    requires Tabulates(names, seen) && Join(Parts(e.name)) !in names
    ensures Tabulates(names[Join(Parts(e.name)) := e.kind], seen + [e])
  {
    var key := Join(Parts(e.name));
    TableStep(names, KeysOf(seen), KindsOf(seen), key, e.kind);
    assert KeysOf(seen + [e]) == KeysOf(seen) + [key];
    assert KindsOf(seen + [e]) == KindsOf(seen) + [e.kind];
  }

  lemma DistinctStep(names: map<Bytes, Kind>, seen: seq<Entry>, e: Entry)
    requires Tabulates(names, seen) && Distinct(seen)
    ensures Distinct(seen + [e]) <==> Join(Parts(e.name)) !in names
  {
    if Join(Parts(e.name)) in names {
      var x := Holder(names, seen, Join(Parts(e.name)));
      var j :| 0 <= j < |seen| && seen[j] == x;
      SameNormalised(x.name, e.name);
      assert (seen + [e])[j] == x && (seen + [e])[|seen|] == e;
    } else {
      forall j | 0 <= j < |seen| ensures Parts(seen[j].name) != Parts(e.name) {
        Listed(names, seen, seen[j]);
      }
    }
  }

  lemma TargetsStep(targets: seq<Bytes>, seen: seq<Entry>, e: Entry)
    requires TargetsOf(targets, seen)
    ensures !IsLink(e) ==> TargetsOf(targets, seen + [e])
    ensures IsLink(e) ==> TargetsOf(targets + [Join(Parts(e.link.value))], seen + [e])
  {
    forall t | t in targets ensures exists x | x in seen + [e] :: IsLink(x) && t == Join(Parts(x.link.value)) {
      var x :| x in seen && IsLink(x) && t == Join(Parts(x.link.value));
      assert x in seen + [e];
    }
    assert e in seen + [e];
  }

  lemma DistinctPrefix(entries: seq<Entry>, n: nat)
    requires n <= |entries| && Distinct(entries)
    ensures Distinct(entries[..n])
  {
  }

  /** First pass: every entry by itself, and no name twice. */
  method Tabulate(entries: seq<Entry>, tree: bool) returns (ok: bool, names: map<Bytes, Kind>, targets: seq<Bytes>)
    ensures ok <==> AllAllowed(entries, tree) && Distinct(entries)
    ensures ok ==> Tabulates(names, entries)
    ensures ok && tree ==> TargetsOf(targets, entries)
  {
    names, targets := map[], [];
    for i := 0 to |entries|
      invariant AllAllowed(entries[..i], tree)
      invariant Distinct(entries[..i]) && Tabulates(names, entries[..i])
      invariant tree ==> TargetsOf(targets, entries[..i])
    {
      var e := entries[i];
      assert entries[..i + 1] == entries[..i] + [e];
      DistinctStep(names, entries[..i], e);
      ok := CheckEntry(e, tree, names);
      if !ok {
        if Distinct(entries) { DistinctPrefix(entries, i + 1); }
        return;
      }
      TabulatesStep(names, entries[..i], e);
      names := names[Join(Parts(e.name)) := e.kind];
      if tree {
        TargetsStep(targets, entries[..i], e);
        if e.kind == Link { targets := targets + [Join(Parts(e.link.value))]; }
      }
    }
    assert entries[..|entries|] == entries;
    ok := true;
  }

  /** Second pass over the member names, in the order the table yields them. */
  method CheckMembers(names: map<Bytes, Kind>) returns (ok: bool)
    ensures ok <==> forall name | name in names :: WalkClear(names, name)
  {
    var todo := names.Keys;
    while todo != {}
      invariant todo <= names.Keys
      invariant forall name | name in names && name !in todo :: WalkClear(names, name)
    {
      var name :| name in todo;
      ok := BelowDirectories(names, name);
      if !ok { return; }
      todo := todo - {name};
    }
    return true;
  }

  /** Second pass over the hard-link targets. */
  method CheckTargets(names: map<Bytes, Kind>, targets: seq<Bytes>) returns (ok: bool)
    ensures ok <==> forall t | t in targets :: WalkClear(names, t)
  {
    for i := 0 to |targets|
      invariant forall t | t in targets[..i] :: WalkClear(names, t)
    {
      ok := BelowDirectories(names, targets[i]);
      if !ok { return; }
    }
    return true;
  }

  /** The walks over the table decide the property of all members. */
  lemma MembersDecide(names: map<Bytes, Kind>, entries: seq<Entry>)
    requires Tabulates(names, entries)
    ensures (forall name | name in names :: WalkClear(names, name)) <==> (forall e | e in entries :: Clear(entries, Parts(e.name)))
  {
    forall e | e in entries
      ensures Join(Parts(e.name)) in names && (WalkClear(names, Join(Parts(e.name))) <==> Clear(entries, Parts(e.name)))
    {
      Listed(names, entries, e);
      PartsClean(e.name);
      WalkDecides(names, entries, Parts(e.name));
    }
    forall name | name in names ensures exists e | e in entries :: name == Join(Parts(e.name)) {
      var e := Holder(names, entries, name);
    }
  }

  lemma TargetsDecide(names: map<Bytes, Kind>, entries: seq<Entry>, targets: seq<Bytes>)
    requires Tabulates(names, entries) && TargetsOf(targets, entries)
    ensures (forall t | t in targets :: WalkClear(names, t)) <==> (forall e | e in entries && IsLink(e) :: Clear(entries, Parts(e.link.value)))
  {
    forall e | e in entries && IsLink(e) ensures WalkClear(names, Join(Parts(e.link.value))) <==> Clear(entries, Parts(e.link.value)) {
      PartsClean(e.link.value);
      WalkDecides(names, entries, Parts(e.link.value));
    }
  }

  lemma WalksDecide(names: map<Bytes, Kind>, entries: seq<Entry>, targets: seq<Bytes>)
    requires Tabulates(names, entries) && TargetsOf(targets, entries)
    ensures AllClear(entries) <==>
              && (forall name | name in names :: WalkClear(names, name))
              && (forall t | t in targets :: WalkClear(names, t))
  {
    MembersDecide(names, entries);
    TargetsDecide(names, entries, targets);
    if AllClear(entries) {
      forall e | e in entries ensures Clear(entries, Parts(e.name)) && (IsLink(e) ==> Clear(entries, Parts(e.link.value))) {
        assert ClearEntry(entries, e);
      }
    }
  }

  /** All checks on the member list of an archive. */
  method CheckNames(entries: seq<Entry>, tree: bool) returns (ok: bool)
    ensures ok <==> Admissible(entries, tree)
  {
    var names, targets;
    ok, names, targets := Tabulate(entries, tree);
    if !ok || !tree { return; }
    WalksDecide(names, entries, targets);
    ok := CheckMembers(names);
    if !ok { return; }
    ok := CheckTargets(names, targets);
  }

  // ---- The order of the entries does not matter ----

  lemma SameMembers(a: seq<Entry>, b: seq<Entry>)
    requires multiset(a) == multiset(b)
    ensures forall e :: e in a <==> e in b
  {
    forall e ensures e in a <==> e in b {
      assert e in multiset(a) <==> e in a;
      assert e in multiset(b) <==> e in b;
    }
  }

  lemma TwiceCounted(a: seq<Entry>, i: nat, j: nat)
    requires i < j < |a| && a[i] == a[j]
    ensures multiset(a)[a[i]] >= 2
  {
    assert a == a[..i] + [a[i]] + a[i + 1..j] + [a[j]] + a[j + 1..];
  }

  lemma {:induction false} CountedTwice(a: seq<Entry>, e: Entry)
    requires multiset(a)[e] >= 2
    ensures exists i, j | 0 <= i < j < |a| :: a[i] == e && a[j] == e
  {
    assert a == [a[0]] + a[1..];
    if a[0] == e {
      assert e in multiset(a[1..]);
      var j :| 0 <= j < |a[1..]| && a[1..][j] == e;
      assert a[j + 1] == e;
    } else {
      CountedTwice(a[1..], e);
      var i, j :| 0 <= i < j < |a[1..]| && a[1..][i] == e && a[1..][j] == e;
      assert a[i + 1] == e && a[j + 1] == e;
    }
  }

  lemma DistinctPair(a: seq<Entry>, b: seq<Entry>, i: nat, j: nat)
    requires multiset(a) == multiset(b) && Distinct(a) && (forall e :: e in a <==> e in b) && i < j < |b|
    ensures Parts(b[i].name) != Parts(b[j].name)
  {
    if b[i] == b[j] {
      TwiceCounted(b, i, j);
      CountedTwice(a, b[i]);
      assert false;
    }
    assert b[i] in a && b[j] in a;
    var x :| 0 <= x < |a| && a[x] == b[i];
    var y :| 0 <= y < |a| && a[y] == b[j];
    assert x < y || y < x;
  }

  lemma DistinctKept(a: seq<Entry>, b: seq<Entry>)
    requires multiset(a) == multiset(b) && Distinct(a)
    ensures Distinct(b)
  {
    SameMembers(a, b);
    forall i, j | 0 <= i < j < |b| ensures Parts(b[i].name) != Parts(b[j].name) {
      DistinctPair(a, b, i, j);
    }
  }

  /** Acceptance depends on which members there are, not on the order they come in. */
  lemma OrderIrrelevant(a: seq<Entry>, b: seq<Entry>, tree: bool)
    requires multiset(a) == multiset(b)
    ensures Admissible(a, tree) <==> Admissible(b, tree)
  {
    SameMembers(a, b);
    if Distinct(a) { DistinctKept(a, b); }
    if Distinct(b) { DistinctKept(b, a); }
  }
}
