/** Which member names and link targets are admitted, said of the bytes themselves. */
module NameFacts {
  import opened Options
  import opened ByteStrings
  import opened ArchiveNames

  /** A whole component of the name starts at this position: it holds no slash and stands between slashes or ends. */
  ghost predicate ComponentAt(name: Bytes, i: nat, part: Bytes) {
    && i + |part| <= |name| && name[i..i + |part|] == part && 47 !in part
    && (i == 0 || name[i - 1] == 47)
    && (i + |part| == |name| || name[i + |part|] == 47)
  }

  ghost predicate HasComponent(name: Bytes, part: Bytes) {
    exists i: nat :: ComponentAt(name, i, part)
  }

  lemma Shifted(name: Bytes, i: nat, part: Bytes)
    requires name != [] && (i > 0 || name[0] == SLASH)
    ensures ComponentAt(name, i + 1, part) <==> ComponentAt(name[1..], i, part)
  {
    if i + 1 + |part| <= |name| {
      assert name[i + 1..i + 1 + |part|] == name[1..][i..i + |part|];
    }
  }

  /** The first component, and the only one at the start. */
  lemma {:induction false} FirstComponent(name: Bytes, part: Bytes)
    ensures ComponentAt(name, 0, part) <==> part == Split(name)[0]
  {
    if name != [] && name[0] != SLASH {
      var rest := name[1..];
      if part != [] {
        FirstComponent(rest, part[1..]);
        if ComponentAt(rest, 0, part[1..]) && part[0] == name[0] {
          assert name[0..|part|] == [name[0]] + rest[0..|part| - 1] == part;
        }
        if ComponentAt(name, 0, part) {
          assert rest[0..|part| - 1] == name[0..|part|][1..] == part[1..];
          assert part == [part[0]] + part[1..];
        }
      }
    }
  }

  lemma {:induction false} LaterComponents(name: Bytes, part: Bytes)
    ensures part in Split(name)[1..] <==> exists i: nat | i > 0 :: ComponentAt(name, i, part)
  {
    if name != [] {
      var rest := name[1..];
      LaterComponents(rest, part);
      FirstComponent(rest, part);
      if name[0] == SLASH {
        assert Split(name)[1..] == Split(rest) == [Split(rest)[0]] + Split(rest)[1..];
        if part in Split(rest) {
          var i: nat :| ComponentAt(rest, i, part);
          Shifted(name, i, part);
        }
        if i: nat :| i > 0 && ComponentAt(name, i, part) {
          Shifted(name, i - 1, part);
        }
      } else {
        assert Split(name)[1..] == Split(rest)[1..];
        if i: nat :| i > 0 && ComponentAt(rest, i, part) {
          Shifted(name, i, part);
          assert ComponentAt(name, i + 1, part);
        }
        if i: nat :| i > 0 && ComponentAt(name, i, part) {
          assert i > 1;
          Shifted(name, i - 1, part);
        }
      }
    }
  }

  /** Splitting finds exactly the components of a name. */
  lemma SplitExactly(name: Bytes, part: Bytes)
    ensures part in Split(name) <==> HasComponent(name, part)
  {
    FirstComponent(name, part);
    LaterComponents(name, part);
    assert Split(name) == [Split(name)[0]] + Split(name)[1..];
  }

  /** A name is admitted exactly if it has 1 to 4096 bytes, is relative, holds no NUL, and has no component that
      is two dots. */
  lemma ValidPathExactly(name: Bytes)
    ensures ValidPath(name) <==>
              && 1 <= |name| <= 4096 && name[0] != 47
              && (forall i | 0 <= i < |name| :: name[i] != 0)
              && !HasComponent(name, [46, 46])
  {
    SplitExactly(name, [46, 46]);
  }

  /** A member is admitted exactly if its name is, it is a plain file, a directory or a link, the root of a
      tree is a directory, a hard link's target is an admitted name, and a symbolic link's target has 1 to 4096 bytes
      without NUL. */
  lemma EntryExactly(e: Entry, tree: bool)
    ensures EntryAllowed(e, tree) <==>
              && ValidPath(e.name)
              && (tree && (forall part | HasComponent(e.name, part) :: part == [] || part == [46]) ==> e.kind == Directory)
              && match e.kind
                 case Regular => true
                 case Directory => true
                 case Link => e.link.Some? && ValidPath(e.link.value)
                 case Symlink => e.link.Some? && 1 <= |e.link.value| <= 4096 && forall i | 0 <= i < |e.link.value| :: e.link.value[i] != 0
                 case Other => false
  {
    RootName(e.name);
  }

  /** A name stands for the root exactly if all its components are empty or one dot. */
  lemma RootName(name: Bytes)
    ensures Parts(name) == [] <==> forall part | HasComponent(name, part) :: part == [] || part == [46]
  {
    NothingMeaningful(Split(name));
    forall part ensures part in Split(name) <==> HasComponent(name, part) {
      SplitExactly(name, part);
    }
  }

  predicate Skipped(part: Bytes) { part == [] || part == DOT }

  lemma {:induction false} NothingMeaningful(parts: seq<Bytes>)
    ensures Meaningful(parts) == [] <==> forall part | part in parts :: Skipped(part)
  {
    if parts != [] {
      NothingMeaningful(parts[1..]);
      if !Skipped(parts[0]) {
        assert Meaningful(parts)[0] == parts[0] && parts[0] in parts;
      } else if part :| part in parts[1..] && !Skipped(part) {
        assert part in parts;
      } else {
        forall part | part in parts ensures Skipped(part) {
          assert part == parts[0] || part in parts[1..];
        }
      }
    }
  }
}
