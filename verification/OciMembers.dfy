/** The members of an image-layout archive: their names are in normal form, and packing and indexing
    lead back to their contents. */
module OciMembers {
  import opened Options
  import opened ByteStrings
  import opened ArchiveNames
  import opened ArchiveReaders
  import opened ContainerImage
  import opened OciArchive
  import opened ImageLaws
  import Hex
  import Tar

  // ---- Member names ----

  lemma AsciiAppend(a: string, b: string)
    ensures Ascii(a + b) == Ascii(a) + Ascii(b)
  {
  }

  lemma AsciiHex(text: string)
    requires Hex.IsHex(text)
    ensures forall i | 0 <= i < |text| :: HexByte(Ascii(text)[i])
  {
    forall i | 0 <= i < |text| ensures HexByte(Ascii(text)[i]) {
      assert Hex.IsHexDigit(text[i]);
    }
  }

  lemma AsciiHexInjective(a: string, b: string)
    requires Hex.IsHex(a) && Hex.IsHex(b) && Ascii(a) == Ascii(b)
    ensures a == b
  {
    assert |a| == |Ascii(a)| == |b|;
    forall i | 0 <= i < |a| ensures a[i] == b[i] {
      assert Hex.IsHexDigit(a[i]) && Hex.IsHexDigit(b[i]);
      assert Ascii(a)[i] == Ascii(b)[i];
    }
  }

  /** A name the layout uses: valid, its own normal form, and short. */
  ghost predicate Neat(name: Bytes) {
    Tar.ShortName(name) && ValidMember(name)
  }

  lemma BlobPathShape(sha256: Bytes)
    requires |sha256| == 32
    ensures |BlobPath(sha256)| == 77 && BlobPath(sha256)[..13] == Ascii(BLOB_DIRECTORY)
    ensures BlobPath(sha256)[13..] == Ascii(Hex.Encode(sha256))
    ensures forall i | 13 <= i < 77 :: HexByte(BlobPath(sha256)[i])
  {
    var hex := Hex.Encode(sha256);
    AsciiAppend(BLOB_DIRECTORY, hex);
    Hex.EncodeIsHex(sha256);
    AsciiHex(hex);
    var path := BlobPath(sha256);
    forall i | 13 <= i < 77 ensures HexByte(path[i]) {
      assert path[i] == Ascii(hex)[i - 13];
    }
  }

  lemma BlobPathInjective(a: Bytes, b: Bytes)
    requires |a| == 32 && |b| == 32 && BlobPath(a) == BlobPath(b)
    ensures a == b
  {
    BlobPathShape(a);
    BlobPathShape(b);
    Hex.EncodeIsHex(a);
    Hex.EncodeIsHex(b);
    AsciiHexInjective(Hex.Encode(a), Hex.Encode(b));
    Hex.EncodeInjective(a, b);
  }

  /** `blobs`, `sha256` and the digest. */
  function BlobComponents(sha256: Bytes): Path { [Ascii("blobs"), Ascii("sha256"), Ascii(Hex.Encode(sha256))] }

  lemma BlobPathJoins(sha256: Bytes)
    requires |sha256| == 32
    ensures Join(BlobComponents(sha256)) == BlobPath(sha256)
  {
    var path := BlobComponents(sha256);
    assert path[..2] == [path[0], path[1]] && path[..2][..1] == [path[0]];
    assert Join(path[..2]) == Ascii("blobs") + [SLASH] + Ascii("sha256");
    AsciiAppend(BLOB_DIRECTORY, Hex.Encode(sha256));
    assert Ascii(BLOB_DIRECTORY) == Ascii("blobs") + [SLASH] + Ascii("sha256") + [SLASH];
  }

  lemma BlobPathNoNul(sha256: Bytes)
    requires |sha256| == 32
    ensures 0 !in BlobPath(sha256) && BlobPath(sha256)[0] == 98
  {
    BlobPathShape(sha256);
    var name := BlobPath(sha256);
    forall i | 0 <= i < |name| ensures name[i] != 0 {
      assert i < 13 ==> name[i] == name[..13][i] == Ascii(BLOB_DIRECTORY)[i];
      assert 13 <= i ==> HexByte(name[i]);
    }
    assert name[0] == name[..13][0] == Ascii(BLOB_DIRECTORY)[0];
  }

  lemma BlobComponentsPlain(sha256: Bytes)
    requires |sha256| == 32
    ensures Clean(BlobComponents(sha256)) && DOT !in BlobComponents(sha256) && DOT_DOT !in BlobComponents(sha256)
  {
    var path := BlobComponents(sha256);
    Hex.EncodeIsHex(sha256);
    AsciiHex(Hex.Encode(sha256));
    assert |path[0]| == 5 && |path[1]| == 6 && |path[2]| == 64;
    forall i | 0 <= i < 64 ensures path[2][i] != SLASH {
      assert HexByte(path[2][i]);
    }
  }

  lemma BlobPathNeat(sha256: Bytes)
    requires |sha256| == 32
    ensures Neat(BlobPath(sha256))
  {
    BlobPathShape(sha256);
    BlobPathNoNul(sha256);
    BlobPathJoins(sha256);
    BlobComponentsPlain(sha256);
    PlainName(BlobComponents(sha256));
  }

  lemma SimpleName(name: Bytes)
    requires CleanPart(name) && 2 < |name| <= 100 && 0 !in name
    ensures Tar.ShortName(name)
  {
    PlainName([name]);
    assert Join([name]) == name;
  }

  lemma HeadNamesNeat()
    ensures Neat(Ascii(LAYOUT_NAME)) && Neat(Ascii(INDEX_NAME)) && Ascii(LAYOUT_NAME) != Ascii(INDEX_NAME)
  {
    assert Ascii(LAYOUT_NAME)[0] == 111 && Ascii(INDEX_NAME)[0] == 105;
    SimpleName(Ascii(LAYOUT_NAME));
    SimpleName(Ascii(INDEX_NAME));
  }

  // ---- Archives of neatly named files ----

  ghost predicate DistinctFiles(files: seq<Tar.File>) {
    forall i, j | 0 <= i < j < |files| :: files[i].name != files[j].name
  }

  ghost predicate NeatFiles(files: seq<Tar.File>) {
    && (forall file | file in files :: Neat(file.name) && Tar.Writable(file))
    && DistinctFiles(files)
  }

  lemma NeatEntries(f: Formats, files: seq<Tar.File>, view: Tar.View)
    requires Lawful(f) && NeatFiles(files) && view.members == Tar.MembersFrom(files, 0)
    ensures Admissible(Names(view), false)
  {
    var names := Names(view);
    forall i | 0 <= i < |files| ensures names[i] == Entry(files[i].name, Regular, None) && Neat(files[i].name) {
      Tar.PackContents(f.tar, files, i);
      assert files[i] in files;
    }
    forall i, j | 0 <= i < j < |names| ensures Parts(names[i].name) != Parts(names[j].name) {
      assert Neat(files[i].name) && Neat(files[j].name);
    }
  }

  /** A packed archive of neatly named files is sound, and holds one header each. */
  lemma PackSound(f: Formats, files: seq<Tar.File>)
    requires Lawful(f) && NeatFiles(files)
    ensures SoundArchive(f, Tar.Pack(f.tar, files), false)
    ensures HeaderCount(f, Tar.Pack(f.tar, files)) == |files|
    ensures f.tar.view(Tar.Pack(f.tar, files)).Some? && f.tar.view(Tar.Pack(f.tar, files)).value.members == Tar.MembersFrom(files, 0)
  {
    Tar.PackReadsBack(f.tar, files);
    NeatEntries(f, files, f.tar.view(Tar.Pack(f.tar, files)).value);
    SoundIf(f, Tar.Pack(f.tar, files));
  }

  lemma SoundIf(f: Formats, data: Bytes)
    requires data != [] && HeaderTotal(f.tar.headers, data, 0).Some?
    requires var view := f.tar.view(data);
             view.Some? && view.value.end <= |data| && Admissible(Names(view.value), false) && IsZero(data[view.value.end..])
    ensures SoundArchive(f, data, false)
  {
  }

  ghost predicate Indexes(index: Members, members: seq<Tar.Member>, n: nat)
    requires n <= |members|
  {
    && (forall i | 0 <= i < n :: members[i].entry.name in index && index[members[i].entry.name] == (members[i].offset, members[i].size))
    && (forall name | name in index :: exists i | 0 <= i < n :: members[i].entry.name == name)
  }

  lemma IndexesStep(before: Members, members: seq<Tar.Member>, n: nat)
    requires n < |members| && Indexes(before, members, n) && members[n].entry.name !in before
    ensures Indexes(before[members[n].entry.name := (members[n].offset, members[n].size)], members, n + 1)
  {
    var index := before[members[n].entry.name := (members[n].offset, members[n].size)];
    forall name | name in index ensures exists i | 0 <= i < n + 1 :: members[i].entry.name == name {
      if name in before {
        var i :| 0 <= i < n && members[i].entry.name == name;
      } else {
        assert members[n].entry.name == name;
      }
    }
  }

  ghost predicate Indexable(members: seq<Tar.Member>) {
    && (forall i | 0 <= i < |members| :: members[i].entry.kind == Regular && ValidMember(members[i].entry.name))
    && (forall i, j | 0 <= i < j < |members| :: members[i].entry.name != members[j].entry.name)
  }

  lemma NotYet(index: Members, members: seq<Tar.Member>, n: nat)
    requires n < |members| && Indexes(index, members, n) && Indexable(members)
    ensures members[n].entry.name !in index
  {
  }

  lemma IndexStep(before: Members, members: seq<Tar.Member>, n: nat)
    requires n < |members| && IndexOfMembers(members, n) == Some(before)
    requires members[n].entry.kind == Regular && ValidMember(members[n].entry.name) && members[n].entry.name !in before
    ensures IndexOfMembers(members, n + 1) == Some(before[members[n].entry.name := (members[n].offset, members[n].size)])
  {
  }

  lemma IndexSucceeds(members: seq<Tar.Member>) returns (index: Members)
    requires Indexable(members)
    ensures IndexOfMembers(members, |members|) == Some(index) && Indexes(index, members, |members|)
  {
    index := map[];
    for i := 0 to |members|
      invariant IndexOfMembers(members, i) == Some(index) && Indexes(index, members, i)
    {
      index := NextIndex(index, members, i);
    }
  }

  lemma NextIndex(before: Members, members: seq<Tar.Member>, n: nat) returns (index: Members)
    requires n < |members| && IndexOfMembers(members, n) == Some(before) && Indexes(before, members, n)
    requires Indexable(members)
    ensures IndexOfMembers(members, n + 1) == Some(index) && Indexes(index, members, n + 1)
  {
    NotYet(before, members, n);
    index := before[members[n].entry.name := (members[n].offset, members[n].size)];
    IndexStep(before, members, n);
    IndexesStep(before, members, n);
  }

  /** The index of a packed archive leads to the content of each file. */
  ghost predicate Locates(index: Members, data: Bytes, files: seq<Tar.File>) {
    && (forall file | file in files :: file.name in index && index[file.name].1 == |file.content| && Extent(data, index[file.name]) == file.content)
    && (forall name | name in index :: exists file | file in files :: file.name == name)
  }

  ghost predicate Matches(members: seq<Tar.Member>, data: Bytes, files: seq<Tar.File>) {
    && |members| == |files|
    && forall i | 0 <= i < |files| ::
         && members[i].entry == Entry(files[i].name, Regular, None) && members[i].size == |files[i].content|
         && Extent(data, (members[i].offset, members[i].size)) == files[i].content
  }

  lemma PackMatches(f: Formats, files: seq<Tar.File>)
    requires Lawful(f) && NeatFiles(files)
    ensures Matches(Tar.MembersFrom(files, 0), Tar.Pack(f.tar, files), files)
  {
    forall i | 0 <= i < |files|
      ensures var m := Tar.MembersFrom(files, 0)[i];
              && m.entry == Entry(files[i].name, Regular, None) && m.size == |files[i].content|
              && Extent(Tar.Pack(f.tar, files), (m.offset, m.size)) == files[i].content
    {
      Tar.PackContents(f.tar, files, i);
    }
  }

  lemma MatchesIndexable(members: seq<Tar.Member>, data: Bytes, files: seq<Tar.File>)
    requires Matches(members, data, files) && NeatFiles(files)
    ensures Indexable(members)
  {
    forall i | 0 <= i < |members| ensures ValidMember(members[i].entry.name) {
      assert files[i] in files;
    }
  }

  lemma PackIndex(f: Formats, files: seq<Tar.File>)
    requires Lawful(f) && NeatFiles(files)
    ensures var index := IndexOfMembers(Tar.MembersFrom(files, 0), |files|);
            index.Some? && Locates(index.value, Tar.Pack(f.tar, files), files)
  {
    var members, data := Tar.MembersFrom(files, 0), Tar.Pack(f.tar, files);
    PackMatches(f, files);
    MatchesIndexable(members, data, files);
    var index := IndexSucceeds(members);
    MatchesLocates(index, members, data, files);
  }

  lemma MatchesLocates(index: Members, members: seq<Tar.Member>, data: Bytes, files: seq<Tar.File>)
    requires Matches(members, data, files) && Indexes(index, members, |members|)
    ensures Locates(index, data, files)
  {
    forall file | file in files
      ensures file.name in index && index[file.name].1 == |file.content| && Extent(data, index[file.name]) == file.content
    {
      var i :| 0 <= i < |files| && files[i] == file;
      assert members[i].entry.name in index;
    }
    forall name | name in index ensures exists file | file in files :: file.name == name {
      var i :| 0 <= i < |files| && members[i].entry.name == name;
      assert files[i] in files;
    }
  }
}
