/** Which layouts and indexes lead to a manifest, said of the documents' values. */
module OciLayout {
  import opened Options
  import opened ByteStrings
  import opened Json
  import opened Numbers
  import opened ContainerImage
  import opened OciArchive
  import opened ImageFacts
  import opened ImageAdmission
  import opened ArchiveNames
  import Hex
  import Tar

  /** An object has these keys and no others. */
  predicate OnlyKeys(v: Value, keys: set<string>) {
    v.VObject? ==> v.fields.Keys <= keys
  }

  predicate LayoutSays(v: Value) {
    OnlyKeys(v, {"imageLayoutVersion"}) && Shown(v, "imageLayoutVersion", 0) == Some(VText("1.0.0"))
  }

  predicate PlatformSays(v: Value, architecture: string) {
    && OnlyKeys(v, {"os", "architecture"})
    && Shown(v, "os", 0) == Some(VText("linux")) && Shown(v, "architecture", 1) == Some(VText(architecture))
  }

  predicate EntrySays(v: Value, mediaType: string, digest: Bytes, size: nat, architecture: string) {
    && OnlyKeys(v, {"mediaType", "digest", "size", "platform"})
    && Shown(v, "mediaType", 0) == Some(VText(mediaType))
    && Shown(v, "digest", 1) == Some(VText(DigestText(digest)))
    && Shown(v, "size", 2) == Some(VNumber(size))
    && Shown(v, "platform", 3).Some? && PlatformSays(Shown(v, "platform", 3).value, architecture)
  }

  /** Schema version 2, exactly one entry, and nothing else. */
  predicate IndexSays(v: Value, mediaType: string, digest: Bytes, size: nat, architecture: string) {
    && OnlyKeys(v, {"schemaVersion", "manifests"})
    && Shown(v, "schemaVersion", 0) == Some(VNumber(2))
    && Shown(v, "manifests", 1).Some? && Shown(v, "manifests", 1).value.VArray? && |Shown(v, "manifests", 1).value.items| == 1
    && EntrySays(Shown(v, "manifests", 1).value.items[0], mediaType, digest, size, architecture)
  }

  lemma {:induction false} StrictKeys(members: seq<Pair>, names: seq<string>)
    requires forall i | 0 <= i < |members| :: members[i].key in names
    ensures forall key | key in FieldsOf(members) :: key in names
    decreases |members|
  {
    if members != [] { StrictKeys(members[..|members| - 1], names); }
  }

  lemma StrictRecord(j: Json, names: seq<string>)
    requires Record(j, names, true)
    ensures Record(j, names, false) && (j.Object? ==> forall key | key in ToValue(j).fields :: key in names)
  {
    if j.Object? { StrictKeys(j.members, names); }
  }

  lemma IndexNames()
    ensures DifferentNames(LAYOUT) && DifferentNames(INDEX) && DifferentNames(PLATFORM)
  {
    assert |INDEX[0]| == 13 && |INDEX[1]| == 9 && |PLATFORM[0]| == 2 && |PLATFORM[1]| == 12;
  }

  lemma EntryNames()
    ensures DifferentNames(INDEX_MANIFEST)
  {
    assert |INDEX_MANIFEST[0]| == 9 && |INDEX_MANIFEST[1]| == 6 && |INDEX_MANIFEST[2]| == 4 && |INDEX_MANIFEST[3]| == 8;
  }

  lemma LayoutShown(j: Json)
    requires LayoutVersion(j) == Some("1.0.0")
    ensures LayoutSays(ToValue(j))
  {
    IndexNames();
    StrictRecord(j, LAYOUT);
    TextShown(j, LAYOUT, "imageLayoutVersion", 0, "1.0.0");
  }

  lemma PlatformShown(j: Json, architecture: string)
    requires Record(j, PLATFORM, true)
    requires AsText(Field(j, PLATFORM, "os")) == Some("linux") && AsText(Field(j, PLATFORM, "architecture")) == Some(architecture)
    ensures PlatformSays(ToValue(j), architecture)
  {
    IndexNames();
    StrictRecord(j, PLATFORM);
    TextShown(j, PLATFORM, "os", 0, "linux");
    TextShown(j, PLATFORM, "architecture", 1, architecture);
  }

  lemma EntryShown(j: Json, d: IndexManifest, digest: Bytes)
    requires DecodeIndexManifest(j) == Some(d) && d.os == "linux" && d.digest == DigestText(digest)
    ensures EntrySays(ToValue(j), d.mediaType, digest, d.size, d.architecture)
  {
    EntryNames();
    StrictRecord(j, INDEX_MANIFEST);
    TextShown(j, INDEX_MANIFEST, "mediaType", 0, d.mediaType);
    TextShown(j, INDEX_MANIFEST, "digest", 1, d.digest);
    NumberShown(j, INDEX_MANIFEST, "size", 2, U64_MAX, d.size);
    var platform := Field(j, INDEX_MANIFEST, "platform").value;
    PartShown(j, INDEX_MANIFEST, "platform", 3, platform);
    PlatformShown(platform, d.architecture);
  }

  lemma IndexShown(j: Json, d: IndexManifest, digest: Bytes)
    requires OnlyManifest(j) == Some(d) && d.os == "linux" && d.digest == DigestText(digest)
    ensures IndexSays(ToValue(j), d.mediaType, digest, d.size, d.architecture)
  {
    IndexNames();
    StrictRecord(j, INDEX);
    NumberShown(j, INDEX, "schemaVersion", 0, 0xffff_ffff, 2);
    var manifests := Field(j, INDEX, "manifests").value;
    PartShown(j, INDEX, "manifests", 1, manifests);
    assert ToValue(manifests).items[0] == ToValue(manifests.items[0]);
    EntryShown(manifests.items[0], d, digest);
  }

  /** A layout leads to a manifest only if its version is 1.0.0 and its index has schema version 2 and one entry,
      for Linux on this architecture, with the digest, the size and the media type of that manifest, and neither
      document has any other key. */
  lemma LayoutLeadsTo(f: Formats, file: Bytes, members: Members, expected: Bytes, architecture: string, limits: Limits, manifest: Bytes)
    returns (layout: Json, index: Json)
    requires LayoutManifest(f, file, members, expected, architecture, limits) == Some(manifest)
    ensures ParseMember(f, file, members, Ascii("oci-layout"), limits.jsonBytes) == Some(layout) && LayoutSays(ToValue(layout))
    ensures ParseMember(f, file, members, Ascii("index.json"), limits.jsonBytes) == Some(index)
    ensures ReadMember(file, members, Ascii("blobs/sha256/" + Hex.Encode(expected)), limits.jsonBytes) == Some(manifest)
    ensures f.parse(manifest).Some? && DecodeManifest(f.parse(manifest).value).Some?
    ensures IndexSays(ToValue(index), DecodeManifest(f.parse(manifest).value).value.mediaType, expected, |manifest|, architecture)
  {
    layout := ParseMember(f, file, members, Ascii(LAYOUT_NAME), limits.jsonBytes).value;
    index := ParseMember(f, file, members, Ascii(INDEX_NAME), limits.jsonBytes).value;
    LayoutShown(layout);
    var d := OnlyManifest(index).value;
    ParsedDigest(d.digest, expected);
    IndexShown(index, d, expected);
  }

  // ---- The restored archive ----

  /** The index gives every member, each a plain file under its own name, and nothing else. */
  ghost predicate Indexed(list: seq<Tar.Member>, n: nat, members: Members)
    requires n <= |list|
  {
    && (forall k | 0 <= k < n ::
          list[k].entry.kind == Regular && list[k].entry.name in members
          && members[list[k].entry.name] == (list[k].offset, list[k].size))
    && (forall j, k | 0 <= j < k < n :: list[j].entry.name != list[k].entry.name)
    && (forall name | name in members :: exists k | 0 <= k < n :: list[k].entry.name == name)
  }

  lemma {:induction false} IndexIs(list: seq<Tar.Member>, n: nat, members: Members)
    requires n <= |list| && IndexOfMembers(list, n) == Some(members)
    ensures Indexed(list, n, members)
  {
    if n > 0 {
      var before := IndexOfMembers(list, n - 1).value;
      IndexIs(list, n - 1, before);
      IndexGrows(list, n, before, members);
    }
  }

  lemma IndexGrows(list: seq<Tar.Member>, n: nat, before: Members, members: Members)
    requires 0 < n <= |list| && Indexed(list, n - 1, before)
    requires var m := list[n - 1];
             m.entry.kind == Regular && m.entry.name !in before && members == before[m.entry.name := (m.offset, m.size)]
    ensures Indexed(list, n, members)
  {
    forall name | name in members ensures exists k | 0 <= k < n :: list[k].entry.name == name {
      if name in before {
        var k :| 0 <= k < n - 1 && list[k].entry.name == name;
      } else {
        assert list[n - 1].entry.name == name;
      }
    }
  }

  /** The members of a restored archive: the two documents, the manifest, the configuration and the layers. */
  function LayoutMembers(image: Image): set<Bytes> {
    {Ascii("oci-layout"), Ascii("index.json"), BlobPath(image.manifestSha256), BlobPath(image.config.sha256)}
    + set b | b in image.layers :: BlobPath(b.sha256)
  }

  /** A restored archive has the size and digest of its artifact, at most the staging budget, is sound, and holds the
      members its image needs, each once and as a plain file, and no others. */
  lemma RestoredArchive(f: Formats, file: Bytes, artifact: Blob, expected: Bytes, architecture: string, limits: Limits, image: Image, members: Members)
    requires Restored(f, file, artifact, expected, architecture, limits) == Some((image, members))
    ensures artifact == Blob(f.sha256(file), |file|) && 0 < |file|
    ensures |file| <= 4 * limits.jsonBytes + limits.compressedBytes + 1024 * (limits.layers + 4) + 1024
    ensures SoundArchive(f, file, false) && HeaderCount(f, file) <= limits.layers + 4
    ensures f.tar.view(file).Some? && Indexed(f.tar.view(file).value.members, |f.tar.view(file).value.members|, members)
    ensures image.manifestSha256 == expected && members.Keys == LayoutMembers(image)
  {
    ArchiveBytesIs(limits);
    var list := f.tar.view(file).value.members;
    IndexIs(list, |list|, members);
    var manifest := LayoutManifest(f, file, members, expected, architecture, limits).value;
    VerifiedFacts(f, manifest, expected, architecture, limits, FileStore(file, members), image);
  }
}
