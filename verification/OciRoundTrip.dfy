/** Writing an admitted image and restoring the archive gives the image back. */
module OciRoundTrip {
  import opened Options
  import opened ByteStrings
  import opened Json
  import opened Numbers
  import opened ContainerImage
  import opened OciArchive
  import opened ImageLaws
  import opened OciMembers
  import opened ImageFacts
  import Tar

  // ---- The files of an image ----

  /** Everything whose digest the archive relies on. */
  ghost function Contents(store: Store, image: Image, manifest: Bytes): set<Bytes> {
    {manifest} + set b | b in ImageBlobs(image) && store(b).Some? :: store(b).value
  }

  ghost predicate HashSized(image: Image) {
    |image.manifestSha256| == 32 && forall b | b in ImageBlobs(image) :: |b.sha256| == 32
  }

  lemma IntactHashSized(f: Formats, store: Store, image: Image, manifest: Bytes)
    requires Lawful(f) && f.sha256(manifest) == image.manifestSha256 && Intact(f, store, ImageBlobs(image))
    ensures HashSized(image)
  {
    forall b | b in ImageBlobs(image) ensures |b.sha256| == 32 {
      assert Content(f, store, b).Some?;
    }
  }

  /** Names of blob members are unlike those of the layout and the index. */
  lemma BlobPathApart(sha256: Bytes)
    requires |sha256| == 32
    ensures BlobPath(sha256) != Ascii(LAYOUT_NAME) && BlobPath(sha256) != Ascii(INDEX_NAME)
  {
    BlobPathShape(sha256);
    assert |Ascii(LAYOUT_NAME)| == 10 && |Ascii(INDEX_NAME)| == 10;
  }

  lemma HeadDistinct(f: Formats, image: Image, manifest: Bytes)
    requires HashSized(image)
    ensures DistinctFiles(HeadFiles(f, image, manifest))
  {
    HeadNamesNeat();
    BlobPathApart(image.manifestSha256);
  }

  lemma BlobsDistinct(store: Store, blobs: seq<Blob>)
    requires forall b | b in blobs :: |b.sha256| == 32
    requires forall i, j | 0 <= i < j < |blobs| :: blobs[i].sha256 != blobs[j].sha256
    ensures DistinctFiles(BlobFiles(store, blobs))
  {
    var files := BlobFiles(store, blobs);
    forall i, j | 0 <= i < j < |files| ensures files[i].name != files[j].name {
      if files[i].name == files[j].name {
        assert blobs[i] in blobs && blobs[j] in blobs;
        BlobPathInjective(blobs[i].sha256, blobs[j].sha256);
      }
    }
  }

  lemma ApartDistinct(a: seq<Tar.File>, b: seq<Tar.File>)
    requires DistinctFiles(a) && DistinctFiles(b)
    requires forall x, y | x in a && y in b :: x.name != y.name
    ensures DistinctFiles(a + b)
  {
    var c := a + b;
    forall i, j | 0 <= i < j < |c| ensures c[i].name != c[j].name {
      assert i < |a| ==> c[i] in a;
      assert j >= |a| ==> c[j] in b;
      assert i >= |a| ==> c[i] == b[i - |a|] && c[j] == b[j - |a|];
    }
  }

  lemma BlobFileIs(store: Store, blobs: seq<Blob>, file: Tar.File) returns (b: Blob)
    requires file in BlobFiles(store, blobs)
    ensures b in blobs && file == BlobFile(store, b)
  {
    var i :| 0 <= i < |blobs| && BlobFiles(store, blobs)[i] == file;
    b := blobs[i];
  }

  lemma OciFilesDistinct(f: Formats, image: Image, manifest: Bytes, store: Store)
    requires HashSized(image)
    ensures DistinctFiles(OciFiles(f, image, manifest, store))
  {
    var blobs := WrittenBlobs(image);
    FreshAre(ImageBlobs(image), {image.manifestSha256});
    HeadDistinct(f, image, manifest);
    BlobsDistinct(store, blobs);
    forall x, y | x in HeadFiles(f, image, manifest) && y in BlobFiles(store, blobs) ensures x.name != y.name {
      var b := BlobFileIs(store, blobs, y);
      BlobPathApart(b.sha256);
      if x.name == y.name { BlobPathInjective(image.manifestSha256, b.sha256); }
    }
    ApartDistinct(HeadFiles(f, image, manifest), BlobFiles(store, blobs));
  }

  /** Sizes small enough to be written in a header. */
  ghost predicate Writables(files: seq<Tar.File>) {
    forall file | file in files :: |file.content| + 511 <= U64_MAX
  }

  lemma OciFilesNeat(f: Formats, image: Image, manifest: Bytes, store: Store)
    requires HashSized(image) && Writables(OciFiles(f, image, manifest, store))
    ensures NeatFiles(OciFiles(f, image, manifest, store))
  {
    OciFilesDistinct(f, image, manifest, store);
    HeadNamesNeat();
    BlobPathNeat(image.manifestSha256);
    FreshAre(ImageBlobs(image), {image.manifestSha256});
    forall file | file in BlobFiles(store, WrittenBlobs(image)) ensures Neat(file.name) {
      var b := BlobFileIs(store, WrittenBlobs(image), file);
      BlobPathNeat(b.sha256);
    }
  }

  // ---- Sizes ----

  function ContentSum(files: seq<Tar.File>): nat {
    if files == [] then 0 else |files[0].content| + ContentSum(files[1..])
  }

  lemma {:induction false} FramedBound(files: seq<Tar.File>)
    ensures Tar.FramedSize(files) <= ContentSum(files) + 1023 * |files|
  {
    if files != [] {
      FramedBound(files[1..]);
      Tar.PaddedBounds(|files[0].content|);
    }
  }

  lemma {:induction false} ContentSumAppend(a: seq<Tar.File>, b: seq<Tar.File>)
    ensures ContentSum(a + b) == ContentSum(a) + ContentSum(b)
  {
    if a == [] {
      assert a + b == b;
    } else {
      ContentSumAppend(a[1..], b);
      assert (a + b)[1..] == a[1..] + b;
    }
  }

  lemma {:induction false} BlobFilesSum(f: Formats, store: Store, blobs: seq<Blob>)
    requires Intact(f, store, blobs)
    ensures ContentSum(BlobFiles(store, blobs)) == BlobSum(blobs)
    decreases |blobs|
  {
    if blobs != [] {
      var before, last := blobs[..|blobs| - 1], blobs[|blobs| - 1];
      assert blobs == before + [last];
      BlobFilesSum(f, store, before);
      BlobFilesAppend(store, before, last);
      ContentSumAppend(BlobFiles(store, before), [BlobFile(store, last)]);
      assert Content(f, store, last).Some?;
    }
  }

  lemma {:induction false} InSum(files: seq<Tar.File>, file: Tar.File)
    requires file in files
    ensures |file.content| <= ContentSum(files)
  {
    if file != files[0] { InSum(files[1..], file); }
  }

  /** Whether the two documents written beside the blobs fit the operator's JSON limit. */
  predicate DocumentsFit(f: Formats, image: Image, limits: Limits) {
    |Ascii(LAYOUT_TEXT)| <= limits.jsonBytes && |f.render(IndexValue(image))| <= limits.jsonBytes
  }

  lemma OciContentSum(f: Formats, image: Image, manifest: Bytes, store: Store, limits: Limits)
    requires Intact(f, store, WrittenBlobs(image)) && Fits(image, limits) && |manifest| == image.manifestBytes
    requires DocumentsFit(f, image, limits)
    ensures ContentSum(OciFiles(f, image, manifest, store)) <= 4 * limits.jsonBytes + limits.compressedBytes
    ensures |OciFiles(f, image, manifest, store)| <= limits.layers + 4
  {
    var head, blobs := HeadFiles(f, image, manifest), WrittenBlobs(image);
    ContentSumAppend(head, BlobFiles(store, blobs));
    BlobFilesSum(f, store, blobs);
    FreshSum(ImageBlobs(image), {image.manifestSha256});
    BlobSumFront(image.config, image.layers);
    assert ContentSum(head[1..][1..]) == |head[2].content| + ContentSum(head[1..][1..][1..]);
    assert ContentSum(head) == |head[0].content| + |head[1].content| + |head[2].content|;
  }

  /** The tar-framed length of an admitted image is within the staging budget. */
  lemma WithinArchiveBytes(f: Formats, image: Image, manifest: Bytes, store: Store, limits: Limits)
    requires Lawful(f) && HashSized(image) && Intact(f, store, WrittenBlobs(image)) && Fits(image, limits)
    requires |manifest| == image.manifestBytes && DocumentsFit(f, image, limits) && ArchiveBytes(limits).Some?
    ensures NeatFiles(OciFiles(f, image, manifest, store))
    ensures |Tar.Pack(f.tar, OciFiles(f, image, manifest, store))| <= ArchiveBytes(limits).value
  {
    var files := OciFiles(f, image, manifest, store);
    OciContentSum(f, image, manifest, store, limits);
    ArchiveBytesIs(limits);
    forall file | file in files ensures |file.content| + 511 <= U64_MAX {
      InSum(files, file);
    }
    OciFilesNeat(f, image, manifest, store);
    FramedBound(files);
    Tar.PackReadsBack(f.tar, files);
  }

  // ---- Reading the documents back ----

  function PlatformFields(image: Image): map<string, Value> {
    map["os" := VText("linux"), "architecture" := VText(image.architecture)]
  }

  function ManifestFields(image: Image): map<string, Value> {
    map[
      "mediaType" := VText(image.manifestMediaType),
      "digest" := VText(DigestText(image.manifestSha256)),
      "size" := VNumber(image.manifestBytes),
      "platform" := VObject(PlatformFields(image))]
  }

  function Described(image: Image): IndexManifest {
    IndexManifest(image.manifestMediaType, DigestText(image.manifestSha256), image.manifestBytes, "linux", image.architecture)
  }

  lemma PlatformReads(image: Image, j: Json)
    requires Proper(j) && ToValue(j) == VObject(PlatformFields(image))
    ensures Record(j, PLATFORM, true)
    ensures AsText(Field(j, PLATFORM, "os")) == Some("linux") && AsText(Field(j, PLATFORM, "architecture")) == Some(image.architecture)
  {
    var fields := PlatformFields(image);
    ShowsRecord(j, fields, PLATFORM, true);
    ShowsField(j, fields, PLATFORM, "os");
    ShowsField(j, fields, PLATFORM, "architecture");
  }

  lemma DescriptorReads(image: Image, j: Json)
    requires Proper(j) && ToValue(j) == VObject(ManifestFields(image)) && image.manifestBytes <= U64_MAX
    ensures DecodeIndexManifest(j) == Some(Described(image))
  {
    var fields := ManifestFields(image);
    ShowsRecord(j, fields, INDEX_MANIFEST, true);
    ShowsField(j, fields, INDEX_MANIFEST, "mediaType");
    ShowsField(j, fields, INDEX_MANIFEST, "digest");
    ShowsField(j, fields, INDEX_MANIFEST, "size");
    ShowsField(j, fields, INDEX_MANIFEST, "platform");
    PlatformReads(image, Field(j, INDEX_MANIFEST, "platform").value);
  }

  /** The index reads back as a single entry describing the manifest. */
  lemma IndexReads(f: Formats, image: Image)
    requires RendersBack(f, IndexValue(image)) && image.manifestBytes <= U64_MAX
    ensures f.parse(f.render(IndexValue(image))).Some?
    ensures OnlyManifest(f.parse(f.render(IndexValue(image))).value) == Some(Described(image))
  {
    var fields := IndexValue(image).fields;
    var j := f.parse(f.render(IndexValue(image))).value;
    ShowsRecord(j, fields, INDEX, true);
    ShowsField(j, fields, INDEX, "schemaVersion");
    ShowsField(j, fields, INDEX, "manifests");
    var list := Field(j, INDEX, "manifests").value;
    assert ToValue(list) == VArray([VObject(ManifestFields(image))]);
    assert |list.items| == |ToValue(list).items| == 1 && ToValue(list.items[0]) == ToValue(list).items[0];
    DescriptorReads(image, list.items[0]);
  }

  lemma LayoutIsRead(f: Formats)
    requires Lawful(f)
    ensures f.parse(Ascii(LAYOUT_TEXT)).Some? && LayoutVersion(f.parse(Ascii(LAYOUT_TEXT)).value) == Some("1.0.0")
  {
    var j := f.parse(Ascii(LAYOUT_TEXT)).value;
    assert LayoutReads(f) && j == Object([Pair("imageLayoutVersion", Text("1.0.0"))]);
    assert !Repeats(j.members, "imageLayoutVersion");
    assert Find(j.members, "imageLayoutVersion") == Some(Text("1.0.0"));
  }

  lemma MemberReads(index: Members, data: Bytes, files: seq<Tar.File>, file: Tar.File, limit: nat)
    requires Locates(index, data, files) && file in files
    ensures ReadMember(data, index, file.name, limit) == if 0 < |file.content| <= limit then Some(file.content) else None
  {
  }

  lemma HeadIn(f: Formats, image: Image, manifest: Bytes, store: Store)
    ensures var files := OciFiles(f, image, manifest, store);
            && Tar.File(Ascii(LAYOUT_NAME), Ascii(LAYOUT_TEXT)) in files
            && Tar.File(Ascii(INDEX_NAME), f.render(IndexValue(image))) in files
            && Tar.File(BlobPath(image.manifestSha256), manifest) in files
  {
    var head, files := HeadFiles(f, image, manifest), OciFiles(f, image, manifest, store);
    assert files[0] == head[0] && files[1] == head[1] && files[2] == head[2];
  }

  /** The admitted manifest parses, to the media type the image records. */
  lemma ManifestParses(f: Formats, manifest: Bytes, expected: Bytes, architecture: string, limits: Limits, store: Store, image: Image)
    requires Verified(f, manifest, expected, architecture, limits, store) == Some(image)
    ensures f.parse(manifest).Some? && DecodeManifest(f.parse(manifest).value).Some?
    ensures DecodeManifest(f.parse(manifest).value).value.mediaType == image.manifestMediaType
  {
    var m, diffIds, layers := VerifiedParts(f, manifest, expected, architecture, limits, store, image);
  }

  lemma HeadReads(f: Formats, limits: Limits, manifest: Bytes, store: Store, image: Image, data: Bytes, index: Members)
    requires RendersBack(f, IndexValue(image)) && |Ascii(LAYOUT_TEXT)| > 0 && 0 < |manifest| <= limits.jsonBytes
    requires Locates(index, data, OciFiles(f, image, manifest, store))
    ensures ReadMember(data, index, BlobPath(image.manifestSha256), limits.jsonBytes) == Some(manifest)
    ensures ReadMember(data, index, Ascii(LAYOUT_NAME), limits.jsonBytes)
         == if |Ascii(LAYOUT_TEXT)| <= limits.jsonBytes then Some(Ascii(LAYOUT_TEXT)) else None
    ensures ReadMember(data, index, Ascii(INDEX_NAME), limits.jsonBytes)
         == if |f.render(IndexValue(image))| <= limits.jsonBytes then Some(f.render(IndexValue(image))) else None
  {
    var files := OciFiles(f, image, manifest, store);
    HeadIn(f, image, manifest, store);
    MemberReads(index, data, files, Tar.File(BlobPath(image.manifestSha256), manifest), limits.jsonBytes);
    MemberReads(index, data, files, Tar.File(Ascii(LAYOUT_NAME), Ascii(LAYOUT_TEXT)), limits.jsonBytes);
    MemberReads(index, data, files, Tar.File(Ascii(INDEX_NAME), f.render(IndexValue(image))), limits.jsonBytes);
  }

  /** The layout leads to the manifest exactly if its documents fit. */
  lemma LayoutLeads(f: Formats, limits: Limits, architecture: string, manifest: Bytes, store: Store, image: Image, data: Bytes, index: Members)
    requires Lawful(f) && RendersBack(f, IndexValue(image)) && limits.Representable()
    requires Verified(f, manifest, image.manifestSha256, architecture, limits, store) == Some(image)
    requires Locates(index, data, OciFiles(f, image, manifest, store))
    ensures LayoutManifest(f, data, index, image.manifestSha256, architecture, limits)
         == if DocumentsFit(f, image, limits) then Some(manifest) else None
  {
    VerifiedFacts(f, manifest, image.manifestSha256, architecture, limits, store, image);
    ManifestParses(f, manifest, image.manifestSha256, architecture, limits, store, image);
    assert |Ascii(LAYOUT_TEXT)| > 0;
    HeadReads(f, limits, manifest, store, image, data, index);
    LayoutIsRead(f);
    IndexReads(f, image);
    DigestRoundTrip(DigestText(image.manifestSha256), image.manifestSha256);
  }

  // ---- The archive as a store ----

  /** Some member of the archive is named by a blob's digest, and its content has that digest. */
  lemma BlobIsWritten(f: Formats, manifest: Bytes, store: Store, image: Image, b: Blob) returns (file: Tar.File)
    requires f.sha256(manifest) == image.manifestSha256 && Intact(f, store, ImageBlobs(image)) && b in ImageBlobs(image)
    ensures file in OciFiles(f, image, manifest, store) && file.name == BlobPath(b.sha256)
    ensures f.sha256(file.content) == b.sha256 && file.content in Contents(store, image, manifest)
  {
    if b.sha256 == image.manifestSha256 {
      file := Tar.File(BlobPath(image.manifestSha256), manifest);
      HeadIn(f, image, manifest, store);
    } else {
      FreshCovers(ImageBlobs(image), {image.manifestSha256}, b);
      var x :| x in WrittenBlobs(image) && x.sha256 == b.sha256;
      FreshAre(ImageBlobs(image), {image.manifestSha256});
      file := BlobFile(store, x);
      var i :| 0 <= i < |WrittenBlobs(image)| && WrittenBlobs(image)[i] == x;
      assert BlobFiles(store, WrittenBlobs(image))[i] == file;
      assert Content(f, store, x).Some?;
    }
  }

  /** The archive gives every blob back as the store had it, though repeated digests are written once. */
  lemma StoreAgrees(f: Formats, manifest: Bytes, store: Store, image: Image, data: Bytes, index: Members, b: Blob)
    requires f.sha256(manifest) == image.manifestSha256 && Intact(f, store, ImageBlobs(image)) && b in ImageBlobs(image)
    requires CollisionFree(f, Contents(store, image, manifest))
    requires Locates(index, data, OciFiles(f, image, manifest, store))
    ensures Content(f, FileStore(data, index), b) == Content(f, store, b)
  {
    var file := BlobIsWritten(f, manifest, store, image, b);
    assert Content(f, store, b).Some?;
    var bytes := store(b).value;
    assert bytes in Contents(store, image, manifest);
    assert file.content == bytes;
  }

  lemma KeysAreRequired(f: Formats, manifest: Bytes, store: Store, image: Image, data: Bytes, index: Members)
    requires f.sha256(manifest) == image.manifestSha256 && Intact(f, store, ImageBlobs(image))
    requires Locates(index, data, OciFiles(f, image, manifest, store))
    ensures index.Keys == Required(image, image.manifestSha256)
  {
    var files := OciFiles(f, image, manifest, store);
    HeadIn(f, image, manifest, store);
    forall name | name in Required(image, image.manifestSha256) ensures name in index {
      if b :| b in ImageBlobs(image) && name == BlobPath(b.sha256) {
        var file := BlobIsWritten(f, manifest, store, image, b);
      } else {
        RequiredHead(image, name);
      }
    }
    forall name | name in index ensures name in Required(image, image.manifestSha256) {
      var file :| file in files && file.name == name;
      if file !in HeadFiles(f, image, manifest) {
        var b := BlobFileIs(store, WrittenBlobs(image), file);
        FreshAre(ImageBlobs(image), {image.manifestSha256});
      }
    }
  }

  lemma RequiredHead(image: Image, name: Bytes)
    requires name in Required(image, image.manifestSha256) && forall b | b in ImageBlobs(image) :: name != BlobPath(b.sha256)
    ensures name in {Ascii(LAYOUT_NAME), Ascii(INDEX_NAME), BlobPath(image.manifestSha256)}
  {
    assert image.config in ImageBlobs(image);
    forall b | b in image.layers ensures b in ImageBlobs(image) {
    }
  }

  // ---- The round trip ----

  lemma {:induction false} BodyHolds(t: Tar.Format, files: seq<Tar.File>, file: Tar.File)
    requires file in files
    ensures |Tar.Body(t, files)| >= |file.content|
  {
    if file != files[0] { BodyHolds(t, files[1..], file); }
  }

  /** An archive within the budget has no member too large for a header. */
  lemma BudgetBoundsMembers(t: Tar.Format, files: seq<Tar.File>, limits: Limits)
    requires ArchiveBytes(limits).Some? && |Tar.Pack(t, files)| <= ArchiveBytes(limits).value
    ensures Writables(files)
  {
    ArchiveBytesIs(limits);
    forall file | file in files ensures |file.content| + 511 <= U64_MAX {
      BodyHolds(t, files, file);
    }
  }

  /** What restoring does with an admitted image as packed. */
  lemma RestoresPacked(f: Formats, limits: Limits, architecture: string, manifest: Bytes, store: Store, image: Image)
    requires Lawful(f) && RendersBack(f, IndexValue(image)) && limits.Representable()
    requires Verified(f, manifest, image.manifestSha256, architecture, limits, store) == Some(image)
    requires CollisionFree(f, Contents(store, image, manifest))
    requires NeatFiles(OciFiles(f, image, manifest, store))
    ensures var file := Tar.Pack(f.tar, OciFiles(f, image, manifest, store));
            var r := Restored(f, file, Blob(f.sha256(file), |file|), image.manifestSha256, architecture, limits);
            && (r.Some? ==> DocumentsFit(f, image, limits) && r.value.0 == image)
            && (DocumentsFit(f, image, limits) && ArchiveBytes(limits).Some? && |file| <= ArchiveBytes(limits).value ==> r.Some?)
  {
    var files := OciFiles(f, image, manifest, store);
    var file := Tar.Pack(f.tar, files);
    VerifiedFacts(f, manifest, image.manifestSha256, architecture, limits, store, image);
    PackSound(f, files);
    PackIndex(f, files);
    var index := IndexOfMembers(Tar.MembersFrom(files, 0), |files|).value;
    LayoutLeads(f, limits, architecture, manifest, store, image, file, index);
    forall b | b in ImageBlobs(image) ensures Content(f, FileStore(file, index), b) == Content(f, store, b) {
      StoreAgrees(f, manifest, store, image, file, index, b);
    }
    VerifiedAgrees(f, manifest, image.manifestSha256, architecture, limits, store, FileStore(file, index), image);
    KeysAreRequired(f, manifest, store, image, file, index);
    OpensPacked(f, limits, image, manifest, store);
    RestoresOpened(f, file, Blob(f.sha256(file), |file|), image, architecture, limits, index, manifest);
  }

  lemma OpensPacked(f: Formats, limits: Limits, image: Image, manifest: Bytes, store: Store)
    requires Lawful(f) && NeatFiles(OciFiles(f, image, manifest, store)) && Fits(image, limits)
    ensures var files := OciFiles(f, image, manifest, store);
            var file, index := Tar.Pack(f.tar, files), IndexOfMembers(Tar.MembersFrom(files, 0), |files|);
            && Opened(f, file, Blob(f.sha256(file), |file|), limits)
               == if ArchiveBytes(limits).Some? && |file| <= ArchiveBytes(limits).value then index else None
  {
    var files := OciFiles(f, image, manifest, store);
    PackSound(f, files);
    FreshSum(ImageBlobs(image), {image.manifestSha256});
    assert |files| <= limits.layers + 4;
    Tar.PackReadsBack(f.tar, files);
  }

  lemma RestoresOpened(f: Formats, file: Bytes, artifact: Blob, image: Image, architecture: string, limits: Limits, index: Members, manifest: Bytes)
    requires Opened(f, file, artifact, limits) in {None, Some(index)}
    requires LayoutManifest(f, file, index, image.manifestSha256, architecture, limits)
          == if DocumentsFit(f, image, limits) then Some(manifest) else None
    requires Verified(f, manifest, image.manifestSha256, architecture, limits, FileStore(file, index)) == Some(image)
    requires index.Keys == Required(image, image.manifestSha256)
    ensures Restored(f, file, artifact, image.manifestSha256, architecture, limits)
         == if Opened(f, file, artifact, limits).Some? && DocumentsFit(f, image, limits) then Some((image, index)) else None
  {
  }

  /** An archive over the budget, or no budget at all, is refused at once. */
  lemma OverBudget(f: Formats, file: Bytes, expected: Bytes, architecture: string, limits: Limits)
    requires ArchiveBytes(limits) == None || |file| > ArchiveBytes(limits).value
    ensures Restored(f, file, Blob(f.sha256(file), |file|), expected, architecture, limits) == None
  {
    assert Opened(f, file, Blob(f.sha256(file), |file|), limits) == None;
  }

  /** An image whose documents do not fit is written, but not restored. */
  lemma DocumentsTooLarge(f: Formats, limits: Limits, architecture: string, manifest: Bytes, store: Store, image: Image)
    requires Lawful(f) && RendersBack(f, IndexValue(image)) && limits.Representable() && HashSized(image) && !DocumentsFit(f, image, limits)
    requires Verified(f, manifest, image.manifestSha256, architecture, limits, store) == Some(image)
    requires CollisionFree(f, Contents(store, image, manifest))
    ensures var file := Tar.Pack(f.tar, OciFiles(f, image, manifest, store));
            Restored(f, file, Blob(f.sha256(file), |file|), image.manifestSha256, architecture, limits) == None
  {
    var files := OciFiles(f, image, manifest, store);
    var file, budget := Tar.Pack(f.tar, files), ArchiveBytes(limits);
    if budget == None || |file| > budget.value {
      OverBudget(f, file, image.manifestSha256, architecture, limits);
    } else {
      BudgetBoundsMembers(f.tar, files, limits);
      OciFilesNeat(f, image, manifest, store);
      RestoresPacked(f, limits, architecture, manifest, store, image);
    }
  }

  /** What an admitted image's own archive restores to. */
  ghost function WrittenRestored(f: Formats, limits: Limits, architecture: string, manifest: Bytes, store: Store, image: Image): Option<(Image, Members)> {
    var file := Tar.Pack(f.tar, OciFiles(f, image, manifest, store));
    Restored(f, file, Blob(f.sha256(file), |file|), image.manifestSha256, architecture, limits)
  }

  /** An admitted image can be written; and restoring what was written gives the identical image, repeated
      layers included, exactly if the two documents written beside the blobs fit the JSON limit and the
      staging budget can be computed. If they fit, the archive is within that budget. */
  lemma RoundTrip(f: Formats, limits: Limits, architecture: string, manifest: Bytes, store: Store, image: Image)
    requires Lawful(f) && RendersBack(f, IndexValue(image)) && limits.Representable()
    requires Verified(f, manifest, image.manifestSha256, architecture, limits, store) == Some(image)
    requires CollisionFree(f, Contents(store, image, manifest))
    ensures |manifest| == image.manifestBytes && f.sha256(manifest) == image.manifestSha256 && Intact(f, store, WrittenBlobs(image))
    ensures var r := WrittenRestored(f, limits, architecture, manifest, store, image);
            && (r.Some? <==> DocumentsFit(f, image, limits) && ArchiveBytes(limits).Some?)
            && (r.Some? ==> r.value.0 == image)
    ensures DocumentsFit(f, image, limits) && ArchiveBytes(limits).Some? ==>
              |Tar.Pack(f.tar, OciFiles(f, image, manifest, store))| <= ArchiveBytes(limits).value
  {
    VerifiedFacts(f, manifest, image.manifestSha256, architecture, limits, store, image);
    FreshAre(ImageBlobs(image), {image.manifestSha256});
    IntactHashSized(f, store, image, manifest);
    if ArchiveBytes(limits) == None {
      OverBudget(f, Tar.Pack(f.tar, OciFiles(f, image, manifest, store)), image.manifestSha256, architecture, limits);
    } else if !DocumentsFit(f, image, limits) {
      DocumentsTooLarge(f, limits, architecture, manifest, store, image);
    } else {
      WithinArchiveBytes(f, image, manifest, store, limits);
      RestoresPacked(f, limits, architecture, manifest, store, image);
    }
  }

  /** Every admitted image is, under some higher limits, admitted and written but not restored: the staging
      budget overflows when the layer limit is the largest number. */
  lemma EveryImageOutgrowsTheBudget(f: Formats, limits: Limits, architecture: string, manifest: Bytes, store: Store, image: Image)
    requires limits.Representable() && Verified(f, manifest, image.manifestSha256, architecture, limits, store) == Some(image)
    ensures var wide := limits.(layers := U64_MAX);
            && wide.Representable()
            && Verified(f, manifest, image.manifestSha256, architecture, wide, store) == Some(image)
            && |manifest| == image.manifestBytes && f.sha256(manifest) == image.manifestSha256 && Intact(f, store, WrittenBlobs(image))
            && WrittenRestored(f, wide, architecture, manifest, store, image) == None
  {
    var wide := limits.(layers := U64_MAX);
    RaisedLimits(f, manifest, image.manifestSha256, architecture, limits, wide, store, image);
    VerifiedFacts(f, manifest, image.manifestSha256, architecture, limits, store, image);
    FreshAre(ImageBlobs(image), {image.manifestSha256});
    assert ArchiveBytes(wide) == None;
    OverBudget(f, Tar.Pack(f.tar, OciFiles(f, image, manifest, store)), image.manifestSha256, architecture, wide);
  }
}
