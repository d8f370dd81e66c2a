/** The OCI image-layout archive: how an admitted image is written, and how an archive is restored. */
module OciArchive {
  import opened Options
  import opened ByteStrings
  import opened Json
  import opened ArchiveNames
  import opened ArchiveReaders
  import opened Numbers
  import opened ContainerImage
  import Hex
  import Tar

  // ---- Limits ----

  function CheckedAdd(a: Option<nat>, b: nat): Option<nat> {
    if a.Some? && a.value + b <= U64_MAX then Some(a.value + b) else None
  }

  function CheckedMul(a: nat, b: nat): Option<nat> {
    if a * b <= U64_MAX then Some(a * b) else None
  }

  /** The staging budget for a complete archive. */
  function ArchiveBytes(limits: Limits): Option<nat> {
    var entries := CheckedAdd(Some(limits.layers), 4);
    if entries == None then None
    else
      var framing := CheckedMul(entries.value, 1024);
      var content := CheckedAdd(CheckedMul(limits.jsonBytes, 4), limits.compressedBytes);
      if framing == None then None else CheckedAdd(CheckedAdd(content, framing.value), 1024)
  }

  /** The budget is the plain sum, unless that is out of range. */
  lemma ArchiveBytesIs(limits: Limits)
    ensures var total := 4 * limits.jsonBytes + limits.compressedBytes + 1024 * (limits.layers + 4) + 1024;
            ArchiveBytes(limits) == if total <= U64_MAX then Some(total) else None
  {
  }

  // ---- Writing ----

  const LAYOUT_TEXT := "{\"imageLayoutVersion\":\"1.0.0\"}"
  const LAYOUT_NAME := "oci-layout"
  const INDEX_NAME := "index.json"
  const BLOB_DIRECTORY := "blobs/sha256/"

  function BlobPath(sha256: Bytes): Bytes { Ascii(BLOB_DIRECTORY + Hex.Encode(sha256)) }

  function IndexValue(image: Image): Value {
    VObject(map[
      "schemaVersion" := VNumber(2),
      "manifests" := VArray([VObject(map[
        "mediaType" := VText(image.manifestMediaType),
        "digest" := VText(DigestText(image.manifestSha256)),
        "size" := VNumber(image.manifestBytes),
        "platform" := VObject(map["os" := VText("linux"), "architecture" := VText(image.architecture)])
      ])])
    ])
  }

  /** An archive under construction. */
  class Builder {
    const tar: Tar.Format
    var output: Bytes

    constructor (tar: Tar.Format)
      ensures this.tar == tar && output == []
    {
      this.tar, this.output := tar, [];
    }

    method Append(name: Bytes, content: Bytes)
      modifies this
      ensures output == old(output) + Tar.Framed(tar, Tar.File(name, content))
    {
      output := output + tar.header(name, |content|) + content;
      output := output + Tar.Zeros(Padded(|content|) - |content|);
    }

    method Finish() returns (archive: Bytes)
      modifies this
      ensures archive == old(output) + Tar.Zeros(1024)
    {
      output := output + Tar.Zeros(1024);
      archive := output;
    }
  }

  function Digests(blobs: seq<Blob>): set<Bytes> { set b | b in blobs :: b.sha256 }

  /** The blobs to write: each digest once, where it first occurs, and none written before. */
  function Fresh(blobs: seq<Blob>, written: set<Bytes>): seq<Blob> {
    if blobs == [] then []
    else
      var before, last := blobs[..|blobs| - 1], blobs[|blobs| - 1];
      if last.sha256 in written + Digests(before) then Fresh(before, written) else Fresh(before, written) + [last]
  }

  /** The member a blob is written as; its bytes are those the store holds. */
  function BlobFile(store: Store, blob: Blob): Tar.File {
    Tar.File(BlobPath(blob.sha256), if store(blob).Some? then store(blob).value else [])
  }

  function BlobFiles(store: Store, blobs: seq<Blob>): (files: seq<Tar.File>)
    ensures |files| == |blobs|
  {
    seq(|blobs|, i requires 0 <= i < |blobs| => BlobFile(store, blobs[i]))
  }

  function HeadFiles(f: Formats, image: Image, manifest: Bytes): seq<Tar.File> {
    [Tar.File(Ascii(LAYOUT_NAME), Ascii(LAYOUT_TEXT)),
     Tar.File(Ascii(INDEX_NAME), f.render(IndexValue(image))),
     Tar.File(BlobPath(image.manifestSha256), manifest)]
  }

  function ImageBlobs(image: Image): seq<Blob> { [image.config] + image.layers }

  function WrittenBlobs(image: Image): seq<Blob> { Fresh(ImageBlobs(image), {image.manifestSha256}) }

  /** Every member of the archive of an image, in order. */
  function OciFiles(f: Formats, image: Image, manifest: Bytes, store: Store): seq<Tar.File> {
    HeadFiles(f, image, manifest) + BlobFiles(store, WrittenBlobs(image))
  }

  ghost predicate Intact(f: Formats, store: Store, blobs: seq<Blob>) {
    forall b | b in blobs :: Content(f, store, b).Some?
  }

  lemma {:induction false} BodyAppend(t: Tar.Format, files: seq<Tar.File>, file: Tar.File)
    ensures Tar.Body(t, files + [file]) == Tar.Body(t, files) + Tar.Framed(t, file)
  {
    if files == [] {
      assert files + [file] == [file];
      assert Tar.Body(t, [file]) == Tar.Framed(t, file) + Tar.Body(t, []);
    } else {
      BodyAppend(t, files[1..], file);
      assert (files + [file])[1..] == files[1..] + [file];
      assert (files + [file])[0] == files[0];
    }
  }

  lemma BlobFilesAppend(store: Store, blobs: seq<Blob>, blob: Blob)
    ensures BlobFiles(store, blobs + [blob]) == BlobFiles(store, blobs) + [BlobFile(store, blob)]
  {
  }

  /** What one step of the writing loop appends. */
  lemma WriteStep(t: Tar.Format, head: seq<Tar.File>, store: Store, blobs: seq<Blob>, blob: Blob)
    ensures Tar.Body(t, head + BlobFiles(store, blobs + [blob]))
         == Tar.Body(t, head + BlobFiles(store, blobs)) + Tar.Framed(t, BlobFile(store, blob))
  {
    BlobFilesAppend(store, blobs, blob);
    BodyAppend(t, head + BlobFiles(store, blobs), BlobFile(store, blob));
    assert head + (BlobFiles(store, blobs) + [BlobFile(store, blob)]) == (head + BlobFiles(store, blobs)) + [BlobFile(store, blob)];
  }

  lemma {:induction false} FreshGrows(blobs: seq<Blob>, written: set<Bytes>, k: nat)
    requires k <= |blobs|
    ensures forall b | b in Fresh(blobs[..k], written) :: b in Fresh(blobs, written)
    decreases |blobs|
  {
    if k == |blobs| {
      assert blobs[..k] == blobs;
    } else {
      assert blobs[..|blobs| - 1][..k] == blobs[..k];
      FreshGrows(blobs[..|blobs| - 1], written, k);
    }
  }

  lemma FreshStep(blobs: seq<Blob>, written: set<Bytes>, i: nat)
    requires i < |blobs|
    ensures Digests(blobs[..i + 1]) == Digests(blobs[..i]) + {blobs[i].sha256}
    ensures Fresh(blobs[..i + 1], written) ==
              if blobs[i].sha256 in written + Digests(blobs[..i]) then Fresh(blobs[..i], written) else Fresh(blobs[..i], written) + [blobs[i]]
  {
    var upTo := blobs[..i + 1];
    assert upTo[..i] == blobs[..i] && upTo[i] == blobs[i];
    assert upTo == blobs[..i] + [blobs[i]];
    forall d ensures d in Digests(upTo) <==> d in Digests(blobs[..i]) + {blobs[i].sha256} {
    }
  }

  /** Append one blob under a name, rehashing it as it is read. */
  method AppendBlob(f: Formats, store: Store, blob: Blob, name: Bytes, builder: Builder, deliveries: seq<Delivery>, rooms: seq<nat>)
    returns (ok: bool)
    requires builder.tar == f.tar && Fault !in deliveries && blob.bytes <= U64_MAX
    modifies builder
    ensures ok <==> Content(f, store, blob).Some?
    ensures ok ==> store(blob).Some? && builder.output == old(builder.output) + Tar.Framed(f.tar, Tar.File(name, store(blob).value))
    ensures !ok ==> builder.output == old(builder.output)
  {
    var bytes := ReadBlob(f, store, blob, deliveries, rooms);
    if bytes == None { return false; }
    builder.Append(name, bytes.value);
    return true;
  }

  /** Append the blobs that are not in the archive yet, rehashing each. */
  method AppendBlobs(f: Formats, store: Store, blobs: seq<Blob>, first: Bytes, builder: Builder, ghost head: seq<Tar.File>,
                     deliveries: seq<Delivery>, rooms: seq<nat>)
    returns (ok: bool)
    requires builder.tar == f.tar && builder.output == Tar.Body(f.tar, head)
    requires Fault !in deliveries && forall b | b in blobs :: b.bytes <= U64_MAX
    modifies builder
    ensures ok <==> Intact(f, store, Fresh(blobs, {first}))
    ensures ok ==> builder.output == Tar.Body(f.tar, head + BlobFiles(store, Fresh(blobs, {first})))
  {
    var written := {first};
    assert head + BlobFiles(store, []) == head;
    for i := 0 to |blobs|
      invariant written == {first} + Digests(blobs[..i])
      invariant Intact(f, store, Fresh(blobs[..i], {first}))
      invariant builder.output == Tar.Body(f.tar, head + BlobFiles(store, Fresh(blobs[..i], {first})))
    {
      var b := blobs[i];
      FreshStep(blobs, {first}, i);
      if b.sha256 in written { continue; }
      written := written + {b.sha256};
      WriteStep(f.tar, head, store, Fresh(blobs[..i], {first}), b);
      ok := AppendBlob(f, store, b, BlobPath(b.sha256), builder, deliveries, rooms);
      if !ok {
        FreshGrows(blobs, {first}, i + 1);
        return;
      }
    }
    assert blobs[..|blobs|] == blobs;
    return true;
  }

  /** Write the archive of an image. It is written exactly if the manifest is the admitted one and every
      blob still has its digest and size. */
  method WriteContainerImageArchive(f: Formats, image: Image, manifest: Bytes, store: Store, deliveries: seq<Delivery>, rooms: seq<nat>)
    returns (r: Option<Bytes>)
    requires Fault !in deliveries && forall b | b in ImageBlobs(image) :: b.bytes <= U64_MAX
    ensures r.Some? <==>
              && |manifest| == image.manifestBytes && f.sha256(manifest) == image.manifestSha256
              && Intact(f, store, WrittenBlobs(image))
    ensures r.Some? ==> r.value == Tar.Pack(f.tar, OciFiles(f, image, manifest, store))
  {
    if |manifest| != image.manifestBytes || f.sha256(manifest) != image.manifestSha256 { return None; }
    var builder := new Builder(f.tar);
    ghost var head := HeadFiles(f, image, manifest);
    BodyAppend(f.tar, [], head[0]);
    assert [] + [head[0]] == [head[0]] && [head[0]] + [head[1]] == [head[0], head[1]] && [head[0], head[1]] + [head[2]] == head;
    builder.Append(Ascii(LAYOUT_NAME), Ascii(LAYOUT_TEXT));
    BodyAppend(f.tar, [head[0]], head[1]);
    builder.Append(Ascii(INDEX_NAME), f.render(IndexValue(image)));
    BodyAppend(f.tar, [head[0], head[1]], head[2]);
    builder.Append(BlobPath(image.manifestSha256), manifest);
    var ok := AppendBlobs(f, store, [image.config] + image.layers, image.manifestSha256, builder, head, deliveries, rooms);
    if !ok { return None; }
    var archive := builder.Finish();
    return Some(archive);
  }

  // ---- Restoring ----

  /** Where the content of each member lies: its offset and size. */
  type Members = map<Bytes, (nat, nat)>

  predicate HexByte(b: Byte) { 48 <= b <= 57 || 97 <= b <= 102 }

  predicate ValidMember(name: Bytes) {
    || name == Ascii(LAYOUT_NAME)
    || name == Ascii(INDEX_NAME)
    || (|name| == 77 && name[..13] == Ascii(BLOB_DIRECTORY) && forall i | 13 <= i < 77 :: HexByte(name[i]))
  }

  /** The index of the first `n` members: plain files under the names of the layout, each once. */
  function IndexOfMembers(members: seq<Tar.Member>, n: nat): Option<Members>
    requires n <= |members|
  {
    if n == 0 then Some(map[])
    else
      var before, m := IndexOfMembers(members, n - 1), members[n - 1];
      if before == None || m.entry.kind != Regular || !ValidMember(m.entry.name) || m.entry.name in before.value then None
      else Some(before.value[m.entry.name := (m.offset, m.size)])
  }

  lemma {:induction false} IndexFails(members: seq<Tar.Member>, k: nat, n: nat)
    requires k <= n <= |members| && IndexOfMembers(members, k) == None
    ensures IndexOfMembers(members, n) == None
    decreases n
  {
    if k < n { IndexFails(members, k, n - 1); }
  }

  method BuildIndex(members: seq<Tar.Member>) returns (r: Option<Members>)
    ensures r == IndexOfMembers(members, |members|)
  {
    var index: Members := map[];
    for i := 0 to |members|
      invariant IndexOfMembers(members, i) == Some(index)
    {
      var m := members[i];
      if m.entry.kind != Regular || !ValidMember(m.entry.name) || m.entry.name in index {
        IndexFails(members, i + 1, |members|);
        return None;
      }
      index := index[m.entry.name := (m.offset, m.size)];
    }
    return Some(index);
  }

  /** The bytes of a member as far as the file has them. */
  function Extent(file: Bytes, at: (nat, nat)): Bytes {
    if at.0 > |file| then [] else file[at.0..Min(at.0 + at.1, |file|)]
  }

  function ReadMember(file: Bytes, members: Members, name: Bytes, limit: nat): Option<Bytes> {
    if name !in members || members[name].1 == 0 || members[name].1 > limit || |Extent(file, members[name])| != members[name].1 then None
    else Some(Extent(file, members[name]))
  }

  /** The archive as a blob store. */
  function FileStore(file: Bytes, members: Members): Store {
    (blob: Blob) =>
      var path := BlobPath(blob.sha256);
      if path in members && members[path].1 == blob.bytes then Some(Extent(file, members[path])) else None
  }

  datatype IndexManifest = IndexManifest(mediaType: string, digest: string, size: nat, os: string, architecture: string)

  const LAYOUT: seq<string> := ["imageLayoutVersion"]
  const INDEX: seq<string> := ["schemaVersion", "manifests"]
  const INDEX_MANIFEST: seq<string> := ["mediaType", "digest", "size", "platform"]
  const PLATFORM: seq<string> := ["os", "architecture"]

  function LayoutVersion(j: Json): Option<string> {
    if Record(j, LAYOUT, true) then AsText(Field(j, LAYOUT, "imageLayoutVersion")) else None
  }

  function DecodeIndexManifest(j: Json): Option<IndexManifest> {
    if !Record(j, INDEX_MANIFEST, true) then None
    else
      var mediaType, digest := AsText(Field(j, INDEX_MANIFEST, "mediaType")), AsText(Field(j, INDEX_MANIFEST, "digest"));
      var size, platform := AsNat(Field(j, INDEX_MANIFEST, "size"), U64_MAX), Field(j, INDEX_MANIFEST, "platform");
      if mediaType == None || digest == None || size == None || platform == None || !Record(platform.value, PLATFORM, true) then None
      else
        var os, architecture := AsText(Field(platform.value, PLATFORM, "os")), AsText(Field(platform.value, PLATFORM, "architecture"));
        if os == None || architecture == None then None
        else Some(IndexManifest(mediaType.value, digest.value, size.value, os.value, architecture.value))
  }

  /** The only manifest an index lists. */
  function OnlyManifest(j: Json): Option<IndexManifest> {
    if !Record(j, INDEX, true) then None
    else
      var version, manifests := AsNat(Field(j, INDEX, "schemaVersion"), 0xffff_ffff), AsArray(Field(j, INDEX, "manifests"));
      if version != Some(2) || manifests == None || |manifests.value| != 1 then None else DecodeIndexManifest(manifests.value[0])
  }

  function ParseMember(f: Formats, file: Bytes, members: Members, name: Bytes, limit: nat): Option<Json> {
    match ReadMember(file, members, name, limit)
    case None => None
    case Some(bytes) => f.parse(bytes)
  }

  /** The artifact as a whole: its size and digest, a sound archive with few enough members, and their
      index. */
  ghost function Opened(f: Formats, file: Bytes, artifact: Blob, limits: Limits): Option<Members> {
    var budget := ArchiveBytes(limits);
    if budget == None || artifact.bytes == 0 || artifact.bytes > budget.value then None
    else if !SoundArchive(f, file, false) || HeaderCount(f, file) > limits.layers + 4 || artifact != Blob(f.sha256(file), |file|) then None
    else IndexOfMembers(f.tar.view(file).value.members, |f.tar.view(file).value.members|)
  }

  /** The manifest the layout leads to. */
  function LayoutManifest(f: Formats, file: Bytes, members: Members, expected: Bytes, architecture: string, limits: Limits): Option<Bytes> {
    var layout := ParseMember(f, file, members, Ascii(LAYOUT_NAME), limits.jsonBytes);
    var index := ParseMember(f, file, members, Ascii(INDEX_NAME), limits.jsonBytes);
    if layout == None || index == None || LayoutVersion(layout.value) != Some("1.0.0") then None
    else
      match OnlyManifest(index.value)
      case None => None
      case Some(d) =>
        var bytes := ReadMember(file, members, BlobPath(expected), limits.jsonBytes);
        if ParseDigest(d.digest) != Some(expected) || d.os != "linux" || d.architecture != architecture || bytes == None then None
        else
          var parsed := f.parse(bytes.value);
          if parsed == None || DecodeManifest(parsed.value) == None then None
          else if d.size != |bytes.value| || d.mediaType != DecodeManifest(parsed.value).value.mediaType then None
          else bytes
  }

  /** The members an image needs, and no others. */
  function Required(image: Image, expected: Bytes): set<Bytes> {
    {Ascii(LAYOUT_NAME), Ascii(INDEX_NAME), BlobPath(expected), BlobPath(image.config.sha256)}
    + set b | b in image.layers :: BlobPath(b.sha256)
  }

  /** The image an archive holds, with its member index; or nothing. */
  ghost function Restored(f: Formats, file: Bytes, artifact: Blob, expected: Bytes, architecture: string, limits: Limits): Option<(Image, Members)> {
    match Opened(f, file, artifact, limits)
    case None => None
    case Some(members) =>
      match LayoutManifest(f, file, members, expected, architecture, limits)
      case None => None
      case Some(manifest) =>
        match Verified(f, manifest, expected, architecture, limits, FileStore(file, members))
        case None => None
        case Some(image) => if members.Keys == Required(image, expected) then Some((image, members)) else None
  }

  method OpenArchive(f: Formats, file: Bytes, artifact: Blob, limits: Limits, deliveries: seq<Delivery>, rooms: seq<nat>)
    returns (r: Option<Members>)
    requires limits.Representable() && Fault !in deliveries && artifact.bytes <= U64_MAX
    ensures r == Opened(f, file, artifact, limits)
  {
    var budget := ArchiveBytes(limits);
    if budget == None || artifact.bytes == 0 || artifact.bytes > budget.value { return None; }
    var source := new Source(file, deliveries);
    var inspected := InspectArchive(f, source, artifact.bytes, limits.layers + 4, false, rooms);
    if inspected == None || inspected.value.0.sha256 != artifact.sha256 || inspected.value.0.bytes != artifact.bytes { return None; }
    r := BuildIndex(f.tar.view(file).value.members);
  }

  method VerifyArchive(f: Formats, file: Bytes, artifact: Blob, expected: Bytes, architecture: string, limits: Limits,
                       deliveries: seq<Delivery>, rooms: seq<nat>)
    returns (r: Option<(Image, Members)>)
    requires limits.Representable() && Fault !in deliveries && artifact.bytes <= U64_MAX
    ensures r == Restored(f, file, artifact, expected, architecture, limits)
  {
    var members := OpenArchive(f, file, artifact, limits, deliveries, rooms);
    if members == None { return None; }
    var manifest := LayoutManifest(f, file, members.value, expected, architecture, limits);
    if manifest == None { return None; }
    var image := VerifyContainerImage(f, manifest.value, expected, architecture, limits, FileStore(file, members.value), deliveries, rooms);
    if image == None { return None; }
    if members.value.Keys != Required(image.value, expected) { return None; }
    return Some((image.value, members.value));
  }
}
