/** Building a one-layer snapshot image that is declared verified without being verified again. */
module Snapshot {
  import opened Options
  import opened ByteStrings
  import opened Json
  import opened ArchiveReaders
  import opened Numbers
  import opened ContainerImage
  import opened OciArchive
  import Tar

  function DescriptorFields(mediaType: string, blob: Blob): map<string, Value> {
    map["mediaType" := VText(mediaType), "digest" := VText(DigestText(blob.sha256)), "size" := VNumber(blob.bytes)]
  }

  function ManifestFields(config: Blob, layer: Blob): map<string, Value> {
    map[
      "schemaVersion" := VNumber(2),
      "mediaType" := VText(OCI_MANIFEST),
      "config" := VObject(DescriptorFields(OCI_CONFIG, config)),
      "layers" := VArray([VObject(DescriptorFields(OCI_TAR_GZIP, layer))])]
  }

  function RootfsFields(diffId: Bytes): map<string, Value> {
    map["type" := VText("layers"), "diff_ids" := VArray([VText(DigestText(diffId))])]
  }

  /** The configuration with its history dropped and its layers replaced. */
  function Edited(fields: map<string, Value>, diffId: Bytes): map<string, Value> {
    (fields - {"history"})["rootfs" := VObject(RootfsFields(diffId))]
  }

  function EditConfiguration(f: Formats, configuration: Bytes, diffId: Bytes): Option<Bytes> {
    match f.parse(configuration)
    case None => None
    case Some(j) => if ToValue(j).VObject? then Some(f.render(VObject(Edited(ToValue(j).fields, diffId)))) else None
  }

  /** What a snapshot consists of. */
  datatype Built = Built(image: Image, manifest: Bytes, configuration: Bytes, layer: Bytes)

  function BuiltImage(f: Formats, source: Image, manifest: Bytes, config: Blob, layer: Blob, rootfs: Blob): Image {
    Image(f.sha256(manifest), |manifest|, OCI_MANIFEST, config, source.architecture, [layer], [rootfs.sha256], rootfs.bytes)
  }

  function BlobFor(f: Formats, bytes: Bytes): Blob { Blob(f.sha256(bytes), |bytes|) }

  /** The blobs of a snapshot while it is written; the layer comes from the scratch file. */
  function GeneratedStore(config: Blob, configuration: Bytes, layer: Blob, staged: Bytes): Store {
    (blob: Blob) => if blob == config then Some(configuration) else if blob == layer then Some(staged) else None
  }

  ghost predicate RootfsAccepted(f: Formats, rootfs: Bytes, limits: Limits) {
    && limits.unpackedBytes != 0 && limits.entries != 0
    && SoundArchive(f, rootfs, false) && |rootfs| <= limits.unpackedBytes && HeaderCount(f, rootfs) <= limits.entries
  }

  /** The snapshot built from a root filesystem that reads as `inspected` when it is checked and as `again`
      when it is compressed; or nothing. */
  ghost function Snapshotted(f: Formats, source: Image, configuration: Bytes, inspected: Bytes, again: Bytes, limits: Limits): Option<Built> {
    if limits.layers == 0 || |configuration| > limits.jsonBytes || BlobFor(f, configuration) != source.config then None
    else if !RootfsAccepted(f, inspected, limits) then None
    else if BlobFor(f, again) != BlobFor(f, inspected) || |f.gzip(again)| > limits.compressedBytes then None
    else
      match EditConfiguration(f, configuration, f.sha256(inspected))
      case None => None
      case Some(edited) =>
        var config, layer := BlobFor(f, edited), BlobFor(f, f.gzip(again));
        var manifest := f.render(VObject(ManifestFields(config, layer)));
        if |edited| > limits.jsonBytes || |manifest| > limits.jsonBytes then None
        else Some(Built(BuiltImage(f, source, manifest, config, layer, BlobFor(f, inspected)), manifest, edited, f.gzip(again)))
  }

  // ---- How it is carried out ----

  /** Read a file to its end and compare it with what it was. */
  method Unchanged(f: Formats, rootfs: Bytes, expected: Blob, deliveries: seq<Delivery>, rooms: seq<nat>) returns (ok: bool)
    requires Fault !in deliveries && expected.bytes <= U64_MAX
    ensures ok <==> BlobFor(f, rootfs) == expected
  {
    var source := new Source(rootfs, deliveries);
    var read := ReadToEnd(source, expected.bytes, rooms);
    return read.Some? && |read.value| == expected.bytes && f.sha256(read.value) == expected.sha256;
  }

  /** Compress piece by piece: count, hash and stage every piece, as long as the limit allows. */
  method StageLayer(f: Formats, rootfs: Bytes, limits: Limits, deliveries: seq<Delivery>) returns (r: Option<(Blob, Bytes)>)
    requires Fault !in deliveries && limits.Representable()
    ensures r.Some? <==> |f.gzip(rootfs)| <= limits.compressedBytes
    ensures r.Some? ==> r.value == (BlobFor(f, f.gzip(rootfs)), f.gzip(rootfs))
  {
    var stream := new Source(f.gzip(rootfs), deliveries);
    var staged, hashed, bytes := [], [], 0;
    while true
      invariant fresh(stream) && stream.Faultless() && stream.data == f.gzip(rootfs)
      invariant stream.pos == bytes == |staged| <= |stream.data| && bytes <= limits.compressedBytes
      invariant staged == stream.data[..bytes] && hashed == staged
      decreases |stream.data| - bytes
    {
      var chunk := stream.Read(65536);
      if chunk.bytes == [] { break; }
      if |chunk.bytes| > limits.compressedBytes - bytes { return None; }
      bytes := bytes + |chunk.bytes|;
      hashed := hashed + chunk.bytes;
      staged := staged + chunk.bytes;
    }
    assert stream.data[..bytes] == stream.data;
    return Some((Blob(f.sha256(hashed), bytes), staged));
  }

  /** Everything up to writing: the configuration must be the source's, the root filesystem is checked,
      then read again and compressed. */
  method BuildSnapshot(f: Formats, source: Image, configuration: Bytes, inspected: Bytes, again: Bytes,
                       limits: Limits, deliveries: seq<Delivery>, rooms: seq<nat>)
    returns (r: Option<Built>)
    requires limits.Representable() && Fault !in deliveries
    ensures r == Snapshotted(f, source, configuration, inspected, again, limits)
  {
    if limits.layers == 0 || |configuration| != source.config.bytes || |configuration| > limits.jsonBytes
       || f.sha256(configuration) != source.config.sha256 {
      return None;
    }
    if limits.unpackedBytes == 0 || limits.entries == 0 { return None; }
    var file := new Source(inspected, deliveries);
    var checked := InspectArchive(f, file, limits.unpackedBytes, limits.entries, false, rooms);
    if checked == None { return None; }
    var rootfs := checked.value.0;
    var same := Unchanged(f, again, rootfs, deliveries, rooms);
    if !same { return None; }
    var staged := StageLayer(f, again, limits, deliveries);
    if staged == None { return None; }
    var edited := EditConfiguration(f, configuration, rootfs.sha256);
    if edited == None || |edited.value| > limits.jsonBytes { return None; }
    var config, layer := BlobFor(f, edited.value), staged.value.0;
    var manifest := f.render(VObject(ManifestFields(config, layer)));
    if |manifest| > limits.jsonBytes { return None; }
    return Some(Built(BuiltImage(f, source, manifest, config, layer, rootfs), manifest, edited.value, staged.value.1));
  }

  function StoreOf(s: Built, staged: Bytes): Store {
    GeneratedStore(s.image.config, s.configuration, if s.image.layers == [] then s.image.config else s.image.layers[0], staged)
  }

  lemma SnapshotShape(f: Formats, source: Image, configuration: Bytes, inspected: Bytes, again: Bytes, limits: Limits, s: Built)
    requires limits.Representable() && Snapshotted(f, source, configuration, inspected, again, limits) == Some(s)
    ensures s.image.config == BlobFor(f, s.configuration) && s.image.layers == [BlobFor(f, s.layer)]
    ensures |s.manifest| == s.image.manifestBytes && f.sha256(s.manifest) == s.image.manifestSha256
    ensures forall b | b in ImageBlobs(s.image) :: b.bytes <= U64_MAX
  {
  }

  /** The root filesystem file is read three times, and may have changed in between; the scratch file may
      read back differently from what was staged. A snapshot is returned exactly if the first two readings
      build one, the scratch file still holds the layer, and the third reading is like the first. */
  method WriteContainerSnapshotImage(f: Formats, source: Image, configuration: Bytes, scratchIsEmpty: bool,
                                     inspected: Bytes, again: Bytes, finally: Bytes, readBack: Bytes -> Bytes,
                                     limits: Limits, deliveries: seq<Delivery>, rooms: seq<nat>)
    returns (r: Option<(Image, Bytes)>)
    requires limits.Representable() && Fault !in deliveries
    ensures var s := Snapshotted(f, source, configuration, inspected, again, limits);
            && (r.Some? <==>
                  && scratchIsEmpty && s.Some? && BlobFor(f, finally) == BlobFor(f, inspected)
                  && Intact(f, StoreOf(s.value, readBack(s.value.layer)), WrittenBlobs(s.value.image)))
            && (r.Some? ==>
                  && r.value.0 == s.value.image
                  && r.value.1 == Tar.Pack(f.tar, OciFiles(f, s.value.image, s.value.manifest, StoreOf(s.value, readBack(s.value.layer)))))
  {
    var built := BuildSnapshot(f, source, configuration, inspected, again, limits, deliveries, rooms);
    if built == None { return None; }
    SnapshotShape(f, source, configuration, inspected, again, limits, built.value);
    if !scratchIsEmpty { return None; }
    var store := StoreOf(built.value, readBack(built.value.layer));
    var archive := WriteContainerImageArchive(f, built.value.image, built.value.manifest, store, deliveries, rooms);
    if archive == None { return None; }
    RootfsBounded(f, source, configuration, inspected, again, limits);
    var same := Unchanged(f, finally, BlobFor(f, inspected), deliveries, rooms);
    if !same { return None; }
    return Some((built.value.image, archive.value));
  }

  lemma RootfsBounded(f: Formats, source: Image, configuration: Bytes, inspected: Bytes, again: Bytes, limits: Limits)
    requires limits.Representable() && Snapshotted(f, source, configuration, inspected, again, limits).Some?
    ensures |inspected| <= U64_MAX
  {
  }
}
