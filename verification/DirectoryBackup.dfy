/** Streaming a flattened directory backup out of its sealed archive as the original tar. */
module DirectoryBackup {
  import opened Options
  import opened ByteStrings
  import opened ArchiveNames
  import opened ArchiveReaders
  import opened Numbers
  import opened ContainerImage
  import opened OciArchive
  import opened ImageFacts
  import opened ImageAdmission
  import Extraction

  /** The unpacked bytes of the only layer of a restored archive, by the transport its manifest declares. */
  function OnlyLayer(f: Formats, file: Bytes, members: Members, image: Image, expected: Bytes, limits: Limits): Option<Bytes> {
    if |image.layers| != 1 || |image.diffIds| != 1 then None
    else
      match ReadMember(file, members, BlobPath(expected), limits.jsonBytes)
      case None => None
      case Some(bytes) =>
        var parsed := f.parse(bytes);
        if parsed == None || DecodeManifest(parsed.value) == None || |DecodeManifest(parsed.value).value.layers| != 1
           || BlobPath(image.layers[0].sha256) !in members then None
        else Unpack(f, DecodeManifest(parsed.value).value.layers[0].mediaType, Extent(file, members[BlobPath(image.layers[0].sha256)]))
  }

  /** What must hold of a layer as unpacked and as stored before its unpacked bytes are handed out. */
  ghost predicate Passes(f: Formats, image: Image, limits: Limits, data: Bytes, stored: Bytes, size: nat)
    requires |image.layers| == 1 && |image.diffIds| == 1
  {
    && f.sha256(data) == image.diffIds[0] && |data| == image.unpackedBytes
    && SoundArchive(f, data, true) && limits.entries != 0 && HeaderCount(f, data) <= limits.entries
    && f.sha256(stored) == image.layers[0].sha256 && |stored| == size
  }

  /** Copy every byte the checks pull; the copy counts only if they all pass. */
  method CopyChecked(f: Formats, image: Image, limits: Limits, data: Bytes, stored: Bytes, size: nat, deliveries: seq<Delivery>, rooms: seq<nat>)
    returns (r: Option<Bytes>)
    requires |image.layers| == 1 && |image.diffIds| == 1 && Fault !in deliveries && image.unpackedBytes <= U64_MAX
    ensures r == if Passes(f, image, limits, data, stored, size) then Some(data) else None
  {
    if image.unpackedBytes == 0 || limits.entries == 0 || |data| > image.unpackedBytes { return None; }
    var unpacked := new Source(data, deliveries);
    var inspected := InspectArchive(f, unpacked, image.unpackedBytes, limits.entries, true, rooms);
    if inspected == None { return None; }
    var output := unpacked.data[..unpacked.pos];
    assert output == data;
    if |output| != image.unpackedBytes || f.sha256(output) != image.diffIds[0] { return None; }
    if |stored| != size || f.sha256(stored) != image.layers[0].sha256 { return None; }
    return Some(output);
  }

  /** The unpacked bytes of the only layer, if they and the stored ones pass. */
  ghost function Handed(f: Formats, file: Bytes, members: Members, image: Image, expected: Bytes, limits: Limits): Option<Bytes> {
    match OnlyLayer(f, file, members, image, expected, limits)
    case None => None
    case Some(data) =>
      var at := members[BlobPath(image.layers[0].sha256)];
      if Passes(f, image, limits, data, Extent(file, at), at.1) then Some(data) else None
  }

  method WriteContainerDirectoryArchive(f: Formats, file: Bytes, artifact: Blob, expected: Bytes, architecture: string, limits: Limits,
                                        deliveries: seq<Delivery>, rooms: seq<nat>)
    returns (r: Option<Bytes>)
    requires limits.Representable() && Fault !in deliveries && artifact.bytes <= U64_MAX
    ensures var restored := Restored(f, file, artifact, expected, architecture, limits);
            r == if restored.Some? then Handed(f, file, restored.value.1, restored.value.0, expected, limits) else None
  {
    var restored := VerifyArchive(f, file, artifact, expected, architecture, limits, deliveries, rooms);
    if restored == None { return None; }
    RestoredBounded(f, file, artifact, expected, architecture, limits, restored.value.0, restored.value.1);
    r := HandOut(f, file, restored.value.1, restored.value.0, expected, limits, deliveries, rooms);
  }

  method HandOut(f: Formats, file: Bytes, members: Members, image: Image, expected: Bytes, limits: Limits, deliveries: seq<Delivery>, rooms: seq<nat>)
    returns (r: Option<Bytes>)
    requires Fault !in deliveries && image.unpackedBytes <= U64_MAX
    ensures r == Handed(f, file, members, image, expected, limits)
  {
    var data := OnlyLayer(f, file, members, image, expected, limits);
    if data == None { return None; }
    var at := members[BlobPath(image.layers[0].sha256)];
    r := CopyChecked(f, image, limits, data.value, Extent(file, at), at.1, deliveries, rooms);
  }

  /** The parts of a successful restoration. */
  lemma RestoredParts(f: Formats, file: Bytes, artifact: Blob, expected: Bytes, architecture: string, limits: Limits, image: Image, members: Members)
    returns (manifest: Bytes)
    requires Restored(f, file, artifact, expected, architecture, limits) == Some((image, members))
    ensures ReadMember(file, members, BlobPath(expected), limits.jsonBytes) == Some(manifest)
    ensures Verified(f, manifest, expected, architecture, limits, FileStore(file, members)) == Some(image)
  {
    manifest := LayoutManifest(f, file, members, expected, architecture, limits).value;
  }

  lemma RestoredBounded(f: Formats, file: Bytes, artifact: Blob, expected: Bytes, architecture: string, limits: Limits, image: Image, members: Members)
    requires limits.Representable() && Restored(f, file, artifact, expected, architecture, limits) == Some((image, members))
    ensures image.unpackedBytes <= U64_MAX
  {
    var manifest := RestoredParts(f, file, artifact, expected, architecture, limits, image, members);
    var m, diffIds, layers := VerifiedParts(f, manifest, expected, architecture, limits, FileStore(file, members), image);
  }

  // ---- What is handed out ----

  /** The only layer as admission saw it. */
  lemma OnlyLayerIs(f: Formats, limits: Limits, store: Store, d: Descriptor, diffId: Bytes, layer: Layer)
    requires LayerOf(f, limits, store, d, diffId) == Some(layer)
    ensures Content(f, store, layer.blob) == Some(layer.compressed) && Unpack(f, d.mediaType, layer.compressed) == Some(layer.unpacked)
    ensures f.sha256(layer.unpacked) == diffId && layer.headers == HeaderCount(f, layer.unpacked)
  {
  }

  lemma OneLayerSums(layers: seq<Layer>)
    requires |layers| == 1
    ensures UnpackedSum(layers) == |layers[0].unpacked| && HeaderSum(layers) == layers[0].headers
  {
    assert layers == [] + [layers[0]];
    SumsStep([], layers[0]);
  }

  /** The stored layer of a one-layer image, unpacked, passes every check but possibly that of the tree. */
  lemma LayerPasses(f: Formats, file: Bytes, manifest: Bytes, expected: Bytes, architecture: string, limits: Limits, image: Image, members: Members)
    returns (m: Manifest, data: Bytes)
    requires Verified(f, manifest, expected, architecture, limits, FileStore(file, members)) == Some(image) && |image.layers| == 1
    requires ReadMember(file, members, BlobPath(expected), limits.jsonBytes) == Some(manifest)
    ensures OnlyLayer(f, file, members, image, expected, limits) == Some(data)
    ensures var at := members[BlobPath(image.layers[0].sha256)];
            Passes(f, image, limits, data, Extent(file, at), at.1) <==> SoundArchive(f, data, true)
    ensures f.sha256(data) == image.diffIds[0]
    ensures f.parse(manifest).Some? && DecodeManifest(f.parse(manifest).value) == Some(m) && |m.layers| == 1
    ensures StoredAs(f, file, members, m.layers[0].mediaType, image.layers[0], data)
  {
    var store := FileStore(file, members);
    var diffIds, layers;
    m, diffIds, layers := VerifiedParts(f, manifest, expected, architecture, limits, store, image);
    assert Each(f, limits, store, m.layers, diffIds)[0] == Some(layers[0]);
    OnlyLayerIs(f, limits, store, m.layers[0], diffIds[0], layers[0]);
    OneLayerSums(layers);
    data := layers[0].unpacked;
    StoredLayer(f, file, members, image.layers[0], layers[0].compressed);
    UnpackCarries(f, m.layers[0].mediaType, layers[0].compressed, data);
  }

  /** The archive's member for this blob carries these bytes, by the transport of the media type. */
  ghost predicate StoredAs(f: Formats, file: Bytes, members: Members, mediaType: string, blob: Blob, data: Bytes) {
    && BlobPath(blob.sha256) in members
    && var stored := Extent(file, members[BlobPath(blob.sha256)]);
       f.sha256(stored) == blob.sha256 && |stored| == blob.bytes && Carries(f, mediaType, stored, data)
  }

  /** What the archive's store gives for a blob is its whole member. */
  lemma StoredLayer(f: Formats, file: Bytes, members: Members, blob: Blob, bytes: Bytes)
    requires Content(f, FileStore(file, members), blob) == Some(bytes)
    ensures BlobPath(blob.sha256) in members
    ensures var at := members[BlobPath(blob.sha256)];
            Extent(file, at) == bytes && |bytes| == at.1 && f.sha256(bytes) == blob.sha256
  {
  }

  /** From a restored archive with one layer, exactly the tar that the stored layer carries by its own transport,
      which has DiffID 0, is handed out, and exactly if its members form a tree that is safe to extract. */
  lemma BackupIsOriginal(f: Formats, file: Bytes, artifact: Blob, expected: Bytes, architecture: string, limits: Limits, image: Image, members: Members)
    returns (manifest: Bytes, m: Manifest, data: Bytes)
    requires Restored(f, file, artifact, expected, architecture, limits) == Some((image, members)) && |image.layers| == 1
    ensures ReadMember(file, members, BlobPath(expected), limits.jsonBytes) == Some(manifest)
    ensures f.parse(manifest).Some? && DecodeManifest(f.parse(manifest).value) == Some(m) && |m.layers| == 1
    ensures StoredAs(f, file, members, m.layers[0].mediaType, image.layers[0], data)
    ensures |image.diffIds| == 1 && f.sha256(data) == image.diffIds[0]
    ensures Handed(f, file, members, image, expected, limits) == if SoundArchive(f, data, true) then Some(data) else None
  {
    manifest := RestoredParts(f, file, artifact, expected, architecture, limits, image, members);
    m, data := LayerPasses(f, file, manifest, expected, architecture, limits, image, members);
  }

  /** Nothing is handed out of an archive with more or fewer layers. */
  lemma OnlyOneLayer(f: Formats, file: Bytes, members: Members, image: Image, expected: Bytes, limits: Limits)
    requires |image.layers| != 1
    ensures Handed(f, file, members, image, expected, limits) == None
  {
    assert OnlyLayer(f, file, members, image, expected, limits) == None;
  }

  lemma HandedSound(f: Formats, file: Bytes, members: Members, image: Image, expected: Bytes, limits: Limits, data: Bytes)
    requires Handed(f, file, members, image, expected, limits) == Some(data)
    ensures f.tar.view(data).Some? && Admissible(Names(f.tar.view(data).value), true)
  {
    var at := members[BlobPath(image.layers[0].sha256)];
    assert Passes(f, image, limits, data, Extent(file, at), at.1);
  }

  /** Whatever is handed out can be extracted in any order without meeting a link on the way. */
  lemma BackupIsLinkSafe(f: Formats, file: Bytes, members: Members, image: Image, expected: Bytes, limits: Limits, data: Bytes, order: seq<Entry>)
    requires Handed(f, file, members, image, expected, limits) == Some(data)
    requires f.tar.view(data).Some? && multiset(order) == multiset(Names(f.tar.view(data).value))
    ensures Extraction.SafeRun(Names(f.tar.view(data).value), order)
  {
    HandedSound(f, file, members, image, expected, limits, data);
    Extraction.LinkSafe(Names(f.tar.view(data).value), order);
  }
}
