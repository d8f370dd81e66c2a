/** The snapshot shortcut is sound: verifying the built image from scratch would return the same image. */
module SnapshotSound {
  import opened Options
  import opened ByteStrings
  import opened Json
  import opened Numbers
  import opened ContainerImage
  import opened OciArchive
  import opened ImageLaws
  import opened ImageFacts
  import opened Snapshot
  import OciRoundTrip

  // ---- The generated documents read back ----

  function DescriptorFor(mediaType: string, blob: Blob): Descriptor {
    Descriptor(mediaType, DigestText(blob.sha256), blob.bytes, false)
  }

  lemma DescriptorReads(mediaType: string, blob: Blob, j: Json)
    requires Proper(j) && ToValue(j) == VObject(DescriptorFields(mediaType, blob)) && blob.bytes <= U64_MAX
    ensures DecodeDescriptor(j) == Some(DescriptorFor(mediaType, blob))
  {
    var fields := DescriptorFields(mediaType, blob);
    ShowsRecord(j, fields, DESCRIPTOR, false);
    ShowsField(j, fields, DESCRIPTOR, "mediaType");
    ShowsField(j, fields, DESCRIPTOR, "digest");
    ShowsField(j, fields, DESCRIPTOR, "size");
    ShowsField(j, fields, DESCRIPTOR, "urls");
    ShowsField(j, fields, DESCRIPTOR, "data");
  }

  lemma OneItem(j: Json, v: Value)
    requires Proper(j) && ToValue(j) == VArray([v])
    ensures j.Array? && |j.items| == 1 && Proper(j.items[0]) && ToValue(j.items[0]) == v
  {
    assert |j.items| == |ToValue(j).items|;
    assert ToValue(j.items[0]) == ToValue(j).items[0];
  }

  function ManifestFor(config: Blob, layer: Blob): Manifest {
    Manifest(2, OCI_MANIFEST, DescriptorFor(OCI_CONFIG, config), [DescriptorFor(OCI_TAR_GZIP, layer)], false)
  }

  /** The plain fields of the manifest document, and where its descriptors are. */
  lemma ManifestFieldsRead(config: Blob, layer: Blob, j: Json)
    requires Proper(j) && ToValue(j) == VObject(Snapshot.ManifestFields(config, layer))
    ensures Record(j, MANIFEST, false)
    ensures Field(j, MANIFEST, "schemaVersion") == Some(Number(2)) && Field(j, MANIFEST, "mediaType") == Some(Text(OCI_MANIFEST))
    ensures Field(j, MANIFEST, "artifactType") == None && Field(j, MANIFEST, "subject") == None
  {
    var fields := Snapshot.ManifestFields(config, layer);
    ShowsRecord(j, fields, MANIFEST, false);
    ShowsField(j, fields, MANIFEST, "schemaVersion");
    ShowsField(j, fields, MANIFEST, "mediaType");
    ShowsField(j, fields, MANIFEST, "artifactType");
    ShowsField(j, fields, MANIFEST, "subject");
  }

  lemma ManifestDescriptorsRead(config: Blob, layer: Blob, j: Json)
    requires Proper(j) && ToValue(j) == VObject(Snapshot.ManifestFields(config, layer)) && Record(j, MANIFEST, false)
    requires config.bytes <= U64_MAX && layer.bytes <= U64_MAX
    ensures Field(j, MANIFEST, "config").Some?
    ensures DecodeDescriptor(Field(j, MANIFEST, "config").value) == Some(DescriptorFor(OCI_CONFIG, config))
    ensures AsArray(Field(j, MANIFEST, "layers")).Some?
    ensures DecodeDescriptors(AsArray(Field(j, MANIFEST, "layers")).value) == Some([DescriptorFor(OCI_TAR_GZIP, layer)])
  {
    var fields := Snapshot.ManifestFields(config, layer);
    ShowsField(j, fields, MANIFEST, "config");
    ShowsField(j, fields, MANIFEST, "layers");
    DescriptorReads(OCI_CONFIG, config, Field(j, MANIFEST, "config").value);
    var list := Field(j, MANIFEST, "layers").value;
    OneItem(list, VObject(DescriptorFields(OCI_TAR_GZIP, layer)));
    DescriptorReads(OCI_TAR_GZIP, layer, list.items[0]);
    OneDescriptor(list.items, DescriptorFor(OCI_TAR_GZIP, layer));
  }

  lemma ManifestReads(config: Blob, layer: Blob, j: Json)
    requires Proper(j) && ToValue(j) == VObject(Snapshot.ManifestFields(config, layer))
    requires config.bytes <= U64_MAX && layer.bytes <= U64_MAX
    ensures DecodeManifest(j) == Some(ManifestFor(config, layer))
  {
    ManifestFieldsRead(config, layer, j);
    ManifestDescriptorsRead(config, layer, j);
  }

  lemma OneDescriptor(items: seq<Json>, d: Descriptor)
    requires |items| == 1 && DecodeDescriptor(items[0]) == Some(d)
    ensures DecodeDescriptors(items) == Some([d])
  {
    assert items[1..] == [] && DecodeDescriptors([]) == Some([]);
    assert [d] + [] == [d];
  }

  lemma RootfsReads(diffId: Bytes, j: Json)
    requires Proper(j) && ToValue(j) == VObject(RootfsFields(diffId))
    ensures Record(j, ROOTFS, false) && AsText(Field(j, ROOTFS, "type")) == Some("layers")
    ensures AsArray(Field(j, ROOTFS, "diff_ids")).Some? && Texts(AsArray(Field(j, ROOTFS, "diff_ids")).value) == Some([DigestText(diffId)])
  {
    var fields := RootfsFields(diffId);
    ShowsRecord(j, fields, ROOTFS, false);
    ShowsField(j, fields, ROOTFS, "type");
    ShowsField(j, fields, ROOTFS, "diff_ids");
    var list := Field(j, ROOTFS, "diff_ids").value;
    OneItem(list, VText(DigestText(diffId)));
    assert list.items[1..] == [] && Texts([]) == Some([]) && [DigestText(diffId)] + [] == [DigestText(diffId)];
  }

  /** An edited configuration keeps the platform and declares the one new layer. */
  lemma EditedReads(fields: map<string, Value>, diffId: Bytes, architecture: string, os: string, j: Json)
    requires "architecture" in fields && fields["architecture"] == VText(architecture)
    requires "os" in fields && fields["os"] == VText(os)
    requires Proper(j) && ToValue(j) == VObject(Edited(fields, diffId))
    ensures DecodeConfig(j) == Some(Config(architecture, os, "layers", [DigestText(diffId)]))
  {
    var edited := Edited(fields, diffId);
    ShowsRecord(j, edited, CONFIG, false);
    ShowsField(j, edited, CONFIG, "architecture");
    ShowsField(j, edited, CONFIG, "os");
    ShowsField(j, edited, CONFIG, "rootfs");
    RootfsReads(diffId, Field(j, CONFIG, "rootfs").value);
  }

  /** What the source's configuration says about the platform is in its generic value. */
  lemma SourcePlatform(f: Formats, configuration: Bytes, architecture: string, layers: nat)
    requires DiffIdsOf(f, configuration, architecture, layers).Some?
    ensures f.parse(configuration).Some?
    ensures var v := ToValue(f.parse(configuration).value);
            v.VObject? ==>
              && "architecture" in v.fields && v.fields["architecture"] == VText(architecture)
              && "os" in v.fields && v.fields["os"] == VText("linux")
  {
    var j := f.parse(configuration).value;
    if j.Object? {
      TextInValue(j, CONFIG, "architecture", architecture);
      TextInValue(j, CONFIG, "os", "linux");
    }
  }

  /** The edited configuration, if there is one, reads back as it was rendered. */
  ghost predicate EditReadsBack(f: Formats, configuration: Bytes, diffId: Bytes) {
    f.parse(configuration).Some? && ToValue(f.parse(configuration).value).VObject? ==>
      RendersBack(f, VObject(Edited(ToValue(f.parse(configuration).value).fields, diffId)))
  }

  /** A configuration with the same fields as the source's but for two: no history, and the one new layer. */
  ghost predicate OnlyLayersReplaced(before: map<string, Value>, after: map<string, Value>, diffId: Bytes) {
    && "history" !in after
    && "rootfs" in after
    && after["rootfs"] == VObject(map["type" := VText("layers"), "diff_ids" := VArray([VText(DigestText(diffId))])])
    && (forall key | key != "history" && key != "rootfs" :: key in after <==> key in before)
    && (forall key | key in after && key != "rootfs" :: key in before && after[key] == before[key])
  }

  /** Read back, the edited configuration has every field of the source's with its value, but no history and
      the new layer as its root. */
  lemma EditKeepsTheRest(f: Formats, configuration: Bytes, edited: Bytes, diffId: Bytes)
    requires EditConfiguration(f, configuration, diffId) == Some(edited) && EditReadsBack(f, configuration, diffId)
    ensures f.parse(configuration).Some? && ToValue(f.parse(configuration).value).VObject?
    ensures f.parse(edited).Some? && ToValue(f.parse(edited).value).VObject?
    ensures OnlyLayersReplaced(ToValue(f.parse(configuration).value).fields, ToValue(f.parse(edited).value).fields, diffId)
  {
    var before := ToValue(f.parse(configuration).value).fields;
    assert RendersBack(f, VObject(Edited(before, diffId)));
  }

  /** So it is in every snapshot built: its configuration is the source's but for history and layers, its one
      layer the compression of what was read, and its identity that of what was inspected. */
  lemma SnapshotKeepsConfiguration(f: Formats, source: Image, configuration: Bytes, inspected: Bytes, again: Bytes, limits: Limits, s: Built)
    requires Snapshotted(f, source, configuration, inspected, again, limits) == Some(s)
    requires EditReadsBack(f, configuration, f.sha256(inspected))
    ensures f.parse(configuration).Some? && ToValue(f.parse(configuration).value).VObject?
    ensures f.parse(s.configuration).Some? && ToValue(f.parse(s.configuration).value).VObject?
    ensures OnlyLayersReplaced(ToValue(f.parse(configuration).value).fields, ToValue(f.parse(s.configuration).value).fields, f.sha256(inspected))
    ensures f.sha256(configuration) == source.config.sha256 && s.image.config == BlobFor(f, s.configuration)
    ensures s.layer == f.gzip(again) && f.sha256(again) == f.sha256(inspected) && s.image.diffIds == [f.sha256(inspected)]
  {
    EditKeepsTheRest(f, configuration, s.configuration, f.sha256(inspected));
  }

  lemma EditedDiffIds(f: Formats, configuration: Bytes, edited: Bytes, architecture: string, layers: nat, diffId: Bytes)
    requires Lawful(f) && |diffId| == 32 && DiffIdsOf(f, configuration, architecture, layers).Some?
    requires EditConfiguration(f, configuration, diffId) == Some(edited) && EditReadsBack(f, configuration, diffId)
    ensures edited != [] && DiffIdsOf(f, edited, architecture, 1) == Some([diffId])
  {
    SourcePlatform(f, configuration, architecture, layers);
    var fields := ToValue(f.parse(configuration).value).fields;
    assert RendersBack(f, VObject(Edited(fields, diffId)));
    EditedReads(fields, diffId, architecture, "linux", f.parse(edited).value);
    OneDigest(diffId);
  }

  lemma OneDigest(diffId: Bytes)
    requires |diffId| == 32
    ensures ParseDigests([DigestText(diffId)]) == Some([diffId])
  {
    DigestRoundTrip(DigestText(diffId), diffId);
    assert [DigestText(diffId)][1..] == [] && ParseDigests([]) == Some([]) && [diffId] + [] == [diffId];
  }

  // ---- The parts of the image ----

  lemma BlobReads(mediaType: string, blob: Blob, limit: nat)
    requires 0 < blob.bytes <= limit && |blob.sha256| == 32
    ensures BlobOf(DescriptorFor(mediaType, blob), limit) == Some(blob)
  {
    DigestRoundTrip(DigestText(blob.sha256), blob.sha256);
  }

  lemma ManifestAccepted(f: Formats, limits: Limits, architecture: string, config: Blob, layer: Blob, manifest: Bytes)
    requires Lawful(f) && limits.Representable() && LimitsGiven(limits) && architecture in ["amd64", "arm64"]
    requires config.bytes <= U64_MAX && layer.bytes <= U64_MAX
    requires manifest == f.render(VObject(Snapshot.ManifestFields(config, layer))) && |manifest| <= limits.jsonBytes
    requires RendersBack(f, VObject(Snapshot.ManifestFields(config, layer)))
    ensures ManifestOf(f, manifest, f.sha256(manifest), architecture, limits) == Some(ManifestFor(config, layer))
  {
    ManifestReads(config, layer, f.parse(manifest).value);
  }

  lemma LayerAccepted(f: Formats, limits: Limits, store: Store, layer: Blob, rootfs: Bytes)
    requires Lawful(f) && SoundArchive(f, rootfs, false)
    requires layer == BlobFor(f, f.gzip(rootfs)) && layer.bytes <= limits.compressedBytes
    requires store(layer) == Some(f.gzip(rootfs))
    ensures LayerOf(f, limits, store, DescriptorFor(OCI_TAR_GZIP, layer), f.sha256(rootfs))
         == Some(Layer(layer, f.gzip(rootfs), rootfs, HeaderCount(f, rootfs)))
  {
    assert f.gunzip(f.gzip(rootfs)) == Some(rootfs) && f.gzip(rootfs) != [];
    BlobReads(OCI_TAR_GZIP, layer, limits.compressedBytes);
  }

  lemma OneLayer(f: Formats, limits: Limits, store: Store, d: Descriptor, diffId: Bytes, layer: Layer)
    requires LayerOf(f, limits, store, d, diffId) == Some(layer)
    ensures All(Each(f, limits, store, [d], [diffId]), 1) == Some([layer])
    ensures CompressedSum([layer]) == layer.blob.bytes && UnpackedSum([layer]) == |layer.unpacked| && HeaderSum([layer]) == layer.headers
    ensures Blobs([layer]) == [layer.blob]
  {
    var results := Each(f, limits, store, [d], [diffId]);
    assert results[0] == Some(layer);
    assert All(results, 0) == Some([]);
    assert [] + [layer] == [layer];
    SumsStep([], layer);
  }

  /** A generated one-layer graph whose parts are in order is admitted, with the fields the builder fills
      in. */
  lemma OneLayerVerified(f: Formats, limits: Limits, store: Store, source: Image, configuration: Bytes, rootfs: Bytes, manifest: Bytes, architecture: string)
    requires Lawful(f) && limits.Representable() && LimitsGiven(limits) && architecture in ["amd64", "arm64"] && source.architecture == architecture
    requires SoundArchive(f, rootfs, false) && |rootfs| <= limits.unpackedBytes && HeaderCount(f, rootfs) <= limits.entries
    requires |f.gzip(rootfs)| <= limits.compressedBytes && 0 < |configuration| <= limits.jsonBytes && |manifest| <= limits.jsonBytes
    requires var config, layer := BlobFor(f, configuration), BlobFor(f, f.gzip(rootfs));
             && manifest == f.render(VObject(Snapshot.ManifestFields(config, layer)))
             && RendersBack(f, VObject(Snapshot.ManifestFields(config, layer)))
             && store(config) == Some(configuration) && store(layer) == Some(f.gzip(rootfs))
    requires DiffIdsOf(f, configuration, architecture, 1) == Some([f.sha256(rootfs)])
    ensures Verified(f, manifest, f.sha256(manifest), architecture, limits, store)
         == Some(BuiltImage(f, source, manifest, BlobFor(f, configuration), BlobFor(f, f.gzip(rootfs)), BlobFor(f, rootfs)))
  {
    var config, layer := BlobFor(f, configuration), BlobFor(f, f.gzip(rootfs));
    ManifestAccepted(f, limits, architecture, config, layer, manifest);
    BlobReads(OCI_CONFIG, config, limits.jsonBytes);
    LayerAccepted(f, limits, store, layer, rootfs);
    var only := Layer(layer, f.gzip(rootfs), rootfs, HeaderCount(f, rootfs));
    OneLayer(f, limits, store, DescriptorFor(OCI_TAR_GZIP, layer), f.sha256(rootfs), only);
    Assembled(f, manifest, f.sha256(manifest), architecture, limits, store, ManifestFor(config, layer), config, configuration, [f.sha256(rootfs)], [only]);
  }

  // ---- The theorem ----

  /** The byte strings whose digests the shortcut relies on. */
  ghost function Relied(s: Built, source: Image, sourceStore: Store, configuration: Bytes, inspected: Bytes, again: Bytes): set<Bytes> {
    {configuration, inspected, again, s.configuration, s.layer}
    + (if sourceStore(source.config).Some? then {sourceStore(source.config).value} else {})
  }

  /** The documents the builder generates read back as they were rendered. */
  ghost predicate GeneratedReadBack(f: Formats, configuration: Bytes, inspected: Bytes, s: Built) {
    && EditReadsBack(f, configuration, f.sha256(inspected))
    && (s.image.layers != [] ==> RendersBack(f, VObject(Snapshot.ManifestFields(s.image.config, s.image.layers[0]))))
  }

  /** The facts about a verified source that the shortcut uses. */
  lemma SourceFacts(f: Formats, limits: Limits, manifest: Bytes, architecture: string, store: Store, source: Image)
    requires Verified(f, manifest, source.manifestSha256, architecture, limits, store) == Some(source)
    ensures source.architecture == architecture && architecture in ["amd64", "arm64"]
    ensures Content(f, store, source.config).Some?
    ensures DiffIdsOf(f, Content(f, store, source.config).value, architecture, |source.layers|).Some?
  {
    var m, diffIds, layers := VerifiedParts(f, manifest, source.manifestSha256, architecture, limits, store, source);
  }

  /** Given a source image that was itself verified, under whatever limits, the snapshot built without
      verification is exactly what verifying its manifest and blobs returns under the same limits. */
  lemma ShortcutIsSound(f: Formats, limits: Limits, source: Image, sourceManifest: Bytes, sourceStore: Store, sourceLimits: Limits,
                        configuration: Bytes, inspected: Bytes, again: Bytes, s: Built)
    requires Lawful(f) && limits.Representable()
    requires Verified(f, sourceManifest, source.manifestSha256, source.architecture, sourceLimits, sourceStore) == Some(source)
    requires Snapshotted(f, source, configuration, inspected, again, limits) == Some(s) && GeneratedReadBack(f, configuration, inspected, s)
    requires CollisionFree(f, Relied(s, source, sourceStore, configuration, inspected, again))
    ensures s.image.layers != []
    ensures Verified(f, s.manifest, s.image.manifestSha256, s.image.architecture, limits, StoreOf(s, s.layer)) == Some(s.image)
  {
    SnapshotShape(f, source, configuration, inspected, again, limits, s);
    SourceFacts(f, sourceLimits, sourceManifest, source.architecture, sourceStore, source);
    assert configuration == sourceStore(source.config).value;
    assert again == inspected;
    EditedDiffIds(f, configuration, s.configuration, source.architecture, |source.layers|, f.sha256(inspected));
    assert f.gzip(again) != [];
    OneLayerVerified(f, limits, StoreOf(s, s.layer), source, s.configuration, inspected, s.manifest, source.architecture);
  }

  // ---- What was written can be restored ----

  /** A scratch file that reads back with the layer's digest holds the layer. */
  lemma StagedIsLayer(f: Formats, s: Built, staged: Bytes, b: Blob)
    requires s.image.config == BlobFor(f, s.configuration) && s.image.layers == [BlobFor(f, s.layer)]
    requires CollisionFree(f, {s.configuration, s.layer, staged})
    requires b in ImageBlobs(s.image) && Content(f, StoreOf(s, staged), b).Some?
    ensures StoreOf(s, staged)(b) == StoreOf(s, s.layer)(b)
  {
  }

  lemma SameFiles(f: Formats, s: Built, staged: Bytes)
    requires s.image.config == BlobFor(f, s.configuration) && s.image.layers == [BlobFor(f, s.layer)]
    requires CollisionFree(f, {s.configuration, s.layer, staged})
    requires Intact(f, StoreOf(s, staged), WrittenBlobs(s.image))
    ensures OciFiles(f, s.image, s.manifest, StoreOf(s, staged)) == OciFiles(f, s.image, s.manifest, StoreOf(s, s.layer))
  {
    var blobs := WrittenBlobs(s.image);
    FreshAre(ImageBlobs(s.image), {s.image.manifestSha256});
    forall i | 0 <= i < |blobs| ensures BlobFile(StoreOf(s, staged), blobs[i]) == BlobFile(StoreOf(s, s.layer), blobs[i]) {
      assert blobs[i] in blobs;
      StagedIsLayer(f, s, staged, blobs[i]);
    }
    assert BlobFiles(StoreOf(s, staged), blobs) == BlobFiles(StoreOf(s, s.layer), blobs);
  }

  lemma SameRestored(f: Formats, limits: Limits, manifest: Bytes, image: Image, a: Store, b: Store)
    requires OciFiles(f, image, manifest, a) == OciFiles(f, image, manifest, b)
    ensures OciRoundTrip.WrittenRestored(f, limits, image.architecture, manifest, a, image)
         == OciRoundTrip.WrittenRestored(f, limits, image.architecture, manifest, b, image)
  {
  }

  lemma SnapshotRoundTrip(f: Formats, limits: Limits, s: Built, staged: Bytes)
    requires Lawful(f) && RendersBack(f, IndexValue(s.image)) && limits.Representable() && s.image.layers == [BlobFor(f, s.layer)]
    requires Verified(f, s.manifest, s.image.manifestSha256, s.image.architecture, limits, StoreOf(s, s.layer)) == Some(s.image)
    requires CollisionFree(f, {s.manifest, s.configuration, s.layer, staged})
    ensures var r := OciRoundTrip.WrittenRestored(f, limits, s.image.architecture, s.manifest, StoreOf(s, s.layer), s.image);
            && (r.Some? <==> OciRoundTrip.DocumentsFit(f, s.image, limits) && ArchiveBytes(limits).Some?)
            && (r.Some? ==> r.value.0 == s.image)
  {
    ContentsRelied(f, s, s.layer);
    Fewer(f, OciRoundTrip.Contents(StoreOf(s, s.layer), s.image, s.manifest), {s.manifest, s.configuration, s.layer, staged});
    OciRoundTrip.RoundTrip(f, limits, s.image.architecture, s.manifest, StoreOf(s, s.layer), s.image);
  }

  /** What the staged archive of a verified snapshot restores to. */
  lemma StagedRestores(f: Formats, limits: Limits, s: Built, staged: Bytes)
    requires Lawful(f) && RendersBack(f, IndexValue(s.image)) && limits.Representable()
    requires s.image.config == BlobFor(f, s.configuration) && s.image.layers == [BlobFor(f, s.layer)]
    requires Verified(f, s.manifest, s.image.manifestSha256, s.image.architecture, limits, StoreOf(s, s.layer)) == Some(s.image)
    requires CollisionFree(f, {s.manifest, s.configuration, s.layer, staged})
    requires Intact(f, StoreOf(s, staged), WrittenBlobs(s.image))
    ensures var r := OciRoundTrip.WrittenRestored(f, limits, s.image.architecture, s.manifest, StoreOf(s, staged), s.image);
            && (r.Some? <==> OciRoundTrip.DocumentsFit(f, s.image, limits) && ArchiveBytes(limits).Some?)
            && (r.Some? ==> r.value.0 == s.image)
  {
    Fewer(f, {s.configuration, s.layer, staged}, {s.manifest, s.configuration, s.layer, staged});
    SameFiles(f, s, staged);
    SnapshotRoundTrip(f, limits, s, staged);
    SameRestored(f, limits, s.manifest, s.image, StoreOf(s, s.layer), StoreOf(s, staged));
  }

  /** A published snapshot archive restores to the image the builder returned, exactly if its documents fit
      and the staging budget can be computed. */
  lemma SnapshotRestores(f: Formats, limits: Limits, source: Image, sourceManifest: Bytes, sourceStore: Store, sourceLimits: Limits,
                         configuration: Bytes, inspected: Bytes, again: Bytes, s: Built, staged: Bytes)
    requires Lawful(f) && limits.Representable()
    requires Verified(f, sourceManifest, source.manifestSha256, source.architecture, sourceLimits, sourceStore) == Some(source)
    requires Snapshotted(f, source, configuration, inspected, again, limits) == Some(s)
    requires GeneratedReadBack(f, configuration, inspected, s) && RendersBack(f, IndexValue(s.image))
    requires CollisionFree(f, Relied(s, source, sourceStore, configuration, inspected, again) + {staged, s.manifest})
    requires s.image.layers != [] && Intact(f, StoreOf(s, staged), WrittenBlobs(s.image))
    ensures var r := OciRoundTrip.WrittenRestored(f, limits, s.image.architecture, s.manifest, StoreOf(s, staged), s.image);
            && (r.Some? <==> OciRoundTrip.DocumentsFit(f, s.image, limits) && ArchiveBytes(limits).Some?)
            && (r.Some? ==> r.value.0 == s.image)
  {
    var relied := Relied(s, source, sourceStore, configuration, inspected, again);
    Fewer(f, relied, relied + {staged, s.manifest});
    Fewer(f, {s.manifest, s.configuration, s.layer, staged}, relied + {staged, s.manifest});
    SnapshotShape(f, source, configuration, inspected, again, limits, s);
    ShortcutIsSound(f, limits, source, sourceManifest, sourceStore, sourceLimits, configuration, inspected, again, s);
    StagedRestores(f, limits, s, staged);
  }

  lemma ContentsRelied(f: Formats, s: Built, staged: Bytes)
    requires s.image.layers == [BlobFor(f, s.layer)]
    ensures OciRoundTrip.Contents(StoreOf(s, staged), s.image, s.manifest) <= {s.manifest, s.configuration, staged}
  {
  }
}
