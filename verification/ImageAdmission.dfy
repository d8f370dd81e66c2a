/** What an admitted image is, said of the documents' values and of the stored bytes, with every media type
    and fixed text written out. */
module ImageAdmission {
  import opened Options
  import opened ByteStrings
  import opened Json
  import opened Numbers
  import opened ContainerImage
  import opened OciArchive
  import opened ImageLaws
  import opened ImageFacts
  import Hex

  // ---- Transports ----

  /** The stored bytes carry these unpacked bytes, by the transport the media type names. */
  predicate Carries(f: Formats, mediaType: string, stored: Bytes, data: Bytes) {
    if mediaType == "application/vnd.oci.image.layer.v1.tar" then data == stored
    else if mediaType == "application/vnd.oci.image.layer.v1.tar+gzip"
         || mediaType == "application/vnd.docker.image.rootfs.diff.tar.gzip" then f.gunzip(stored) == Some(data)
    else false
  }

  lemma UnpackCarries(f: Formats, mediaType: string, stored: Bytes, data: Bytes)
    ensures Unpack(f, mediaType, stored) == Some(data) <==> Carries(f, mediaType, stored, data)
  {
  }

  lemma ParsedDigest(text: string, sha256: Bytes)
    ensures ParseDigest(text) == Some(sha256) <==> |sha256| == 32 && text == DigestText(sha256)
  {
    if ParseDigest(text) == Some(sha256) {
      assert |Hex.Decode(text[7..])| == 32;
    }
    if |sha256| == 32 { DigestRoundTrip(text, sha256); }
  }

  /** The descriptor names this blob, here and not elsewhere, within the limit. */
  predicate NamesBlob(d: Descriptor, blob: Blob, limit: nat) {
    && d.digest == DigestText(blob.sha256) && |blob.sha256| == 32
    && d.size == blob.bytes && 0 < blob.bytes <= limit
    && !d.remote
  }

  lemma BlobExactly(d: Descriptor, limit: nat, blob: Blob)
    ensures BlobOf(d, limit) == Some(blob) <==> NamesBlob(d, blob, limit)
  {
    ParsedDigest(d.digest, blob.sha256);
  }

  predicate Holds(f: Formats, store: Store, blob: Blob, bytes: Bytes) {
    store(blob) == Some(bytes) && |bytes| == blob.bytes && f.sha256(bytes) == blob.sha256
  }

  lemma ContentExactly(f: Formats, store: Store, blob: Blob, bytes: Bytes)
    ensures Content(f, store, blob) == Some(bytes) <==> Holds(f, store, blob, bytes)
  {
  }

  /** A layer is admitted exactly if its descriptor names a stored blob, the blob carries an archive by the
      transport of the media type, and that archive is sound and has the digest the configuration gives. */
  lemma LayerExactly(f: Formats, limits: Limits, store: Store, d: Descriptor, diffId: Bytes, layer: Layer)
    ensures LayerOf(f, limits, store, d, diffId) == Some(layer) <==>
              && NamesBlob(d, layer.blob, limits.compressedBytes)
              && Holds(f, store, layer.blob, layer.compressed)
              && Carries(f, d.mediaType, layer.compressed, layer.unpacked)
              && f.sha256(layer.unpacked) == diffId
              && SoundArchive(f, layer.unpacked, false) && layer.headers == HeaderCount(f, layer.unpacked)
  {
    BlobExactly(d, limits.compressedBytes, layer.blob);
    ContentExactly(f, store, layer.blob, layer.compressed);
    UnpackCarries(f, d.mediaType, layer.compressed, layer.unpacked);
  }

  /** A layer of either gzip type stored as the compression of a sound archive is admitted with that
      archive, a plain layer with its own bytes, and a layer of any other type is refused. */
  lemma TransportDecides(f: Formats, limits: Limits, store: Store, d: Descriptor, blob: Blob, archive: Bytes)
    requires Lawful(f) && NamesBlob(d, blob, limits.compressedBytes) && SoundArchive(f, archive, false)
    ensures d.mediaType in ["application/vnd.oci.image.layer.v1.tar+gzip", "application/vnd.docker.image.rootfs.diff.tar.gzip"]
            && Holds(f, store, blob, f.gzip(archive)) ==>
              LayerOf(f, limits, store, d, f.sha256(archive)) == Some(Layer(blob, f.gzip(archive), archive, HeaderCount(f, archive)))
    ensures d.mediaType == "application/vnd.oci.image.layer.v1.tar" && Holds(f, store, blob, archive) ==>
              LayerOf(f, limits, store, d, f.sha256(archive)) == Some(Layer(blob, archive, archive, HeaderCount(f, archive)))
    ensures d.mediaType !in ["application/vnd.oci.image.layer.v1.tar", "application/vnd.oci.image.layer.v1.tar+gzip",
                             "application/vnd.docker.image.rootfs.diff.tar.gzip"] ==>
              LayerOf(f, limits, store, d, f.sha256(archive)) == None
  {
    assert f.gunzip(f.gzip(archive)) == Some(archive);
    LayerExactly(f, limits, store, d, f.sha256(archive), Layer(blob, f.gzip(archive), archive, HeaderCount(f, archive)));
    LayerExactly(f, limits, store, d, f.sha256(archive), Layer(blob, archive, archive, HeaderCount(f, archive)));
  }

  // ---- Documents ----

  /** The manifest is admitted exactly for these texts. */
  lemma ManifestExactly(f: Formats, bytes: Bytes, expected: Bytes, architecture: string, limits: Limits, m: Manifest)
    ensures ManifestOf(f, bytes, expected, architecture, limits) == Some(m) <==>
              && LimitsGiven(limits) && 0 < |bytes| <= limits.jsonBytes && f.sha256(bytes) == expected
              && (architecture == "amd64" || architecture == "arm64")
              && f.parse(bytes).Some? && DecodeManifest(f.parse(bytes).value) == Some(m)
              && m.schemaVersion == 2 && !m.special && |m.layers| <= limits.layers
              && (|| m.mediaType == "application/vnd.oci.image.manifest.v1+json"
                  || m.mediaType == "application/vnd.docker.distribution.manifest.v2+json")
              && (|| m.config.mediaType == "application/vnd.oci.image.config.v1+json"
                  || m.config.mediaType == "application/vnd.docker.container.image.v1+json")
  {
  }

  predicate DigestTexts(texts: seq<string>, digests: seq<Bytes>) {
    |texts| == |digests| && forall i | 0 <= i < |texts| :: |digests[i]| == 32 && texts[i] == DigestText(digests[i])
  }

  lemma {:induction false} DigestsExactly(texts: seq<string>, digests: seq<Bytes>)
    ensures ParseDigests(texts) == Some(digests) <==> DigestTexts(texts, digests)
  {
    if texts != [] && |texts| == |digests| {
      DigestsExactly(texts[1..], digests[1..]);
      ParsedDigest(texts[0], digests[0]);
      assert digests == [digests[0]] + digests[1..];
      assert DigestTexts(texts, digests) <==>
             |digests[0]| == 32 && texts[0] == DigestText(digests[0]) && DigestTexts(texts[1..], digests[1..]) by {
        TextsFirst(texts, digests);
      }
    }
  }

  lemma TextsFirst(texts: seq<string>, digests: seq<Bytes>)
    requires |texts| == |digests| > 0
    ensures DigestTexts(texts, digests) <==>
            |digests[0]| == 32 && texts[0] == DigestText(digests[0]) && DigestTexts(texts[1..], digests[1..])
  {
    if |digests[0]| == 32 && texts[0] == DigestText(digests[0]) && DigestTexts(texts[1..], digests[1..]) {
      forall i | 0 <= i < |texts| ensures |digests[i]| == 32 && texts[i] == DigestText(digests[i]) {
        if i > 0 { assert texts[i] == texts[1..][i - 1] && digests[i] == digests[1..][i - 1]; }
      }
    }
    if DigestTexts(texts, digests) {
      forall i | 0 <= i < |texts[1..]| ensures |digests[1..][i]| == 32 && texts[1..][i] == DigestText(digests[1..][i]) {
        assert texts[1..][i] == texts[i + 1] && digests[1..][i] == digests[i + 1];
      }
    }
  }

  /** The configuration is admitted exactly for Linux on this architecture, with one layer digest for each
      layer of the manifest. */
  lemma ConfigurationExactly(f: Formats, bytes: Bytes, architecture: string, diffIds: seq<Bytes>)
    ensures DiffIdsOf(f, bytes, architecture, |diffIds|) == Some(diffIds) <==>
              && f.parse(bytes).Some? && DecodeConfig(f.parse(bytes).value).Some?
              && var c := DecodeConfig(f.parse(bytes).value).value;
                 c.os == "linux" && c.architecture == architecture && c.rootfsType == "layers" && DigestTexts(c.diffIds, diffIds)
  {
    if f.parse(bytes).Some? && DecodeConfig(f.parse(bytes).value).Some? {
      DigestsExactly(DecodeConfig(f.parse(bytes).value).value.diffIds, diffIds);
    }
  }

  // ---- Documents as values ----

  /** A named field of a document's value: by its name in an object, by its position in an array. */
  function Shown(v: Value, name: string, position: nat): Option<Value> {
    match v
    case VObject(fields) => if name in fields then Some(fields[name]) else None
    case VArray(items) => if position < |items| then Some(items[position]) else None
    case _ => None
  }

  predicate Absent(shown: Option<Value>) {
    shown == None || shown == Some(VNull)
  }

  function Values(field: Option<Json>): Option<Value> {
    match field
    case None => None
    case Some(j) => Some(ToValue(j))
  }

  predicate DifferentNames(names: seq<string>) {
    forall i, j | 0 <= i < j < |names| :: names[i] != names[j]
  }

  lemma DescriptorNames()
    ensures DifferentNames(DESCRIPTOR)
  {
    assert |DESCRIPTOR[0]| == 9 && |DESCRIPTOR[1]| == 6;
    assert DESCRIPTOR[2][0] == 's' && DESCRIPTOR[3][0] == 'u' && DESCRIPTOR[4][0] == 'd';
    assert |DESCRIPTOR[2]| == 4 && |DESCRIPTOR[3]| == 4 && |DESCRIPTOR[4]| == 4;
  }

  lemma ManifestNames()
    ensures DifferentNames(MANIFEST)
  {
    assert |MANIFEST[0]| == 13 && |MANIFEST[1]| == 9 && |MANIFEST[2]| == 6 && |MANIFEST[3]| == 6 && |MANIFEST[4]| == 12 && |MANIFEST[5]| == 7;
    assert MANIFEST[2][0] == 'c' && MANIFEST[3][0] == 'l';
  }

  lemma ConfigurationNames()
    ensures DifferentNames(CONFIG) && DifferentNames(ROOTFS)
  {
    assert |CONFIG[0]| == 12 && |CONFIG[1]| == 2 && |CONFIG[2]| == 6;
    assert |ROOTFS[0]| == 4 && |ROOTFS[1]| == 8;
  }

  lemma {:induction false} PositionOf(names: seq<string>, name: string, position: nat)
    requires position < |names| && names[position] == name && forall i | 0 <= i < position :: names[i] != name
    ensures name in names && IndexOf(names, name) == position
  {
    if position > 0 {
      assert names[1..][position - 1] == name;
      PositionOf(names[1..], name, position - 1);
    }
  }

  /** What a record's field is, is what its value shows under that name or at that place. */
  lemma FieldShown(j: Json, names: seq<string>, name: string, position: nat)
    requires DifferentNames(names) && position < |names| && names[position] == name && Record(j, names, false)
    ensures name in names && Shown(ToValue(j), name, position) == Values(Field(j, names, name))
  {
    PositionOf(names, name, position);
    if j.Object? { FindShows(j.members, name); }
  }

  /** A text, a number and an optional field, as the value shows them. */
  lemma TextShown(j: Json, names: seq<string>, name: string, position: nat, text: string)
    requires DifferentNames(names) && position < |names| && names[position] == name && Record(j, names, false)
    requires AsText(Field(j, names, name)) == Some(text)
    ensures Shown(ToValue(j), name, position) == Some(VText(text))
  {
    FieldShown(j, names, name, position);
  }

  lemma NumberShown(j: Json, names: seq<string>, name: string, position: nat, limit: nat, n: nat)
    requires DifferentNames(names) && position < |names| && names[position] == name && Record(j, names, false)
    requires AsNat(Field(j, names, name), limit) == Some(n)
    ensures Shown(ToValue(j), name, position) == Some(VNumber(n))
  {
    FieldShown(j, names, name, position);
  }

  lemma GivenShown(j: Json, names: seq<string>, name: string, position: nat)
    requires DifferentNames(names) && position < |names| && names[position] == name && Record(j, names, false)
    ensures name in names && (Absent(Shown(ToValue(j), name, position)) <==> !Given(Field(j, names, name)))
  {
    FieldShown(j, names, name, position);
    var field := Field(j, names, name);
    if field.Some? { assert ToValue(field.value) == VNull <==> field.value == Null; }
  }

  lemma PartShown(j: Json, names: seq<string>, name: string, position: nat, part: Json)
    requires DifferentNames(names) && position < |names| && names[position] == name && Record(j, names, false)
    requires Field(j, names, name) == Some(part)
    ensures Shown(ToValue(j), name, position) == Some(ToValue(part))
  {
    FieldShown(j, names, name, position);
  }

  /** What the value of a descriptor shows. */
  predicate ShowsDescriptor(v: Value, d: Descriptor) {
    && Shown(v, "mediaType", 0) == Some(VText(d.mediaType))
    && Shown(v, "digest", 1) == Some(VText(d.digest))
    && Shown(v, "size", 2) == Some(VNumber(d.size))
    && (d.remote <==> !(Absent(Shown(v, "urls", 3)) && Absent(Shown(v, "data", 4))))
  }

  lemma DescriptorShown(j: Json, d: Descriptor)
    requires DecodeDescriptor(j) == Some(d)
    ensures ShowsDescriptor(ToValue(j), d)
  {
    DescriptorNames();
    TextShown(j, DESCRIPTOR, "mediaType", 0, d.mediaType);
    TextShown(j, DESCRIPTOR, "digest", 1, d.digest);
    NumberShown(j, DESCRIPTOR, "size", 2, U64_MAX, d.size);
    GivenShown(j, DESCRIPTOR, "urls", 3);
    GivenShown(j, DESCRIPTOR, "data", 4);
  }

  predicate ShowsDescriptors(shown: Option<Value>, ds: seq<Descriptor>) {
    && shown.Some? && shown.value.VArray? && |shown.value.items| == |ds|
    && forall i | 0 <= i < |ds| :: ShowsDescriptor(shown.value.items[i], ds[i])
  }

  lemma {:induction false} DescriptorsShown(items: seq<Json>, ds: seq<Descriptor>)
    requires DecodeDescriptors(items) == Some(ds)
    ensures |items| == |ds| && forall i | 0 <= i < |ds| :: ShowsDescriptor(ToValue(items[i]), ds[i])
  {
    if items != [] {
      DescriptorShown(items[0], ds[0]);
      assert ds[1..] == DecodeDescriptors(items[1..]).value;
      DescriptorsShown(items[1..], ds[1..]);
      forall i | 0 <= i < |ds| ensures ShowsDescriptor(ToValue(items[i]), ds[i]) {
        if i > 0 { assert items[i] == items[1..][i - 1] && ds[i] == ds[1..][i - 1]; }
      }
    }
  }

  /** What the value of a manifest shows. */
  predicate ShowsManifest(v: Value, m: Manifest) {
    && Shown(v, "schemaVersion", 0) == Some(VNumber(m.schemaVersion))
    && Shown(v, "mediaType", 1) == Some(VText(m.mediaType))
    && Shown(v, "config", 2).Some? && ShowsDescriptor(Shown(v, "config", 2).value, m.config)
    && ShowsDescriptors(Shown(v, "layers", 3), m.layers)
    && (m.special <==> !(Absent(Shown(v, "artifactType", 4)) && Absent(Shown(v, "subject", 5))))
  }

  lemma ManifestShown(j: Json, m: Manifest)
    requires DecodeManifest(j) == Some(m)
    ensures ShowsManifest(ToValue(j), m)
  {
    ManifestNames();
    TextShown(j, MANIFEST, "mediaType", 1, m.mediaType);
    NumberShown(j, MANIFEST, "schemaVersion", 0, 0xffff_ffff, m.schemaVersion);
    GivenShown(j, MANIFEST, "artifactType", 4);
    GivenShown(j, MANIFEST, "subject", 5);
    ManifestPartsShown(j, m);
  }

  lemma ManifestPartsShown(j: Json, m: Manifest)
    requires DecodeManifest(j) == Some(m)
    ensures Shown(ToValue(j), "config", 2).Some? && ShowsDescriptor(Shown(ToValue(j), "config", 2).value, m.config)
    ensures ShowsDescriptors(Shown(ToValue(j), "layers", 3), m.layers)
  {
    ManifestNames();
    var config, layers := Field(j, MANIFEST, "config").value, Field(j, MANIFEST, "layers").value;
    PartShown(j, MANIFEST, "config", 2, config);
    PartShown(j, MANIFEST, "layers", 3, layers);
    DescriptorShown(config, m.config);
    ListShown(layers, m.layers);
  }

  lemma ListShown(list: Json, ds: seq<Descriptor>)
    requires list.Array? && DecodeDescriptors(list.items) == Some(ds)
    ensures ShowsDescriptors(Some(ToValue(list)), ds)
  {
    DescriptorsShown(list.items, ds);
    forall i | 0 <= i < |ds| ensures ShowsDescriptor(ToValue(list).items[i], ds[i]) {
      assert ToValue(list).items[i] == ToValue(list.items[i]);
    }
  }

  predicate ShowsTexts(shown: Option<Value>, texts: seq<string>) {
    && shown.Some? && shown.value.VArray? && |shown.value.items| == |texts|
    && forall i | 0 <= i < |texts| :: shown.value.items[i] == VText(texts[i])
  }

  lemma {:induction false} TextsShown(items: seq<Json>, texts: seq<string>)
    requires Texts(items) == Some(texts)
    ensures |items| == |texts| && forall i | 0 <= i < |texts| :: ToValue(items[i]) == VText(texts[i])
  {
    if items != [] {
      assert texts[1..] == Texts(items[1..]).value;
      TextsShown(items[1..], texts[1..]);
      forall i | 0 <= i < |texts| ensures ToValue(items[i]) == VText(texts[i]) {
        if i > 0 { assert items[i] == items[1..][i - 1] && texts[i] == texts[1..][i - 1]; }
      }
    }
  }

  /** What the value of a configuration shows. */
  predicate ShowsConfiguration(v: Value, c: Config) {
    && Shown(v, "architecture", 0) == Some(VText(c.architecture))
    && Shown(v, "os", 1) == Some(VText(c.os))
    && Shown(v, "rootfs", 2).Some?
    && Shown(Shown(v, "rootfs", 2).value, "type", 0) == Some(VText(c.rootfsType))
    && ShowsTexts(Shown(Shown(v, "rootfs", 2).value, "diff_ids", 1), c.diffIds)
  }

  lemma ConfigurationShown(j: Json, c: Config)
    requires DecodeConfig(j) == Some(c)
    ensures ShowsConfiguration(ToValue(j), c)
  {
    ConfigurationNames();
    TextShown(j, CONFIG, "architecture", 0, c.architecture);
    TextShown(j, CONFIG, "os", 1, c.os);
    var rootfs := Field(j, CONFIG, "rootfs").value;
    PartShown(j, CONFIG, "rootfs", 2, rootfs);
    RootfsShown(rootfs, c.rootfsType, Texts(AsArray(Field(rootfs, ROOTFS, "diff_ids")).value).value);
  }

  lemma RootfsShown(j: Json, kind: string, texts: seq<string>)
    requires Record(j, ROOTFS, false) && AsText(Field(j, ROOTFS, "type")) == Some(kind)
    requires AsArray(Field(j, ROOTFS, "diff_ids")).Some? && Texts(AsArray(Field(j, ROOTFS, "diff_ids")).value) == Some(texts)
    ensures Shown(ToValue(j), "type", 0) == Some(VText(kind)) && ShowsTexts(Shown(ToValue(j), "diff_ids", 1), texts)
  {
    ConfigurationNames();
    TextShown(j, ROOTFS, "type", 0, kind);
    var list := Field(j, ROOTFS, "diff_ids").value;
    PartShown(j, ROOTFS, "diff_ids", 1, list);
    TextsShown(list.items, texts);
    forall i | 0 <= i < |texts| ensures ToValue(list).items[i] == VText(texts[i]) {
      assert ToValue(list).items[i] == ToValue(list.items[i]);
    }
  }

  // ---- The admitted image ----

  /** The manifest's value says what the image says, and nothing that is not admitted. */
  predicate ManifestSays(v: Value, image: Image, m: Manifest) {
    && ShowsManifest(v, m) && m.schemaVersion == 2 && m.mediaType == image.manifestMediaType
    && (|| m.mediaType == "application/vnd.oci.image.manifest.v1+json"
        || m.mediaType == "application/vnd.docker.distribution.manifest.v2+json")
    && Absent(Shown(v, "artifactType", 4)) && Absent(Shown(v, "subject", 5))
    && (|| m.config.mediaType == "application/vnd.oci.image.config.v1+json"
        || m.config.mediaType == "application/vnd.docker.container.image.v1+json")
    && NamesBlob(m.config, image.config, m.config.size)
    && |m.layers| == |image.layers| == |image.diffIds|
  }

  /** Layer `i` of the image, as manifest, configuration and store give it. */
  ghost predicate LayerSays(f: Formats, store: Store, m: Manifest, image: Image, i: nat, unpacked: Bytes)
    requires i < |m.layers| == |image.layers| == |image.diffIds|
  {
    && NamesBlob(m.layers[i], image.layers[i], m.layers[i].size)
    && store(image.layers[i]).Some?
    && Holds(f, store, image.layers[i], store(image.layers[i]).value)
    && Carries(f, m.layers[i].mediaType, store(image.layers[i]).value, unpacked)
    && f.sha256(unpacked) == image.diffIds[i] && SoundArchive(f, unpacked, false)
  }

  function LengthSum(archives: seq<Bytes>): nat {
    if archives == [] then 0 else LengthSum(archives[..|archives| - 1]) + |archives[|archives| - 1]|
  }

  ghost function EntrySum(f: Formats, archives: seq<Bytes>): nat {
    if archives == [] then 0 else EntrySum(f, archives[..|archives| - 1]) + HeaderCount(f, archives[|archives| - 1])
  }

  ghost function UnpackedOf(layers: seq<Layer>): (archives: seq<Bytes>)
    ensures |archives| == |layers|
  {
    seq(|layers|, i requires 0 <= i < |layers| => layers[i].unpacked)
  }

  lemma {:induction false} SumsAre(f: Formats, layers: seq<Layer>)
    requires forall i | 0 <= i < |layers| :: layers[i].headers == HeaderCount(f, layers[i].unpacked)
    ensures LengthSum(UnpackedOf(layers)) == UnpackedSum(layers) && EntrySum(f, UnpackedOf(layers)) == HeaderSum(layers)
    decreases |layers|
  {
    if layers != [] {
      SumsAre(f, layers[..|layers| - 1]);
      assert UnpackedOf(layers)[..|layers| - 1] == UnpackedOf(layers[..|layers| - 1]);
    }
  }

  lemma AdmittedSums(f: Formats, bytes: Bytes, architecture: string, limits: Limits, store: Store, image: Image,
                     m: Manifest, diffIds: seq<Bytes>, layers: seq<Layer>)
    requires Parsed(f, bytes, architecture, limits, store, image, m, diffIds, layers)
    ensures LengthSum(UnpackedOf(layers)) == image.unpackedBytes <= limits.unpackedBytes
    ensures EntrySum(f, UnpackedOf(layers)) <= limits.entries
  {
    forall i | 0 <= i < |layers| ensures layers[i].headers == HeaderCount(f, layers[i].unpacked) {
      assert Each(f, limits, store, m.layers, diffIds)[i] == Some(layers[i]);
      LayerExactly(f, limits, store, m.layers[i], diffIds[i], layers[i]);
    }
    SumsAre(f, layers);
  }

  /** Of an admitted image: its manifest has schema version 2, an admitted type, no artifact type and no subject,
      and a configuration of an admitted type; its configuration is for Linux on this architecture, with a root of
      type layers; every layer's stored bytes carry, by the layer's own transport, a sound archive whose digest the
      configuration lists; and these archives together are as long as the image says and within the limits. */
  lemma AdmittedImage(f: Formats, bytes: Bytes, expected: Bytes, architecture: string, limits: Limits, store: Store, image: Image)
    returns (m: Manifest, configuration: Bytes, unpacked: seq<Bytes>)
    requires Verified(f, bytes, expected, architecture, limits, store) == Some(image)
    ensures f.parse(bytes).Some? && ManifestSays(ToValue(f.parse(bytes).value), image, m)
    ensures Holds(f, store, image.config, configuration) && f.parse(configuration).Some?
    ensures exists texts: seq<string> ::
              DigestTexts(texts, image.diffIds) && ShowsConfiguration(ToValue(f.parse(configuration).value), Config(architecture, "linux", "layers", texts))
    ensures |unpacked| == |image.layers| && forall i | 0 <= i < |unpacked| :: LayerSays(f, store, m, image, i, unpacked[i])
    ensures LengthSum(unpacked) == image.unpackedBytes <= limits.unpackedBytes && EntrySum(f, unpacked) <= limits.entries
  {
    var diffIds, layers;
    m, diffIds, layers := VerifiedParts(f, bytes, expected, architecture, limits, store, image);
    AdmittedManifest(f, bytes, architecture, limits, store, image, m, diffIds, layers);
    configuration := Content(f, store, image.config).value;
    AdmittedConfiguration(f, configuration, architecture, diffIds);
    unpacked := UnpackedOf(layers);
    AdmittedSums(f, bytes, architecture, limits, store, image, m, diffIds, layers);
    forall i | 0 <= i < |unpacked| ensures LayerSays(f, store, m, image, i, unpacked[i]) {
      AdmittedLayer(f, bytes, architecture, limits, store, image, m, diffIds, layers, i);
    }
  }

  lemma AdmittedManifest(f: Formats, bytes: Bytes, architecture: string, limits: Limits, store: Store, image: Image,
                         m: Manifest, diffIds: seq<Bytes>, layers: seq<Layer>)
    requires Parsed(f, bytes, architecture, limits, store, image, m, diffIds, layers)
    ensures f.parse(bytes).Some? && ManifestSays(ToValue(f.parse(bytes).value), image, m)
  {
    ManifestExactly(f, bytes, image.manifestSha256, architecture, limits, m);
    ManifestShown(f.parse(bytes).value, m);
    BlobExactly(m.config, limits.jsonBytes, image.config);
  }

  lemma AdmittedConfiguration(f: Formats, configuration: Bytes, architecture: string, diffIds: seq<Bytes>)
    requires DiffIdsOf(f, configuration, architecture, |diffIds|) == Some(diffIds)
    ensures f.parse(configuration).Some?
    ensures exists texts: seq<string> ::
              DigestTexts(texts, diffIds) && ShowsConfiguration(ToValue(f.parse(configuration).value), Config(architecture, "linux", "layers", texts))
  {
    ConfigurationExactly(f, configuration, architecture, diffIds);
    var c := DecodeConfig(f.parse(configuration).value).value;
    ConfigurationShown(f.parse(configuration).value, c);
    assert c == Config(architecture, "linux", "layers", c.diffIds);
  }

  lemma AdmittedLayer(f: Formats, bytes: Bytes, architecture: string, limits: Limits, store: Store, image: Image,
                      m: Manifest, diffIds: seq<Bytes>, layers: seq<Layer>, i: nat)
    requires Parsed(f, bytes, architecture, limits, store, image, m, diffIds, layers) && i < |layers|
    ensures |m.layers| == |image.layers| == |image.diffIds| == |layers| && LayerSays(f, store, m, image, i, layers[i].unpacked)
  {
    assert Each(f, limits, store, m.layers, diffIds)[i] == Some(layers[i]);
    LayerExactly(f, limits, store, m.layers[i], diffIds[i], layers[i]);
  }
}
