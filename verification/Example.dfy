/** One concrete set of formats and one concrete image. Together they meet every hypothesis of the theorems on
    round trips, snapshots and conversion, so none of these speaks of nothing; and they show an image that is
    written and restored, and the same image written and not restored. */
module Example {
  import opened Options
  import opened ByteStrings
  import opened Numbers
  import opened Json
  import opened ContainerImage
  import opened OciArchive
  import opened ImageLaws
  import Snapshot
  import SnapshotSound
  import OciRoundTrip
  import DockerArchive
  import ExampleTar
  import Tar

  // ---- Bytes and digests ----

  const MANIFEST_BYTES: Bytes := [1]
  const CONFIG_BYTES: Bytes := [2]
  const DOCKER_BYTES: Bytes := [3]
  const INDEX_BYTES: Bytes := [4]

  /** A root filesystem archive and a digest. */
  datatype Setup = Setup(rootfs: Bytes, sha: Bytes -> Bytes)

  function Gzip(bytes: Bytes): Bytes { [31] + bytes }

  function Gunzip(bytes: Bytes): Option<Bytes> { if bytes != [] then Some(bytes[1..]) else None }

  /** The byte strings of the example. */
  function Everything(x: Setup): set<Bytes> { {MANIFEST_BYTES, CONFIG_BYTES, x.rootfs, Gzip(x.rootfs)} }

  /** The archive has no members, just two zero blocks; digests have 32 bytes and tell the example's byte strings
      apart. */
  ghost predicate Good(x: Setup) {
    && x.rootfs == Tar.Zeros(1024)
    && (forall bytes :: |x.sha(bytes)| == 32)
    && (forall a, b | a in Everything(x) && b in Everything(x) :: x.sha(a) == x.sha(b) ==> a == b)
  }

  function ConfigBlob(x: Setup): Blob { Blob(x.sha(CONFIG_BYTES), 1) }

  function LayerBlob(x: Setup): Blob { Blob(x.sha(Gzip(x.rootfs)), 1025) }

  function TheImage(x: Setup): Image {
    Image(x.sha(MANIFEST_BYTES), 1, OCI_MANIFEST, ConfigBlob(x), "amd64", [LayerBlob(x)], [x.sha(x.rootfs)], 1024)
  }

  // ---- Documents ----

  lemma FieldsMore(members: seq<Pair>, p: Pair)
    ensures FieldsOf(members + [p]) == FieldsOf(members)[p.key := ToValue(p.value)]
  {
    assert (members + [p])[..|members|] == members;
  }

  lemma Fields1(a: Pair)
    ensures FieldsOf([a]) == map[a.key := ToValue(a.value)]
  {
    FieldsMore([], a);
    assert [] + [a] == [a];
  }

  lemma Fields2(a: Pair, b: Pair)
    ensures FieldsOf([a, b]) == map[a.key := ToValue(a.value), b.key := ToValue(b.value)]
  {
    Fields1(a);
    FieldsMore([a], b);
    assert [a] + [b] == [a, b];
  }

  lemma Fields3(a: Pair, b: Pair, c: Pair)
    ensures FieldsOf([a, b, c]) == map[a.key := ToValue(a.value), b.key := ToValue(b.value), c.key := ToValue(c.value)]
  {
    Fields2(a, b);
    FieldsMore([a, b], c);
    assert [a, b] + [c] == [a, b, c];
  }

  lemma Fields4(a: Pair, b: Pair, c: Pair, d: Pair)
    ensures FieldsOf([a, b, c, d])
         == map[a.key := ToValue(a.value), b.key := ToValue(b.value), c.key := ToValue(c.value), d.key := ToValue(d.value)]
  {
    Fields3(a, b, c);
    FieldsMore([a, b, c], d);
    assert [a, b, c] + [d] == [a, b, c, d];
  }

  lemma OneItem(j: Json)
    ensures ToValue(Array([j])) == VArray([ToValue(j)])
  {
    assert ToValue(Array([j])).items == [ToValue(j)];
  }

  function DescriptorDoc(mediaType: string, blob: Blob): Json {
    Object([Pair("mediaType", Text(mediaType)), Pair("digest", Text(DigestText(blob.sha256))), Pair("size", Number(blob.bytes))])
  }

  function ManifestDoc(x: Setup): Json {
    Object([Pair("schemaVersion", Number(2)), Pair("mediaType", Text(OCI_MANIFEST)),
            Pair("config", DescriptorDoc(OCI_CONFIG, ConfigBlob(x))),
            Pair("layers", Array([DescriptorDoc(OCI_TAR_GZIP, LayerBlob(x))]))])
  }

  function ManifestValue(x: Setup): Value { VObject(Snapshot.ManifestFields(ConfigBlob(x), LayerBlob(x))) }

  lemma DescriptorShows(mediaType: string, blob: Blob)
    ensures Proper(DescriptorDoc(mediaType, blob))
    ensures ToValue(DescriptorDoc(mediaType, blob)) == VObject(Snapshot.DescriptorFields(mediaType, blob))
  {
    Fields3(Pair("mediaType", Text(mediaType)), Pair("digest", Text(DigestText(blob.sha256))), Pair("size", Number(blob.bytes)));
  }

  lemma ManifestShows(x: Setup)
    ensures Proper(ManifestDoc(x)) && ToValue(ManifestDoc(x)) == ManifestValue(x)
  {
    DescriptorShows(OCI_CONFIG, ConfigBlob(x));
    DescriptorShows(OCI_TAR_GZIP, LayerBlob(x));
    OneItem(DescriptorDoc(OCI_TAR_GZIP, LayerBlob(x)));
    Fields4(Pair("schemaVersion", Number(2)), Pair("mediaType", Text(OCI_MANIFEST)),
            Pair("config", DescriptorDoc(OCI_CONFIG, ConfigBlob(x))),
            Pair("layers", Array([DescriptorDoc(OCI_TAR_GZIP, LayerBlob(x))])));
  }

  function RootfsDoc(x: Setup): Json {
    Object([Pair("type", Text("layers")), Pair("diff_ids", Array([Text(DigestText(x.sha(x.rootfs)))]))])
  }

  function ConfigDoc(x: Setup): Json {
    Object([Pair("architecture", Text("amd64")), Pair("os", Text("linux")), Pair("rootfs", RootfsDoc(x))])
  }

  function ConfigFields(x: Setup): map<string, Value> {
    map["architecture" := VText("amd64"), "os" := VText("linux"), "rootfs" := VObject(Snapshot.RootfsFields(x.sha(x.rootfs)))]
  }

  lemma ConfigShows(x: Setup)
    ensures Proper(ConfigDoc(x)) && ToValue(ConfigDoc(x)) == VObject(ConfigFields(x))
    ensures Snapshot.Edited(ConfigFields(x), x.sha(x.rootfs)) == ConfigFields(x)
  {
    OneItem(Text(DigestText(x.sha(x.rootfs))));
    Fields2(Pair("type", Text("layers")), Pair("diff_ids", Array([Text(DigestText(x.sha(x.rootfs)))])));
    Fields3(Pair("architecture", Text("amd64")), Pair("os", Text("linux")), Pair("rootfs", RootfsDoc(x)));
    assert ToValue(RootfsDoc(x)) == VObject(Snapshot.RootfsFields(x.sha(x.rootfs)));
    assert Proper(Array([Text(DigestText(x.sha(x.rootfs)))])) && Proper(RootfsDoc(x));
  }

  function PlatformDoc(): Json { Object([Pair("os", Text("linux")), Pair("architecture", Text("amd64"))]) }

  function EntryDoc(x: Setup): Json {
    Object([Pair("mediaType", Text(OCI_MANIFEST)), Pair("digest", Text(DigestText(x.sha(MANIFEST_BYTES)))), Pair("size", Number(1)),
            Pair("platform", PlatformDoc())])
  }

  function IndexDoc(x: Setup): Json { Object([Pair("schemaVersion", Number(2)), Pair("manifests", Array([EntryDoc(x)]))]) }

  lemma IndexShows(x: Setup)
    ensures Proper(IndexDoc(x)) && ToValue(IndexDoc(x)) == IndexValue(TheImage(x))
  {
    Fields2(Pair("os", Text("linux")), Pair("architecture", Text("amd64")));
    Fields4(Pair("mediaType", Text(OCI_MANIFEST)), Pair("digest", Text(DigestText(x.sha(MANIFEST_BYTES)))), Pair("size", Number(1)),
            Pair("platform", PlatformDoc()));
    OneItem(EntryDoc(x));
    Fields2(Pair("schemaVersion", Number(2)), Pair("manifests", Array([EntryDoc(x)])));
    assert ToValue(EntryDoc(x)) == VObject(OciRoundTrip.ManifestFields(TheImage(x)));
    assert Proper(PlatformDoc()) && Proper(EntryDoc(x)) && Proper(Array([EntryDoc(x)]));
  }

  function DockerEntryDoc(x: Setup): Json {
    Object([Pair("Config", Text(DockerArchive.ConfigPath(TheImage(x)))), Pair("RepoTags", Array([])),
            Pair("Layers", Array([Text(DockerArchive.LayerPath(x.sha(x.rootfs)))]))])
  }

  function DockerDoc(x: Setup): Json { Array([DockerEntryDoc(x)]) }

  lemma DockerShows(x: Setup)
    ensures Proper(DockerDoc(x)) && ToValue(DockerDoc(x)) == DockerArchive.DockerManifest(TheImage(x))
  {
    var path := DockerArchive.LayerPath(x.sha(x.rootfs));
    assert DockerArchive.LayerPaths(TheImage(x)) == [path];
    assert DockerArchive.TextValues([path]) == [VText(path)];
    OneItem(Text(path));
    assert ToValue(Array([])) == VArray([]);
    Fields3(Pair("Config", Text(DockerArchive.ConfigPath(TheImage(x)))), Pair("RepoTags", Array([])), Pair("Layers", Array([Text(path)])));
    OneItem(DockerEntryDoc(x));
    assert Proper(Array([Text(path)])) && Proper(DockerEntryDoc(x));
  }

  // ---- The formats ----

  function Parse(x: Setup, bytes: Bytes): Option<Json> {
    if bytes == MANIFEST_BYTES then Some(ManifestDoc(x))
    else if bytes == CONFIG_BYTES then Some(ConfigDoc(x))
    else if bytes == DOCKER_BYTES then Some(DockerDoc(x))
    else if bytes == INDEX_BYTES then Some(IndexDoc(x))
    else if bytes == Ascii(LAYOUT_TEXT) then Some(Object([Pair("imageLayoutVersion", Text("1.0.0"))]))
    else None
  }

  function Render(x: Setup, v: Value): Bytes {
    if v == ManifestValue(x) then MANIFEST_BYTES
    else if v == VObject(ConfigFields(x)) then CONFIG_BYTES
    else if v == DockerArchive.DockerManifest(TheImage(x)) then DOCKER_BYTES
    else INDEX_BYTES
  }

  function TheFormats(x: Setup): Formats { Formats(x.sha, Gzip, Gunzip, (bytes: Bytes) => Parse(x, bytes), (v: Value) => Render(x, v), ExampleTar.Format()) }

  lemma Lengths(x: Setup)
    requires Good(x)
    ensures |Ascii(LAYOUT_TEXT)| == 30 && |x.rootfs| == 1024 && |Gzip(x.rootfs)| == 1025
  {
  }

  lemma FormatsAreLawful(x: Setup)
    requires Good(x)
    ensures Lawful(TheFormats(x))
  {
    var f := TheFormats(x);
    ExampleTar.FormatIsLawful();
    Lengths(x);
    forall bytes ensures f.gunzip(f.gzip(bytes)) == Some(bytes) && f.gzip(bytes) != [] {
      assert Gzip(bytes)[1..] == bytes;
    }
  }

  lemma ValuesApart(x: Setup)
    ensures ManifestValue(x) != VObject(ConfigFields(x))
    ensures IndexValue(TheImage(x)) != ManifestValue(x) && IndexValue(TheImage(x)) != VObject(ConfigFields(x))
  {
    assert "layers" in Snapshot.ManifestFields(ConfigBlob(x), LayerBlob(x));
    assert "layers" !in ConfigFields(x) && "layers" !in IndexValue(TheImage(x)).fields;
    assert "os" in ConfigFields(x) && "os" !in IndexValue(TheImage(x)).fields;
  }

  lemma ManifestReadsBack(x: Setup)
    ensures RendersBack(TheFormats(x), ManifestValue(x)) && TheFormats(x).render(ManifestValue(x)) == MANIFEST_BYTES
  {
    ManifestShows(x);
  }

  lemma ConfigReadsBack(x: Setup)
    ensures RendersBack(TheFormats(x), VObject(ConfigFields(x))) && TheFormats(x).render(VObject(ConfigFields(x))) == CONFIG_BYTES
  {
    ValuesApart(x);
    ConfigShows(x);
  }

  lemma IndexReadsBack(x: Setup)
    ensures RendersBack(TheFormats(x), IndexValue(TheImage(x))) && TheFormats(x).render(IndexValue(TheImage(x))) == INDEX_BYTES
  {
    ValuesApart(x);
    IndexShows(x);
  }

  lemma DockerReadsBack(x: Setup)
    ensures RendersBack(TheFormats(x), DockerArchive.DockerManifest(TheImage(x)))
  {
    DockerShows(x);
  }

  // ---- The image ----

  function TheStore(x: Setup): Store {
    (blob: Blob) =>
      if blob == ConfigBlob(x) then Some(CONFIG_BYTES) else if blob == LayerBlob(x) then Some(Gzip(x.rootfs)) else None
  }

  /** Limits that admit the image. */
  predicate Enough(limits: Limits) {
    && limits.Representable()
    && limits.jsonBytes >= 1 && limits.compressedBytes >= 1025 && limits.unpackedBytes >= 1024 && limits.layers >= 1 && limits.entries >= 1
  }

  lemma RootfsIsSound(x: Setup)
    requires Good(x)
    ensures SoundArchive(TheFormats(x), x.rootfs, false) && HeaderCount(TheFormats(x), x.rootfs) == 0
  {
    var t := TheFormats(x).tar;
    ExampleTar.FormatIsLawful();
    assert Tar.Pack(t, []) == x.rootfs;
    Tar.PackReadsBack(t, []);
    assert Names(t.view(x.rootfs).value) == [];
  }

  lemma BlobsAre(x: Setup)
    requires Good(x)
    ensures Snapshot.BlobFor(TheFormats(x), CONFIG_BYTES) == ConfigBlob(x)
    ensures Snapshot.BlobFor(TheFormats(x), Gzip(x.rootfs)) == LayerBlob(x)
    ensures Snapshot.BlobFor(TheFormats(x), x.rootfs) == Blob(x.sha(x.rootfs), 1024)
    ensures ConfigBlob(x) != LayerBlob(x)
  {
    Lengths(x);
  }

  lemma ConfigDeclares(x: Setup)
    requires Good(x)
    ensures DiffIdsOf(TheFormats(x), CONFIG_BYTES, "amd64", 1) == Some([x.sha(x.rootfs)])
  {
    ConfigShows(x);
    SnapshotSound.EditedReads(ConfigFields(x), x.sha(x.rootfs), "amd64", "linux", ConfigDoc(x));
    SnapshotSound.OneDigest(x.sha(x.rootfs));
  }

  /** The image is admitted under all limits that are large enough. */
  lemma ImageIsAdmitted(x: Setup, limits: Limits)
    requires Good(x) && Enough(limits)
    ensures Verified(TheFormats(x), MANIFEST_BYTES, TheImage(x).manifestSha256, "amd64", limits, TheStore(x)) == Some(TheImage(x))
  {
    FormatsAreLawful(x);
    ManifestReadsBack(x);
    RootfsIsSound(x);
    BlobsAre(x);
    ConfigDeclares(x);
    Lengths(x);
    SnapshotSound.OneLayerVerified(TheFormats(x), limits, TheStore(x), TheImage(x), CONFIG_BYTES, x.rootfs, MANIFEST_BYTES, "amd64");
  }

  lemma NoCollisions(x: Setup)
    requires Good(x)
    ensures CollisionFree(TheFormats(x), Everything(x))
  {
    Lengths(x);
  }

  lemma ContentsAre(x: Setup)
    requires Good(x)
    ensures OciRoundTrip.Contents(TheStore(x), TheImage(x), MANIFEST_BYTES) <= Everything(x)
  {
  }

  // ---- What the theorems say of it ----

  /** Under every sufficient limits the image is written, and it is restored exactly if the layout document of 30
      bytes fits and the staging budget can be computed. */
  lemma RoundTripOfTheImage(x: Setup, limits: Limits)
    requires Good(x) && Enough(limits)
    ensures Intact(TheFormats(x), TheStore(x), WrittenBlobs(TheImage(x)))
    ensures OciRoundTrip.WrittenRestored(TheFormats(x), limits, "amd64", MANIFEST_BYTES, TheStore(x), TheImage(x)).Some?
       <==> limits.jsonBytes >= 30 && ArchiveBytes(limits).Some?
  {
    FormatsAreLawful(x);
    IndexReadsBack(x);
    ImageIsAdmitted(x, limits);
    NoCollisions(x);
    ContentsAre(x);
    Fewer(TheFormats(x), OciRoundTrip.Contents(TheStore(x), TheImage(x), MANIFEST_BYTES), Everything(x));
    OciRoundTrip.RoundTrip(TheFormats(x), limits, "amd64", MANIFEST_BYTES, TheStore(x), TheImage(x));
    Lengths(x);
  }

  /** An admitted image that is written and not restored, and the same image restored under a higher limit. */
  lemma WrittenButNotRestored(x: Setup)
    requires Good(x)
    ensures var f, image, low, high := TheFormats(x), TheImage(x), Limits(29, 2048, 2048, 1, 1), Limits(30, 2048, 2048, 1, 1);
            && Verified(f, MANIFEST_BYTES, image.manifestSha256, "amd64", low, TheStore(x)) == Some(image)
            && Intact(f, TheStore(x), WrittenBlobs(image))
            && OciRoundTrip.WrittenRestored(f, low, "amd64", MANIFEST_BYTES, TheStore(x), image) == None
            && OciRoundTrip.WrittenRestored(f, high, "amd64", MANIFEST_BYTES, TheStore(x), image).Some?
  {
    var low, high := Limits(29, 2048, 2048, 1, 1), Limits(30, 2048, 2048, 1, 1);
    ImageIsAdmitted(x, low);
    RoundTripOfTheImage(x, low);
    RoundTripOfTheImage(x, high);
    ArchiveBytesIs(high);
  }

  lemma EditChangesNothing(x: Setup)
    ensures Snapshot.EditConfiguration(TheFormats(x), CONFIG_BYTES, x.sha(x.rootfs)) == Some(CONFIG_BYTES)
    ensures SnapshotSound.EditReadsBack(TheFormats(x), CONFIG_BYTES, x.sha(x.rootfs))
  {
    ConfigShows(x);
    ConfigReadsBack(x);
  }

  /** A snapshot of an unchanged root filesystem, put together from its parts. */
  lemma SnapshotAssembled(f: Formats, source: Image, configuration: Bytes, rootfs: Bytes, limits: Limits, edited: Bytes)
    requires limits.layers != 0 && |configuration| <= limits.jsonBytes && Snapshot.BlobFor(f, configuration) == source.config
    requires Snapshot.RootfsAccepted(f, rootfs, limits) && |f.gzip(rootfs)| <= limits.compressedBytes
    requires Snapshot.EditConfiguration(f, configuration, f.sha256(rootfs)) == Some(edited) && |edited| <= limits.jsonBytes
    requires var config, layer := Snapshot.BlobFor(f, edited), Snapshot.BlobFor(f, f.gzip(rootfs));
             |f.render(VObject(Snapshot.ManifestFields(config, layer)))| <= limits.jsonBytes
    ensures var config, layer := Snapshot.BlobFor(f, edited), Snapshot.BlobFor(f, f.gzip(rootfs));
            var manifest := f.render(VObject(Snapshot.ManifestFields(config, layer)));
            Snapshot.Snapshotted(f, source, configuration, rootfs, rootfs, limits)
            == Some(Snapshot.Built(Snapshot.BuiltImage(f, source, manifest, config, layer, Snapshot.BlobFor(f, rootfs)), manifest, edited, f.gzip(rootfs)))
  {
  }

  /** The image is a snapshot of itself: rebuilding it from its own root filesystem gives it back, with every
      hypothesis of the soundness theorem met. */
  lemma SnapshotOfItself(x: Setup, limits: Limits)
    requires Good(x) && Enough(limits)
    ensures var s := Snapshot.Built(TheImage(x), MANIFEST_BYTES, CONFIG_BYTES, Gzip(x.rootfs));
            && Snapshot.Snapshotted(TheFormats(x), TheImage(x), CONFIG_BYTES, x.rootfs, x.rootfs, limits) == Some(s)
            && SnapshotSound.GeneratedReadBack(TheFormats(x), CONFIG_BYTES, x.rootfs, s)
            && CollisionFree(TheFormats(x), SnapshotSound.Relied(s, TheImage(x), TheStore(x), CONFIG_BYTES, x.rootfs, x.rootfs))
  {
    var f, s := TheFormats(x), Snapshot.Built(TheImage(x), MANIFEST_BYTES, CONFIG_BYTES, Gzip(x.rootfs));
    ManifestReadsBack(x);
    EditChangesNothing(x);
    RootfsIsSound(x);
    BlobsAre(x);
    Lengths(x);
    SnapshotAssembled(f, TheImage(x), CONFIG_BYTES, x.rootfs, limits, CONFIG_BYTES);
    NoCollisions(x);
    Fewer(f, SnapshotSound.Relied(s, TheImage(x), TheStore(x), CONFIG_BYTES, x.rootfs, x.rootfs),
          Everything(x));
  }

  /** The hypotheses of the conversion theorem are met as well. */
  lemma ConversionApplies(x: Setup)
    requires Good(x)
    ensures RendersBack(TheFormats(x), DockerArchive.DockerManifest(TheImage(x)))
    ensures forall file | file in DockerArchive.DockerFiles(TheFormats(x), TheImage(x), TheStore(x)) :: |file.content| + 511 <= U64_MAX
  {
    DockerReadsBack(x);
    Lengths(x);
    OnlyLayerFile(TheImage(x), TheStore(x));
  }

  lemma OnlyLayerFile(image: Image, store: Store)
    requires |image.layers| == |image.diffIds| == 1
    ensures DockerArchive.LayerFiles(image, store, 1) == [DockerArchive.LayerFile(image, store, 0)]
  {
    assert DockerArchive.LayerFiles(image, store, 0) == [];
  }

  // ---- Such a digest exists ----

  function Fill(b: Byte): (r: Bytes)
    ensures |r| == 32 && r[0] == b
  {
    seq(32, _ => b)
  }

  /** A digest that tells four byte strings apart. */
  function Tell(a: Bytes, b: Bytes, c: Bytes, bytes: Bytes): Bytes {
    if bytes == a then Fill(1) else if bytes == b then Fill(2) else if bytes == c then Fill(3) else Fill(4)
  }

  lemma SetupExists() returns (x: Setup)
    ensures Good(x)
  {
    var rootfs := Tar.Zeros(1024);
    x := Setup(rootfs, (bytes: Bytes) => Tell(MANIFEST_BYTES, CONFIG_BYTES, rootfs, bytes));
    forall a, b | a in Everything(x) && b in Everything(x) && x.sha(a) == x.sha(b) ensures a == b {
      assert x.sha(a)[0] == x.sha(b)[0];
    }
  }
}
