/** Admission of a container image: its manifest, its configuration and every layer archive, within the
    operator's limits. */
module ContainerImage {
  import opened Options
  import opened ByteStrings
  import opened Json
  import opened ArchiveNames
  import opened ArchiveReaders
  import opened Numbers
  import Hex
  import Tar

  /** The formats an image is made of. */
  datatype Formats = Formats(
    sha256: Bytes -> Bytes,
    gzip: Bytes -> Bytes,
    gunzip: Bytes -> Option<Bytes>,
    parse: Bytes -> Option<Json>,
    render: Value -> Bytes,
    tar: Tar.Format)

  datatype Limits = Limits(jsonBytes: nat, compressedBytes: nat, unpackedBytes: nat, layers: nat, entries: nat) {
    predicate Representable() {
      jsonBytes <= U64_MAX && compressedBytes <= U64_MAX && unpackedBytes <= U64_MAX && layers <= U64_MAX && entries <= U64_MAX
    }
  }

  datatype Blob = Blob(sha256: Bytes, bytes: nat)

  datatype Image = Image(
    manifestSha256: Bytes,
    manifestBytes: nat,
    manifestMediaType: string,
    config: Blob,
    architecture: string,
    layers: seq<Blob>,
    diffIds: seq<Bytes>,
    unpackedBytes: nat)

  /** What the store returns for a blob: immutable content, or nothing if it cannot be read. */
  type Store = Blob -> Option<Bytes>

  // ---- Digests ----

  function DigestText(sha256: Bytes): string { "sha256:" + Hex.Encode(sha256) }

  function ParseDigest(text: string): Option<Bytes> {
    if |text| == 71 && text[..7] == "sha256:" && Hex.IsHex(text[7..]) then Some(Hex.Decode(text[7..])) else None
  }

  /** Exactly one text denotes a digest. */
  lemma DigestRoundTrip(text: string, sha256: Bytes)
    requires |sha256| == 32
    ensures ParseDigest(text) == Some(sha256) <==> text == DigestText(sha256)
  {
    if text == DigestText(sha256) {
      assert text[7..] == Hex.Encode(sha256);
      Hex.DecodeEncode(sha256);
    }
    if ParseDigest(text).Some? {
      Hex.EncodeDecode(text[7..]);
      assert text == text[..7] + text[7..];
    }
  }

  // ---- Documents ----

  datatype Descriptor = Descriptor(mediaType: string, digest: string, size: nat, remote: bool)
  datatype Manifest = Manifest(schemaVersion: nat, mediaType: string, config: Descriptor, layers: seq<Descriptor>, special: bool)
  datatype Config = Config(architecture: string, os: string, rootfsType: string, diffIds: seq<string>)

  const DESCRIPTOR: seq<string> := ["mediaType", "digest", "size", "urls", "data"]
  const MANIFEST: seq<string> := ["schemaVersion", "mediaType", "config", "layers", "artifactType", "subject"]
  const CONFIG: seq<string> := ["architecture", "os", "rootfs"]
  const ROOTFS: seq<string> := ["type", "diff_ids"]

  function DecodeDescriptor(j: Json): Option<Descriptor> {
    if !Record(j, DESCRIPTOR, false) then None
    else
      var mediaType, digest := AsText(Field(j, DESCRIPTOR, "mediaType")), AsText(Field(j, DESCRIPTOR, "digest"));
      var size := AsNat(Field(j, DESCRIPTOR, "size"), U64_MAX);
      if mediaType == None || digest == None || size == None then None
      else
        var remote := Given(Field(j, DESCRIPTOR, "urls")) || Given(Field(j, DESCRIPTOR, "data"));
        Some(Descriptor(mediaType.value, digest.value, size.value, remote))
  }

  function DecodeDescriptors(items: seq<Json>): (r: Option<seq<Descriptor>>)
    ensures r.Some? ==> |r.value| == |items|
  {
    if items == [] then Some([])
    else
      var first, rest := DecodeDescriptor(items[0]), DecodeDescriptors(items[1..]);
      if first == None || rest == None then None else Some([first.value] + rest.value)
  }

  function DecodeManifest(j: Json): Option<Manifest> {
    if !Record(j, MANIFEST, false) then None
    else
      var version, mediaType := AsNat(Field(j, MANIFEST, "schemaVersion"), 0xffff_ffff), AsText(Field(j, MANIFEST, "mediaType"));
      var config, layers := Field(j, MANIFEST, "config"), AsArray(Field(j, MANIFEST, "layers"));
      if version == None || mediaType == None || config == None || layers == None then None
      else
        var c, ls := DecodeDescriptor(config.value), DecodeDescriptors(layers.value);
        if c == None || ls == None then None
        else
          var special := Given(Field(j, MANIFEST, "artifactType")) || Given(Field(j, MANIFEST, "subject"));
          Some(Manifest(version.value, mediaType.value, c.value, ls.value, special))
  }

  function Texts(items: seq<Json>): (r: Option<seq<string>>)
    ensures r.Some? ==> |r.value| == |items|
  {
    if items == [] then Some([])
    else
      var rest := Texts(items[1..]);
      if !items[0].Text? || rest == None then None else Some([items[0].text] + rest.value)
  }

  function DecodeConfig(j: Json): Option<Config> {
    if !Record(j, CONFIG, false) then None
    else
      var architecture, os := AsText(Field(j, CONFIG, "architecture")), AsText(Field(j, CONFIG, "os"));
      var rootfs := Field(j, CONFIG, "rootfs");
      if architecture == None || os == None || rootfs == None || !Record(rootfs.value, ROOTFS, false) then None
      else
        var kind, ids := AsText(Field(rootfs.value, ROOTFS, "type")), AsArray(Field(rootfs.value, ROOTFS, "diff_ids"));
        if kind == None || ids == None || Texts(ids.value) == None then None
        else Some(Config(architecture.value, os.value, kind.value, Texts(ids.value).value))
  }

  function ParseDigests(texts: seq<string>): (r: Option<seq<Bytes>>)
    ensures r.Some? ==> |r.value| == |texts|
  {
    if texts == [] then Some([])
    else
      var first, rest := ParseDigest(texts[0]), ParseDigests(texts[1..]);
      if first == None || rest == None then None else Some([first.value] + rest.value)
  }

  // ---- What is admitted ----

  const OCI_MANIFEST := "application/vnd.oci.image.manifest.v1+json"
  const DOCKER_MANIFEST := "application/vnd.docker.distribution.manifest.v2+json"
  const OCI_CONFIG := "application/vnd.oci.image.config.v1+json"
  const DOCKER_CONFIG := "application/vnd.docker.container.image.v1+json"
  const OCI_TAR := "application/vnd.oci.image.layer.v1.tar"
  const OCI_TAR_GZIP := "application/vnd.oci.image.layer.v1.tar+gzip"
  const DOCKER_TAR_GZIP := "application/vnd.docker.image.rootfs.diff.tar.gzip"

  function BlobOf(d: Descriptor, limit: nat): Option<Blob> {
    if d.size == 0 || d.size > limit || d.remote then None
    else
      match ParseDigest(d.digest)
      case None => None
      case Some(sha256) => Some(Blob(sha256, d.size))
  }

  /** The exact bytes a blob names, or nothing. */
  function Content(f: Formats, store: Store, blob: Blob): Option<Bytes> {
    match store(blob)
    case None => None
    case Some(bytes) => if |bytes| == blob.bytes && f.sha256(bytes) == blob.sha256 then Some(bytes) else None
  }

  predicate LimitsGiven(limits: Limits) {
    limits.jsonBytes != 0 && limits.compressedBytes != 0 && limits.unpackedBytes != 0 && limits.layers != 0 && limits.entries != 0
  }

  /** The manifest, if everything about it alone is in order. */
  function ManifestOf(f: Formats, bytes: Bytes, expected: Bytes, architecture: string, limits: Limits): Option<Manifest> {
    if !LimitsGiven(limits) || bytes == [] || |bytes| > limits.jsonBytes || architecture !in ["amd64", "arm64"] || f.sha256(bytes) != expected
    then None
    else
      match f.parse(bytes)
      case None => None
      case Some(j) =>
        match DecodeManifest(j)
        case None => None
        case Some(m) =>
          if && m.schemaVersion == 2 && m.mediaType in [OCI_MANIFEST, DOCKER_MANIFEST] && !m.special
             && |m.layers| <= limits.layers && m.config.mediaType in [OCI_CONFIG, DOCKER_CONFIG]
          then Some(m) else None
  }

  /** The layer identities a configuration declares, if it fits the platform and the number of layers. */
  function DiffIdsOf(f: Formats, bytes: Bytes, architecture: string, layers: nat): (r: Option<seq<Bytes>>)
    ensures r.Some? ==> |r.value| == layers
  {
    match f.parse(bytes)
    case None => None
    case Some(j) =>
      match DecodeConfig(j)
      case None => None
      case Some(c) =>
        if c.os != "linux" || c.architecture != architecture || c.rootfsType != "layers" || |c.diffIds| != layers then None
        else ParseDigests(c.diffIds)
  }

  function Unpack(f: Formats, mediaType: string, bytes: Bytes): Option<Bytes> {
    if mediaType == OCI_TAR then Some(bytes)
    else if mediaType in [OCI_TAR_GZIP, DOCKER_TAR_GZIP] then f.gunzip(bytes)
    else None
  }

  function Names(view: Tar.View): seq<Entry> {
    seq(|view.members|, i requires 0 <= i < |view.members| => view.members[i].entry)
  }

  /** An archive that is in order whatever the budgets. */
  ghost predicate SoundArchive(f: Formats, data: Bytes, tree: bool) {
    && data != []
    && HeaderTotal(f.tar.headers, data, 0).Some?
    && var view := f.tar.view(data);
       view.Some? && view.value.end <= |data| && Admissible(Names(view.value), tree) && IsZero(data[view.value.end..])
  }

  ghost function HeaderCount(f: Formats, data: Bytes): nat {
    var total := HeaderTotal(f.tar.headers, data, 0);
    if total.Some? then total.value else 0
  }

  /** A layer: its blob, the bytes stored and unpacked, and how many headers those hold. */
  datatype Layer = Layer(blob: Blob, compressed: Bytes, unpacked: Bytes, headers: nat)

  /** One layer that is in order whatever the budgets. */
  ghost function LayerOf(f: Formats, limits: Limits, store: Store, d: Descriptor, diffId: Bytes): Option<Layer> {
    match BlobOf(d, limits.compressedBytes)
    case None => None
    case Some(blob) =>
      match Content(f, store, blob)
      case None => None
      case Some(bytes) =>
        match Unpack(f, d.mediaType, bytes)
        case None => None
        case Some(data) =>
          if f.sha256(data) == diffId && SoundArchive(f, data, false) then Some(Layer(blob, bytes, data, HeaderCount(f, data))) else None
  }

  /** Each layer by itself. */
  ghost function Each(f: Formats, limits: Limits, store: Store, ds: seq<Descriptor>, diffIds: seq<Bytes>): (r: seq<Option<Layer>>)
    requires |ds| == |diffIds|
    ensures |r| == |ds|
  {
    seq(|ds|, i requires 0 <= i < |ds| => LayerOf(f, limits, store, ds[i], diffIds[i]))
  }

  /** The first `n` layers, if each is in order. */
  ghost function All(results: seq<Option<Layer>>, n: nat): (r: Option<seq<Layer>>)
    requires n <= |results|
    ensures r.Some? ==> |r.value| == n && forall i | 0 <= i < n :: results[i] == Some(r.value[i])
    ensures r == None ==> exists i | 0 <= i < n :: results[i] == None
  {
    if n == 0 then Some([])
    else
      var before := All(results, n - 1);
      if before == None || results[n - 1] == None then None else Some(before.value + [results[n - 1].value])
  }

  ghost function CompressedSum(layers: seq<Layer>): nat {
    if layers == [] then 0 else CompressedSum(layers[..|layers| - 1]) + layers[|layers| - 1].blob.bytes
  }

  ghost function UnpackedSum(layers: seq<Layer>): nat {
    if layers == [] then 0 else UnpackedSum(layers[..|layers| - 1]) + |layers[|layers| - 1].unpacked|
  }

  ghost function HeaderSum(layers: seq<Layer>): nat {
    if layers == [] then 0 else HeaderSum(layers[..|layers| - 1]) + layers[|layers| - 1].headers
  }

  ghost predicate WithinBudgets(limits: Limits, layers: seq<Layer>) {
    && CompressedSum(layers) <= limits.compressedBytes
    && UnpackedSum(layers) <= limits.unpackedBytes
    && HeaderSum(layers) <= limits.entries
  }

  ghost function Blobs(layers: seq<Layer>): (blobs: seq<Blob>)
    ensures |blobs| == |layers|
  {
    seq(|layers|, i requires 0 <= i < |layers| => layers[i].blob)
  }

  /** The image a manifest and its blobs amount to, or nothing: every part is in order by itself, and the
      layers together are within the budgets. */
  ghost function Verified(f: Formats, bytes: Bytes, expected: Bytes, architecture: string, limits: Limits, store: Store): (r: Option<Image>)
    ensures r.Some? ==> |r.value.layers| == |r.value.diffIds|
  {
    match ManifestOf(f, bytes, expected, architecture, limits)
    case None => None
    case Some(m) =>
      match BlobOf(m.config, limits.jsonBytes)
      case None => None
      case Some(config) =>
        match Content(f, store, config)
        case None => None
        case Some(configuration) =>
          match DiffIdsOf(f, configuration, architecture, |m.layers|)
          case None => None
          case Some(diffIds) =>
            match All(Each(f, limits, store, m.layers, diffIds), |m.layers|)
            case None => None
            case Some(layers) =>
              if WithinBudgets(limits, layers)
              then Some(Image(expected, |bytes|, m.mediaType, config, architecture, Blobs(layers), diffIds, UnpackedSum(layers)))
              else None
  }

  // ---- How it is carried out ----

  /** Everything after the end marker, read in pieces, must be zero. */
  method TailIsZero(data: Bytes, end: nat) returns (ok: bool)
    requires end <= |data|
    ensures ok <==> IsZero(data[end..])
  {
    var at := end;
    while at < |data|
      invariant end <= at <= |data|
      invariant forall i | end <= i < at :: data[i] == 0
    {
      var size := Min(8192, |data| - at);
      if !IsZero(data[at..at + size]) {
        var i :| 0 <= i < size && data[at..at + size][i] != 0;
        assert data[end..][at - end + i] != 0;
        return false;
      }
      forall i | at <= i < at + size ensures data[i] == 0 {
        assert data[at..at + size][i - at] == 0;
      }
      at := at + size;
    }
    return true;
  }

  /** Inspect one archive as it streams by: its digest and size, and the entries left of the budget. */
  method InspectArchive(f: Formats, source: Source, limit: nat, entries: nat, tree: bool, rooms: seq<nat>) returns (r: Option<(Blob, nat)>)
    requires source.pos == 0 && source.Faultless() && limit <= U64_MAX
    modifies source
    ensures r.Some? <==>
              SoundArchive(f, source.data, tree) && |source.data| <= limit && HeaderCount(f, source.data) <= entries
    ensures r.Some? ==>
              && r.value == (Blob(f.sha256(source.data), |source.data|), entries - HeaderCount(f, source.data))
              && source.pos == |source.data|
  {
    var read := InspectStream(source, limit, entries, f.tar.headers, rooms);
    if read.Rejected? { return None; }
    var view := f.tar.view(read.bytes);
    if view == None || view.value.end > |read.bytes| { return None; }
    var ok := CheckNames(Names(view.value), tree);
    if !ok { return None; }
    ok := TailIsZero(read.bytes, view.value.end);
    if !ok || |read.bytes| == 0 { return None; }
    return Some((Blob(f.sha256(read.bytes), |read.bytes|), read.headersLeft));
  }

  /** Read a blob to its end through its declared size, and compare digest and size. */
  method ReadBlob(f: Formats, store: Store, blob: Blob, deliveries: seq<Delivery>, rooms: seq<nat>) returns (r: Option<Bytes>)
    requires Fault !in deliveries && blob.bytes <= U64_MAX
    ensures r == Content(f, store, blob)
  {
    var stored := store(blob);
    if stored == None { return None; }
    var source := new Source(stored.value, deliveries);
    r := ReadToEnd(source, blob.bytes, rooms);
    if r == None { return; }
    if |r.value| != blob.bytes || f.sha256(r.value) != blob.sha256 { return None; }
  }

  /** One layer against what is left of the budgets. */
  method VerifyLayer(f: Formats, limits: Limits, store: Store, d: Descriptor, diffId: Bytes, ghost layer: Option<Layer>,
                     compressed: nat, remaining: nat, entries: nat, deliveries: seq<Delivery>, rooms: seq<nat>)
    returns (r: Option<(Blob, nat, nat)>)
    requires limits.Representable() && Fault !in deliveries && remaining <= U64_MAX
    requires layer == LayerOf(f, limits, store, d, diffId)
    ensures r.Some? <==>
              && layer.Some?
              && compressed + layer.value.blob.bytes <= limits.compressedBytes
              && |layer.value.unpacked| <= remaining
              && layer.value.headers <= entries
    ensures r.Some? ==> r.value == (layer.value.blob, |layer.value.unpacked|, entries - layer.value.headers)
  {
    if d.mediaType !in [OCI_TAR, OCI_TAR_GZIP, DOCKER_TAR_GZIP] { return None; }
    var blob := BlobOf(d, limits.compressedBytes);
    if blob == None || compressed + blob.value.bytes > limits.compressedBytes { return None; }
    var bytes := ReadBlob(f, store, blob.value, deliveries, rooms);
    if bytes == None { return None; }
    var data := Unpack(f, d.mediaType, bytes.value);
    if data == None { return None; }
    var source := new Source(data.value, deliveries);
    var inspected := InspectArchive(f, source, remaining, entries, false, rooms);
    if inspected == None || inspected.value.0.sha256 != diffId { return None; }
    return Some((blob.value, inspected.value.0.bytes, inspected.value.1));
  }

  lemma AllStep(results: seq<Option<Layer>>, i: nat, layers: seq<Layer>)
    requires i < |results| && All(results, i) == Some(layers)
    ensures All(results, i + 1) == if results[i].Some? then Some(layers + [results[i].value]) else None
  {
  }

  lemma AllPrefix(results: seq<Option<Layer>>, k: nat, n: nat)
    requires k <= n <= |results|
    ensures All(results, n).Some? ==> All(results, k) == Some(All(results, n).value[..k])
  {
    if All(results, n).Some? {
      assert forall i | 0 <= i < n :: results[i].Some?;
      assert All(results, k).value == All(results, n).value[..k];
    }
  }

  lemma {:induction false} SumsGrow(layers: seq<Layer>, k: nat)
    requires k <= |layers|
    ensures CompressedSum(layers[..k]) <= CompressedSum(layers)
    ensures UnpackedSum(layers[..k]) <= UnpackedSum(layers)
    ensures HeaderSum(layers[..k]) <= HeaderSum(layers)
    decreases |layers|
  {
    if k == |layers| {
      assert layers[..k] == layers;
    } else {
      assert layers[..|layers| - 1][..k] == layers[..k];
      SumsGrow(layers[..|layers| - 1], k);
    }
  }

  /** Adding one layer to the sums. */
  lemma SumsStep(layers: seq<Layer>, layer: Layer)
    ensures CompressedSum(layers + [layer]) == CompressedSum(layers) + layer.blob.bytes
    ensures UnpackedSum(layers + [layer]) == UnpackedSum(layers) + |layer.unpacked|
    ensures HeaderSum(layers + [layer]) == HeaderSum(layers) + layer.headers
  {
    assert (layers + [layer])[..|layers|] == layers;
  }

  /** Whether the first `n` layers are in order and within the budgets. */
  ghost predicate Admitted(limits: Limits, results: seq<Option<Layer>>, n: nat)
    requires n <= |results|
  {
    All(results, n).Some? && WithinBudgets(limits, All(results, n).value)
  }

  /** A layer that is refused, by itself or for the budgets it would exceed, refuses the image. */
  lemma RefusedLayer(limits: Limits, results: seq<Option<Layer>>, i: nat)
    requires i < |results| && !Admitted(limits, results, i + 1)
    ensures !Admitted(limits, results, |results|)
  {
    AllPrefix(results, i + 1, |results|);
    if All(results, |results|).Some? { SumsGrow(All(results, |results|).value, i + 1); }
  }

  /** The running totals are those of the layers done, and none has run over. */
  ghost predicate Running(limits: Limits, layers: seq<Layer>, compressed: nat, unpacked: nat, left: nat) {
    && compressed == CompressedSum(layers) <= limits.compressedBytes
    && unpacked == UnpackedSum(layers) <= limits.unpackedBytes
    && left + HeaderSum(layers) == limits.entries
  }

  /** The next layer is admitted exactly if it is in order and fits what is left of each budget. */
  lemma NextLayer(limits: Limits, results: seq<Option<Layer>>, i: nat, layers: seq<Layer>, compressed: nat, unpacked: nat, left: nat)
    requires i < |results| && All(results, i) == Some(layers) && Running(limits, layers, compressed, unpacked, left)
    ensures Admitted(limits, results, i + 1) <==>
              && results[i].Some?
              && compressed + results[i].value.blob.bytes <= limits.compressedBytes
              && |results[i].value.unpacked| <= limits.unpackedBytes - unpacked
              && results[i].value.headers <= left
    ensures Admitted(limits, results, i + 1) ==>
              && All(results, i + 1) == Some(layers + [results[i].value])
              && Running(limits, layers + [results[i].value], compressed + results[i].value.blob.bytes,
                         unpacked + |results[i].value.unpacked|, left - results[i].value.headers)
  {
    AllStep(results, i, layers);
    if results[i].Some? { SumsStep(layers, results[i].value); }
  }

  lemma BlobsStep(layers: seq<Layer>, next: Option<Layer>)
    ensures next.Some? ==> Blobs(layers + [next.value]) == Blobs(layers) + [next.value.blob]
  {
  }

  /** The running totals: blobs and sizes so far, and the entries left. */
  datatype Totals = Totals(blobs: seq<Blob>, compressed: nat, unpacked: nat, left: nat)

  /** One turn of the loop: the totals with one more layer, or nothing if it is refused. */
  method OneMoreLayer(f: Formats, limits: Limits, store: Store, d: Descriptor, diffId: Bytes, ghost i: nat,
                      ghost results: seq<Option<Layer>>, ghost layers: seq<Layer>, totals: Totals,
                      deliveries: seq<Delivery>, rooms: seq<nat>)
    returns (r: Option<Totals>)
    requires limits.Representable() && Fault !in deliveries && i < |results| && results[i] == LayerOf(f, limits, store, d, diffId)
    requires All(results, i) == Some(layers) && totals.blobs == Blobs(layers)
    requires Running(limits, layers, totals.compressed, totals.unpacked, totals.left)
    ensures r.Some? <==> Admitted(limits, results, i + 1)
    ensures r.Some? ==>
              && results[i].Some? && All(results, i + 1) == Some(layers + [results[i].value])
              && r.value.blobs == Blobs(layers + [results[i].value])
              && Running(limits, layers + [results[i].value], r.value.compressed, r.value.unpacked, r.value.left)
  {
    NextLayer(limits, results, i, layers, totals.compressed, totals.unpacked, totals.left);
    BlobsStep(layers, results[i]);
    var verified := VerifyLayer(f, limits, store, d, diffId, results[i], totals.compressed, limits.unpackedBytes - totals.unpacked,
                                totals.left, deliveries, rooms);
    if verified == None { return None; }
    return Some(Totals(totals.blobs + [verified.value.0], totals.compressed + verified.value.0.bytes,
                       totals.unpacked + verified.value.1, verified.value.2));
  }

  /** Go through the layers with running budgets. */
  method VerifyLayers(f: Formats, limits: Limits, store: Store, ds: seq<Descriptor>, diffIds: seq<Bytes>,
                      deliveries: seq<Delivery>, rooms: seq<nat>)
    returns (ok: bool, blobs: seq<Blob>, unpacked: nat)
    requires |ds| == |diffIds| && limits.Representable() && Fault !in deliveries
    ensures var results := Each(f, limits, store, ds, diffIds);
            && (ok <==> Admitted(limits, results, |ds|))
            && (ok ==> var layers := All(results, |ds|).value; blobs == Blobs(layers) && unpacked == UnpackedSum(layers))
  {
    ghost var results := Each(f, limits, store, ds, diffIds);
    ok, blobs, unpacked := VerifyEach(f, limits, store, ds, diffIds, results, deliveries, rooms);
  }

  method VerifyEach(f: Formats, limits: Limits, store: Store, ds: seq<Descriptor>, diffIds: seq<Bytes>, ghost results: seq<Option<Layer>>,
                    deliveries: seq<Delivery>, rooms: seq<nat>)
    returns (ok: bool, blobs: seq<Blob>, unpacked: nat)
    requires |ds| == |diffIds| == |results| && limits.Representable() && Fault !in deliveries
    requires forall i | 0 <= i < |ds| :: results[i] == LayerOf(f, limits, store, ds[i], diffIds[i])
    ensures ok <==> Admitted(limits, results, |ds|)
    ensures ok ==> blobs == Blobs(All(results, |ds|).value) && unpacked == UnpackedSum(All(results, |ds|).value)
  {
    ghost var layers: seq<Layer> := [];
    var totals := Totals([], 0, 0, limits.entries);
    for i := 0 to |ds|
      invariant All(results, i) == Some(layers) && totals.blobs == Blobs(layers)
      invariant Running(limits, layers, totals.compressed, totals.unpacked, totals.left)
    {
      var next := OneMoreLayer(f, limits, store, ds[i], diffIds[i], i, results, layers, totals, deliveries, rooms);
      if next == None {
        RefusedLayer(limits, results, i);
        return false, totals.blobs, totals.unpacked;
      }
      layers, totals := layers + [results[i].value], next.value;
    }
    return true, totals.blobs, totals.unpacked;
  }

  method VerifyContainerImage(f: Formats, bytes: Bytes, expected: Bytes, architecture: string, limits: Limits, store: Store,
                              deliveries: seq<Delivery>, rooms: seq<nat>)
    returns (r: Option<Image>)
    requires limits.Representable() && Fault !in deliveries
    ensures r == Verified(f, bytes, expected, architecture, limits, store)
  {
    var m := ManifestOf(f, bytes, expected, architecture, limits);
    if m == None { return None; }
    var config := BlobOf(m.value.config, limits.jsonBytes);
    if config == None { return None; }
    var configuration := ReadBlob(f, store, config.value, deliveries, rooms);
    if configuration == None { return None; }
    var diffIds := DiffIdsOf(f, configuration.value, architecture, |m.value.layers|);
    if diffIds == None { return None; }
    var ok, blobs, unpacked := VerifyLayers(f, limits, store, m.value.layers, diffIds.value, deliveries, rooms);
    if !ok { return None; }
    return Some(Image(expected, |bytes|, m.value.mediaType, config.value, architecture, blobs, diffIds.value, unpacked));
  }
}
