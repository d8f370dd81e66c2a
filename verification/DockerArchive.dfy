/** Converting an admitted image to a Docker archive, where layers are named and shared by DiffID. */
module DockerArchive {
  import opened Options
  import opened ByteStrings
  import opened Json
  import opened ArchiveReaders
  import opened Numbers
  import opened ContainerImage
  import opened OciArchive
  import Hex
  import Tar

  const MANIFEST_NAME := "manifest.json"

  function ConfigPath(image: Image): string { Hex.Encode(image.config.sha256) + ".json" }

  function LayerPath(diffId: Bytes): string { Hex.Encode(diffId) + "/layer.tar" }

  function LayerPaths(image: Image): seq<string> {
    seq(|image.diffIds|, i requires 0 <= i < |image.diffIds| => LayerPath(image.diffIds[i]))
  }

  function TextValues(texts: seq<string>): seq<Value> {
    seq(|texts|, i requires 0 <= i < |texts| => VText(texts[i]))
  }

  function DockerManifest(image: Image): Value {
    VArray([VObject(map[
      "Config" := VText(ConfigPath(image)),
      "RepoTags" := VArray([]),
      "Layers" := VArray(TextValues(LayerPaths(image)))])])
  }

  /** The DiffIDs of the first `n` layers. */
  function Seen(diffIds: seq<Bytes>, n: nat): set<Bytes>
    requires n <= |diffIds|
  {
    if n == 0 then {} else Seen(diffIds, n - 1) + {diffIds[n - 1]}
  }

  function LayerFile(image: Image, store: Store, i: nat): Tar.File
    requires i < |image.layers| == |image.diffIds|
  {
    Tar.File(Ascii(LayerPath(image.diffIds[i])), if store(image.layers[i]).Some? then store(image.layers[i]).value else [])
  }

  /** The first `n` layers as they are written: each DiffID once, with the blob it first occurs with. */
  function LayerFiles(image: Image, store: Store, n: nat): seq<Tar.File>
    requires n <= |image.layers| == |image.diffIds|
  {
    if n == 0 then []
    else if image.diffIds[n - 1] in Seen(image.diffIds, n - 1) then LayerFiles(image, store, n - 1)
    else LayerFiles(image, store, n - 1) + [LayerFile(image, store, n - 1)]
  }

  function DockerHead(f: Formats, image: Image, store: Store): seq<Tar.File> {
    [Tar.File(Ascii(MANIFEST_NAME), f.render(DockerManifest(image))),
     Tar.File(Ascii(ConfigPath(image)), if store(image.config).Some? then store(image.config).value else [])]
  }

  function DockerFiles(f: Formats, image: Image, store: Store): seq<Tar.File>
    requires |image.layers| == |image.diffIds|
  {
    DockerHead(f, image, store) + LayerFiles(image, store, |image.layers|)
  }

  /** Every layer to be written, among the first `n`, is stored intact. */
  ghost predicate LayersIntact(f: Formats, image: Image, store: Store, n: nat)
    requires n <= |image.layers| == |image.diffIds|
  {
    n == 0 || (LayersIntact(f, image, store, n - 1) && (image.diffIds[n - 1] in Seen(image.diffIds, n - 1) || Content(f, store, image.layers[n - 1]).Some?))
  }

  /** Append each layer whose DiffID is new, in its original transport bytes. */
  method AppendLayers(f: Formats, image: Image, store: Store, builder: Builder, deliveries: seq<Delivery>, rooms: seq<nat>)
    returns (ok: bool)
    requires |image.layers| == |image.diffIds| && builder.tar == f.tar
    requires Fault !in deliveries && forall b | b in image.layers :: b.bytes <= U64_MAX
    modifies builder
    ensures ok <==> LayersIntact(f, image, store, |image.layers|)
    ensures ok ==> builder.output == Output(f.tar, old(builder.output), image, store, |image.layers|)
  {
    var written: set<Bytes> := {};
    for i := 0 to |image.layers|
      invariant written == Seen(image.diffIds, i)
      invariant LayersIntact(f, image, store, i)
      invariant builder.output == Output(f.tar, old(builder.output), image, store, i)
    {
      IntactStep(f, image, store, i);
      if image.diffIds[i] in written { continue; }
      written := written + {image.diffIds[i]};
      ok := AppendBlob(f, store, image.layers[i], Ascii(LayerPath(image.diffIds[i])), builder, deliveries, rooms);
      if !ok {
        IntactGrows(f, image, store, i + 1, |image.layers|);
        return;
      }
    }
    return true;
  }

  /** The output after the first `n` layers. */
  ghost function Output(t: Tar.Format, base: Bytes, image: Image, store: Store, n: nat): Bytes
    requires n <= |image.layers| == |image.diffIds|
  {
    if n == 0 then base
    else if image.diffIds[n - 1] in Seen(image.diffIds, n - 1) then Output(t, base, image, store, n - 1)
    else Output(t, base, image, store, n - 1) + Tar.Framed(t, LayerFile(image, store, n - 1))
  }

  lemma IntactStep(f: Formats, image: Image, store: Store, i: nat)
    requires i < |image.layers| == |image.diffIds|
    ensures image.diffIds[i] in Seen(image.diffIds, i) ==>
              Seen(image.diffIds, i + 1) == Seen(image.diffIds, i) && LayersIntact(f, image, store, i + 1) == LayersIntact(f, image, store, i)
    ensures image.diffIds[i] !in Seen(image.diffIds, i) ==>
              && Seen(image.diffIds, i + 1) == Seen(image.diffIds, i) + {image.diffIds[i]}
              && (LayersIntact(f, image, store, i + 1) <==> LayersIntact(f, image, store, i) && Content(f, store, image.layers[i]).Some?)
  {
  }

  lemma {:induction false} IntactGrows(f: Formats, image: Image, store: Store, k: nat, n: nat)
    requires k <= n <= |image.layers| == |image.diffIds|
    ensures LayersIntact(f, image, store, n) ==> LayersIntact(f, image, store, k)
    decreases n
  {
    if k < n { IntactGrows(f, image, store, k, n - 1); }
  }

  lemma {:induction false} OutputIs(t: Tar.Format, head: seq<Tar.File>, image: Image, store: Store, n: nat)
    requires n <= |image.layers| == |image.diffIds|
    ensures Output(t, Tar.Body(t, head), image, store, n) == Tar.Body(t, head + LayerFiles(image, store, n))
  {
    if n == 0 {
      assert head + [] == head;
    } else {
      OutputIs(t, head, image, store, n - 1);
      OutputStep(t, head, image, store, n - 1, LayerFiles(image, store, n - 1));
    }
  }

  lemma OutputStep(t: Tar.Format, head: seq<Tar.File>, image: Image, store: Store, n: nat, files: seq<Tar.File>)
    requires n < |image.layers| == |image.diffIds| && files == LayerFiles(image, store, n)
    requires Output(t, Tar.Body(t, head), image, store, n) == Tar.Body(t, head + files)
    ensures Output(t, Tar.Body(t, head), image, store, n + 1) == Tar.Body(t, head + LayerFiles(image, store, n + 1))
  {
    if image.diffIds[n] !in Seen(image.diffIds, n) {
      assert LayerFiles(image, store, n + 1) == files + [LayerFile(image, store, n)];
      AppendOne(t, head, files, LayerFile(image, store, n));
    }
  }

  lemma AppendOne(t: Tar.Format, head: seq<Tar.File>, files: seq<Tar.File>, file: Tar.File)
    ensures Tar.Body(t, head + (files + [file])) == Tar.Body(t, head + files) + Tar.Framed(t, file)
  {
    BodyAppend(t, head + files, file);
    assert head + (files + [file]) == (head + files) + [file];
  }

  method WriteDockerArchive(f: Formats, image: Image, store: Store, deliveries: seq<Delivery>, rooms: seq<nat>)
    returns (r: Option<Bytes>)
    requires |image.layers| == |image.diffIds| && Fault !in deliveries && forall b | b in ImageBlobs(image) :: b.bytes <= U64_MAX
    ensures r.Some? <==> Content(f, store, image.config).Some? && LayersIntact(f, image, store, |image.layers|)
    ensures r.Some? ==> r.value == Tar.Pack(f.tar, DockerFiles(f, image, store))
  {
    var builder := new Builder(f.tar);
    ghost var head := DockerHead(f, image, store);
    BodyAppend(f.tar, [], head[0]);
    assert [] + [head[0]] == [head[0]] && [head[0]] + [head[1]] == head;
    builder.Append(Ascii(MANIFEST_NAME), f.render(DockerManifest(image)));
    assert image.config in ImageBlobs(image);
    BodyAppend(f.tar, [head[0]], head[1]);
    var ok := AppendBlob(f, store, image.config, Ascii(ConfigPath(image)), builder, deliveries, rooms);
    if !ok { return None; }
    forall b | b in image.layers ensures b in ImageBlobs(image) {
    }
    OutputIs(f.tar, head, image, store, |image.layers|);
    ok := AppendLayers(f, image, store, builder, deliveries, rooms);
    if !ok { return None; }
    var archive := builder.Finish();
    return Some(archive);
  }
}
