/** What admission establishes about an image and its blobs. */
module ImageFacts {
  import opened Options
  import opened ByteStrings
  import opened ContainerImage
  import opened OciArchive

  // ---- Blobs written once ----

  lemma {:induction false} FreshAre(blobs: seq<Blob>, written: set<Bytes>)
    ensures forall b | b in Fresh(blobs, written) :: b in blobs && b.sha256 !in written
    ensures forall i, j | 0 <= i < j < |Fresh(blobs, written)| :: Fresh(blobs, written)[i].sha256 != Fresh(blobs, written)[j].sha256
    decreases |blobs|
  {
    if blobs != [] {
      var before, last := blobs[..|blobs| - 1], blobs[|blobs| - 1];
      FreshAre(before, written);
      forall b | b in Fresh(before, written) ensures b.sha256 in Digests(before) {
      }
    }
  }

  /** Every digest is written, now or before. */
  lemma {:induction false} FreshCovers(blobs: seq<Blob>, written: set<Bytes>, b: Blob)
    requires b in blobs && b.sha256 !in written
    ensures exists x | x in Fresh(blobs, written) :: x.sha256 == b.sha256
    decreases |blobs|
  {
    var before, last := blobs[..|blobs| - 1], blobs[|blobs| - 1];
    assert blobs == before + [last];
    if b in before {
      FreshCovers(before, written, b);
      var x :| x in Fresh(before, written) && x.sha256 == b.sha256;
      assert x in Fresh(blobs, written);
    } else if b.sha256 in Digests(before) {
      var y :| y in before && y.sha256 == b.sha256;
      FreshCovers(before, written, y);
      var x :| x in Fresh(before, written) && x.sha256 == y.sha256;
      assert x in Fresh(blobs, written);
    } else {
      assert last in Fresh(blobs, written);
    }
  }

  function BlobSum(blobs: seq<Blob>): nat {
    if blobs == [] then 0 else BlobSum(blobs[..|blobs| - 1]) + blobs[|blobs| - 1].bytes
  }

  lemma {:induction false} FreshSum(blobs: seq<Blob>, written: set<Bytes>)
    ensures BlobSum(Fresh(blobs, written)) <= BlobSum(blobs) && |Fresh(blobs, written)| <= |blobs|
    decreases |blobs|
  {
    if blobs != [] {
      var before, last := blobs[..|blobs| - 1], blobs[|blobs| - 1];
      FreshSum(before, written);
      assert (Fresh(before, written) + [last])[..|Fresh(before, written)|] == Fresh(before, written);
    }
  }

  lemma {:induction false} BlobSumFront(first: Blob, rest: seq<Blob>)
    ensures BlobSum([first] + rest) == first.bytes + BlobSum(rest)
    decreases |rest|
  {
    var all := [first] + rest;
    if rest == [] {
      assert all[..0] == [] && all[0] == first;
    } else {
      assert all[..|all| - 1] == [first] + rest[..|rest| - 1];
      BlobSumFront(first, rest[..|rest| - 1]);
    }
  }

  // ---- What admission says about an image ----

  ghost predicate Fits(image: Image, limits: Limits) {
    && image.manifestBytes <= limits.jsonBytes
    && image.config.bytes <= limits.jsonBytes
    && BlobSum(image.layers) <= limits.compressedBytes
    && |image.layers| <= limits.layers
  }

  lemma {:induction false} CompressedIsBlobSum(layers: seq<Layer>)
    ensures CompressedSum(layers) == BlobSum(Blobs(layers))
    decreases |layers|
  {
    if layers != [] {
      CompressedIsBlobSum(layers[..|layers| - 1]);
      assert Blobs(layers)[..|layers| - 1] == Blobs(layers[..|layers| - 1]);
    }
  }

  /** The parts an admission looked at. */
  ghost predicate Parsed(f: Formats, bytes: Bytes, architecture: string, limits: Limits, store: Store, image: Image,
                         m: Manifest, diffIds: seq<Bytes>, layers: seq<Layer>)
  {
    && ManifestOf(f, bytes, image.manifestSha256, architecture, limits) == Some(m)
    && BlobOf(m.config, limits.jsonBytes) == Some(image.config)
    && Content(f, store, image.config).Some?
    && DiffIdsOf(f, Content(f, store, image.config).value, architecture, |m.layers|) == Some(diffIds)
    && All(Each(f, limits, store, m.layers, diffIds), |m.layers|) == Some(layers)
    && WithinBudgets(limits, layers)
    && image == Image(image.manifestSha256, |bytes|, m.mediaType, image.config, architecture, Blobs(layers), diffIds, UnpackedSum(layers))
  }

  lemma VerifiedParts(f: Formats, bytes: Bytes, expected: Bytes, architecture: string, limits: Limits, store: Store, image: Image)
    returns (m: Manifest, diffIds: seq<Bytes>, layers: seq<Layer>)
    requires Verified(f, bytes, expected, architecture, limits, store) == Some(image)
    ensures image.manifestSha256 == expected && Parsed(f, bytes, architecture, limits, store, image, m, diffIds, layers)
  {
    m := ManifestOf(f, bytes, expected, architecture, limits).value;
    var config := BlobOf(m.config, limits.jsonBytes).value;
    diffIds := DiffIdsOf(f, Content(f, store, config).value, architecture, |m.layers|).value;
    layers := All(Each(f, limits, store, m.layers, diffIds), |m.layers|).value;
  }

  lemma LayerBlob(f: Formats, limits: Limits, store: Store, d: Descriptor, diffId: Bytes)
    requires LayerOf(f, limits, store, d, diffId).Some?
    ensures var layer := LayerOf(f, limits, store, d, diffId).value;
            BlobOf(d, limits.compressedBytes) == Some(layer.blob) && Content(f, store, layer.blob) == Some(layer.compressed)
  {
  }

  lemma PartsIntact(f: Formats, limits: Limits, store: Store, ds: seq<Descriptor>, diffIds: seq<Bytes>, layers: seq<Layer>, i: nat)
    requires |ds| == |diffIds| && All(Each(f, limits, store, ds, diffIds), |ds|) == Some(layers) && i < |ds|
    ensures Content(f, store, layers[i].blob).Some?
  {
    assert Each(f, limits, store, ds, diffIds)[i] == Some(layers[i]);
    LayerBlob(f, limits, store, ds[i], diffIds[i]);
  }

  lemma PartsFit(f: Formats, bytes: Bytes, architecture: string, limits: Limits, store: Store, image: Image,
                 m: Manifest, diffIds: seq<Bytes>, layers: seq<Layer>)
    requires Parsed(f, bytes, architecture, limits, store, image, m, diffIds, layers)
    ensures Fits(image, limits) && bytes != [] && f.sha256(bytes) == image.manifestSha256
  {
    CompressedIsBlobSum(layers);
  }

  /** Every blob of an admitted image is stored intact, and the sizes are within the limits. */
  lemma VerifiedFacts(f: Formats, bytes: Bytes, expected: Bytes, architecture: string, limits: Limits, store: Store, image: Image)
    requires Verified(f, bytes, expected, architecture, limits, store) == Some(image)
    ensures Fits(image, limits) && Intact(f, store, ImageBlobs(image))
    ensures image.manifestSha256 == expected == f.sha256(bytes) && image.manifestBytes == |bytes| && bytes != [] && image.architecture == architecture
  {
    var m, diffIds, layers := VerifiedParts(f, bytes, expected, architecture, limits, store, image);
    PartsFit(f, bytes, architecture, limits, store, image, m, diffIds, layers);
    LayersIntact(f, bytes, architecture, limits, store, image, m, diffIds, layers);
    AllIntact(f, store, image);
  }

  lemma LayersIntact(f: Formats, bytes: Bytes, architecture: string, limits: Limits, store: Store, image: Image,
                     m: Manifest, diffIds: seq<Bytes>, layers: seq<Layer>)
    requires Parsed(f, bytes, architecture, limits, store, image, m, diffIds, layers)
    ensures Intact(f, store, image.layers)
  {
    forall b | b in image.layers ensures Content(f, store, b).Some? {
      var i :| 0 <= i < |image.layers| && image.layers[i] == b;
      PartsIntact(f, limits, store, m.layers, diffIds, layers, i);
    }
  }

  lemma AllIntact(f: Formats, store: Store, image: Image)
    requires Intact(f, store, image.layers) && Content(f, store, image.config).Some?
    ensures Intact(f, store, ImageBlobs(image))
  {
  }

  /** A layer depends on the store only through its own blob. */
  lemma LayerAgrees(f: Formats, limits: Limits, store: Store, other: Store, d: Descriptor, diffId: Bytes)
    requires LayerOf(f, limits, store, d, diffId).Some?
    requires var b := LayerOf(f, limits, store, d, diffId).value.blob; Content(f, other, b) == Content(f, store, b)
    ensures LayerOf(f, limits, other, d, diffId) == LayerOf(f, limits, store, d, diffId)
  {
  }

  /** Admission depends on the store only through the image's own blobs. */
  lemma VerifiedAgrees(f: Formats, bytes: Bytes, expected: Bytes, architecture: string, limits: Limits, store: Store, other: Store, image: Image)
    requires Verified(f, bytes, expected, architecture, limits, store) == Some(image)
    requires forall b | b in ImageBlobs(image) :: Content(f, other, b) == Content(f, store, b)
    ensures Verified(f, bytes, expected, architecture, limits, other) == Some(image)
  {
    var m, diffIds, layers := VerifiedParts(f, bytes, expected, architecture, limits, store, image);
    var here, there := Each(f, limits, store, m.layers, diffIds), Each(f, limits, other, m.layers, diffIds);
    assert there == here by {
      forall i | 0 <= i < |here| ensures there[i] == here[i] {
        EachAgrees(f, bytes, architecture, limits, store, other, image, m, diffIds, layers, i);
      }
    }
    assert image.config in ImageBlobs(image);
    Assembled(f, bytes, expected, architecture, limits, other, m, image.config, Content(f, store, image.config).value, diffIds, layers);
  }

  lemma EachAgrees(f: Formats, bytes: Bytes, architecture: string, limits: Limits, store: Store, other: Store, image: Image,
                   m: Manifest, diffIds: seq<Bytes>, layers: seq<Layer>, i: nat)
    requires Parsed(f, bytes, architecture, limits, store, image, m, diffIds, layers) && i < |m.layers|
    requires forall b | b in ImageBlobs(image) :: Content(f, other, b) == Content(f, store, b)
    ensures Each(f, limits, other, m.layers, diffIds)[i] == Each(f, limits, store, m.layers, diffIds)[i]
  {
    assert Each(f, limits, store, m.layers, diffIds)[i] == Some(layers[i]) && image.layers[i] == layers[i].blob;
    assert image.layers[i] in ImageBlobs(image);
    LayerAgrees(f, limits, store, other, m.layers[i], diffIds[i]);
  }

  predicate Raised(a: Limits, b: Limits) {
    a.jsonBytes <= b.jsonBytes && a.compressedBytes <= b.compressedBytes && a.unpackedBytes <= b.unpackedBytes
    && a.layers <= b.layers && a.entries <= b.entries
  }

  lemma RaisedLayer(f: Formats, a: Limits, b: Limits, store: Store, d: Descriptor, diffId: Bytes)
    requires Raised(a, b) && LayerOf(f, a, store, d, diffId).Some?
    ensures LayerOf(f, b, store, d, diffId) == LayerOf(f, a, store, d, diffId)
  {
  }

  lemma RaisedManifest(f: Formats, bytes: Bytes, expected: Bytes, architecture: string, a: Limits, b: Limits, m: Manifest)
    requires Raised(a, b) && ManifestOf(f, bytes, expected, architecture, a) == Some(m)
    ensures ManifestOf(f, bytes, expected, architecture, b) == Some(m)
  {
  }

  /** An image admitted under some limits is admitted, as the same image, under any higher ones. */
  lemma RaisedLimits(f: Formats, bytes: Bytes, expected: Bytes, architecture: string, a: Limits, b: Limits, store: Store, image: Image)
    requires Verified(f, bytes, expected, architecture, a, store) == Some(image) && Raised(a, b)
    ensures Verified(f, bytes, expected, architecture, b, store) == Some(image)
  {
    var m, diffIds, layers := VerifiedParts(f, bytes, expected, architecture, a, store, image);
    RaisedManifest(f, bytes, expected, architecture, a, b, m);
    var low, high := Each(f, a, store, m.layers, diffIds), Each(f, b, store, m.layers, diffIds);
    assert high == low by {
      forall i | 0 <= i < |low| ensures high[i] == low[i] {
        assert low[i] == Some(layers[i]);
        RaisedLayer(f, a, b, store, m.layers[i], diffIds[i]);
      }
    }
    Assembled(f, bytes, expected, architecture, b, store, m, image.config, Content(f, store, image.config).value, diffIds, layers);
  }

  /** Parts that are in order make an image. */
  lemma Assembled(f: Formats, bytes: Bytes, expected: Bytes, architecture: string, limits: Limits, store: Store,
                  m: Manifest, config: Blob, configuration: Bytes, diffIds: seq<Bytes>, layers: seq<Layer>)
    requires ManifestOf(f, bytes, expected, architecture, limits) == Some(m) && BlobOf(m.config, limits.jsonBytes) == Some(config)
    requires Content(f, store, config) == Some(configuration)
    requires DiffIdsOf(f, configuration, architecture, |m.layers|) == Some(diffIds)
    requires All(Each(f, limits, store, m.layers, diffIds), |m.layers|) == Some(layers) && WithinBudgets(limits, layers)
    ensures Verified(f, bytes, expected, architecture, limits, store)
         == Some(Image(expected, |bytes|, m.mediaType, config, architecture, Blobs(layers), diffIds, UnpackedSum(layers)))
  {
  }
}
