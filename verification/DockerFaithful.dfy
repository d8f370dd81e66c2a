/** The Docker archive of an admitted image means what the image means. */
module DockerFaithful {
  import opened Options
  import opened ByteStrings
  import opened Json
  import opened ArchiveNames
  import opened Numbers
  import opened ContainerImage
  import opened OciArchive
  import opened ImageLaws
  import opened OciMembers
  import opened ImageFacts
  import opened ImageAdmission
  import opened DockerArchive
  import Hex
  import Tar

  // ---- Names ----

  lemma NamesShort(sha256: Bytes)
    requires |sha256| == 32
    ensures Tar.ShortName(Ascii(LayerPath(sha256))) && |Ascii(LayerPath(sha256))| == 74
    ensures Tar.ShortName(Ascii(Hex.Encode(sha256) + ".json")) && |Ascii(Hex.Encode(sha256) + ".json")| == 69
    ensures Tar.ShortName(Ascii(MANIFEST_NAME)) && |Ascii(MANIFEST_NAME)| == 13
  {
    LayerPathShort(sha256);
    ConfigNameShort(sha256);
    SimpleName(Ascii(MANIFEST_NAME));
  }

  lemma ConfigNameShort(sha256: Bytes)
    requires |sha256| == 32
    ensures Tar.ShortName(Ascii(Hex.Encode(sha256) + ".json")) && |Ascii(Hex.Encode(sha256) + ".json")| == 69
  {
    HexPart(sha256);
    AsciiAppend(Hex.Encode(sha256), ".json");
    assert 0 !in Ascii(".json") && SLASH !in Ascii(".json");
    SimpleName(Ascii(Hex.Encode(sha256) + ".json"));
  }

  lemma LayerPathShort(sha256: Bytes)
    requires |sha256| == 32
    ensures Tar.ShortName(Ascii(LayerPath(sha256))) && |Ascii(LayerPath(sha256))| == 74
  {
    var path := [Ascii(Hex.Encode(sha256)), Ascii("layer.tar")];
    HexPart(sha256);
    assert 0 !in Ascii("layer.tar") && SLASH !in Ascii("layer.tar");
    assert |path[0]| == 64 && |path[1]| == 9;
    PlainName(path);
    LayerPathJoins(sha256);
  }

  lemma LayerPathJoins(sha256: Bytes)
    ensures Join([Ascii(Hex.Encode(sha256)), Ascii("layer.tar")]) == Ascii(LayerPath(sha256))
    ensures Ascii(LayerPath(sha256)) == Ascii(Hex.Encode(sha256)) + [SLASH] + Ascii("layer.tar")
  {
    var path := [Ascii(Hex.Encode(sha256)), Ascii("layer.tar")];
    assert path[..1] == [path[0]];
    AsciiAppend(Hex.Encode(sha256), "/layer.tar");
    assert Ascii("/layer.tar") == [SLASH] + Ascii("layer.tar");
  }

  /** The hexadecimal digits of a digest make a plain name component. */
  lemma HexPart(sha256: Bytes)
    requires |sha256| == 32
    ensures |Ascii(Hex.Encode(sha256))| == 64 && 0 !in Ascii(Hex.Encode(sha256)) && SLASH !in Ascii(Hex.Encode(sha256))
  {
    Hex.EncodeIsHex(sha256);
    AsciiHex(Hex.Encode(sha256));
    forall i | 0 <= i < 64 ensures Ascii(Hex.Encode(sha256))[i] !in {0, SLASH} {
      assert HexByte(Ascii(Hex.Encode(sha256))[i]);
    }
  }

  lemma LayerPathInjective(a: Bytes, b: Bytes)
    requires |a| == 32 && |b| == 32 && Ascii(LayerPath(a)) == Ascii(LayerPath(b))
    ensures a == b
  {
    Hex.EncodeIsHex(a);
    Hex.EncodeIsHex(b);
    AsciiAppend(Hex.Encode(a), "/layer.tar");
    AsciiAppend(Hex.Encode(b), "/layer.tar");
    assert Ascii(LayerPath(a))[..64] == Ascii(Hex.Encode(a)) && Ascii(LayerPath(b))[..64] == Ascii(Hex.Encode(b));
    AsciiHexInjective(Hex.Encode(a), Hex.Encode(b));
    Hex.EncodeInjective(a, b);
  }

  // ---- Layers written once ----

  ghost predicate Sized(image: Image) {
    |image.config.sha256| == 32 && |image.layers| == |image.diffIds| && forall i | 0 <= i < |image.diffIds| :: |image.diffIds[i]| == 32
  }

  lemma {:induction false} SeenIs(diffIds: seq<Bytes>, n: nat, d: Bytes)
    requires n <= |diffIds|
    ensures d in Seen(diffIds, n) <==> d in diffIds[..n]
  {
    if n > 0 {
      SeenIs(diffIds, n - 1, d);
      assert diffIds[..n] == diffIds[..n - 1] + [diffIds[n - 1]];
    }
  }

  /** Every layer's path is written, with the blob its DiffID first occurs with. */
  lemma {:induction false} LayerIsWritten(image: Image, store: Store, n: nat, i: nat) returns (j: nat)
    requires i < n <= |image.layers| == |image.diffIds|
    ensures j <= i && image.diffIds[j] == image.diffIds[i] && LayerFile(image, store, j) in LayerFiles(image, store, n)
    decreases n
  {
    if i < n - 1 {
      j := LayerIsWritten(image, store, n - 1, i);
    } else {
      SeenIs(image.diffIds, i, image.diffIds[i]);
      if image.diffIds[i] in Seen(image.diffIds, i) {
        var k :| 0 <= k < i && image.diffIds[..i][k] == image.diffIds[i];
        j := LayerIsWritten(image, store, n - 1, k);
      } else {
        j := i;
        assert LayerFiles(image, store, n)[|LayerFiles(image, store, n)| - 1] == LayerFile(image, store, i);
      }
    }
  }

  /** The layer files are named by DiffIDs seen, each once. */
  lemma {:induction false} LayerFilesNamed(image: Image, store: Store, n: nat)
    requires Sized(image) && n <= |image.layers|
    ensures forall file | file in LayerFiles(image, store, n) :: exists d | d in Seen(image.diffIds, n) :: |d| == 32 && file.name == Ascii(LayerPath(d))
    ensures DistinctFiles(LayerFiles(image, store, n))
  {
    if n > 0 {
      LayerFilesNamed(image, store, n - 1);
      var files, d := LayerFiles(image, store, n - 1), image.diffIds[n - 1];
      if d !in Seen(image.diffIds, n - 1) {
        forall file | file in files ensures file.name != Ascii(LayerPath(d)) {
          var x :| x in Seen(image.diffIds, n - 1) && |x| == 32 && file.name == Ascii(LayerPath(x));
          if file.name == Ascii(LayerPath(d)) { LayerPathInjective(x, d); }
        }
        OneMoreDistinct(files, LayerFile(image, store, n - 1));
        assert d in Seen(image.diffIds, n);
      }
    }
  }

  lemma OneMoreDistinct(files: seq<Tar.File>, file: Tar.File)
    requires DistinctFiles(files) && forall x | x in files :: x.name != file.name
    ensures DistinctFiles(files + [file])
  {
    forall i | 0 <= i < |files| ensures files[i].name != file.name {
      assert files[i] in files;
    }
  }

  ghost predicate Named(file: Tar.File, length: nat) { Tar.ShortName(file.name) && |file.name| == length }

  lemma LayerFilesShort(image: Image, store: Store)
    requires Sized(image)
    ensures forall file | file in LayerFiles(image, store, |image.layers|) :: Named(file, 74)
  {
    LayerFilesNamed(image, store, |image.layers|);
    forall file | file in LayerFiles(image, store, |image.layers|) ensures Named(file, 74) {
      var d :| d in Seen(image.diffIds, |image.layers|) && |d| == 32 && file.name == Ascii(LayerPath(d));
      NamesShort(d);
    }
  }

  /** All members have different names that plain headers can hold. */
  lemma DockerFilesNamed(f: Formats, image: Image, store: Store)
    requires Sized(image)
    ensures DistinctFiles(DockerFiles(f, image, store))
    ensures forall file | file in DockerFiles(f, image, store) :: Tar.ShortName(file.name)
  {
    var head, layers := DockerHead(f, image, store), LayerFiles(image, store, |image.layers|);
    NamesShort(image.config.sha256);
    LayerFilesShort(image, store);
    LayerFilesNamed(image, store, |image.layers|);
    assert Named(head[0], 13) && Named(head[1], 69);
    ApartByLength(head[0], head[1], layers);
    assert [head[0], head[1]] == head;
  }

  lemma ApartByLength(a: Tar.File, b: Tar.File, layers: seq<Tar.File>)
    requires Named(a, 13) && Named(b, 69) && DistinctFiles(layers) && forall file | file in layers :: Named(file, 74)
    ensures DistinctFiles([a, b] + layers)
    ensures forall file | file in [a, b] + layers :: Tar.ShortName(file.name)
  {
    var files := [a, b] + layers;
    forall i, j | 0 <= i < j < |files| ensures files[i].name != files[j].name {
      if i >= 2 {
        assert files[i] == layers[i - 2] && files[j] == layers[j - 2];
      } else if j >= 2 {
        assert files[j] in layers;
      }
    }
  }

  // ---- Reading the archive ----

  /** The archive has a regular member of this name and content. */
  ghost predicate Has(view: Tar.View, data: Bytes, name: Bytes, content: Bytes) {
    exists k | 0 <= k < |view.members| ::
      view.members[k].entry == Entry(name, Regular, None) && Extent(data, (view.members[k].offset, view.members[k].size)) == content
  }

  ghost predicate UniqueNames(view: Tar.View) {
    forall i, j | 0 <= i < j < |view.members| :: view.members[i].entry.name != view.members[j].entry.name
  }

  lemma PackHas(f: Formats, files: seq<Tar.File>, file: Tar.File)
    requires Lawful(f) && (forall x | x in files :: Tar.Writable(x)) && file in files
    ensures f.tar.view(Tar.Pack(f.tar, files)).Some?
    ensures Has(f.tar.view(Tar.Pack(f.tar, files)).value, Tar.Pack(f.tar, files), file.name, file.content)
  {
    Tar.PackReadsBack(f.tar, files);
    var k :| 0 <= k < |files| && files[k] == file;
    Tar.PackContents(f.tar, files, k);
  }

  lemma PackUnique(f: Formats, files: seq<Tar.File>)
    requires Lawful(f) && (forall x | x in files :: Tar.Writable(x)) && DistinctFiles(files)
    ensures f.tar.view(Tar.Pack(f.tar, files)).Some? && UniqueNames(f.tar.view(Tar.Pack(f.tar, files)).value)
  {
    Tar.PackReadsBack(f.tar, files);
    var members := Tar.MembersFrom(files, 0);
    forall k | 0 <= k < |files| ensures members[k].entry.name == files[k].name {
      Tar.PackContents(f.tar, files, k);
    }
  }

  /** What an importer reads in the manifest: the configuration's path and the layers' paths. */
  function Listed(j: Json): Option<(string, seq<string>)> {
    if !j.Array? || |j.items| != 1 || !j.items[0].Object? then None
    else
      var config, layers := AsText(Find(j.items[0].members, "Config")), AsArray(Find(j.items[0].members, "Layers"));
      if config == None || layers == None || Texts(layers.value) == None then None
      else Some((config.value, Texts(layers.value).value))
  }

  lemma {:induction false} TextsRead(items: seq<Json>, texts: seq<string>)
    requires |items| == |texts| && forall i | 0 <= i < |items| :: ToValue(items[i]) == VText(texts[i])
    ensures Texts(items) == Some(texts)
  {
    if items != [] {
      TextsRead(items[1..], texts[1..]);
      assert ToValue(items[0]) == VText(texts[0]);
      assert texts == [texts[0]] + texts[1..];
    }
  }

  /** The emitted manifest lists exactly the configuration's path and one path for each DiffID. */
  lemma ManifestLists(f: Formats, image: Image)
    requires RendersBack(f, DockerManifest(image))
    ensures f.parse(f.render(DockerManifest(image))).Some?
    ensures Listed(f.parse(f.render(DockerManifest(image))).value) == Some((ConfigPath(image), LayerPaths(image)))
  {
    var j := f.parse(f.render(DockerManifest(image))).value;
    assert |j.items| == |ToValue(j).items| == 1 && ToValue(j.items[0]) == ToValue(j).items[0];
    var members := j.items[0].members;
    FindShows(members, "Config");
    FindShows(members, "Layers");
    ListReads(Find(members, "Layers").value, LayerPaths(image));
  }

  lemma ListReads(list: Json, texts: seq<string>)
    requires ToValue(list) == VArray(TextValues(texts))
    ensures list.Array? && Texts(list.items) == Some(texts)
  {
    assert |list.items| == |ToValue(list).items|;
    forall i | 0 <= i < |list.items| ensures ToValue(list.items[i]) == VText(texts[i]) {
      assert ToValue(list.items[i]) == ToValue(list).items[i];
    }
    TextsRead(list.items, texts);
  }

  // ---- The theorem ----

  /** The bytes carry, by the transport of layer `j`, an archive with this DiffID. */
  ghost predicate UnpacksTo(f: Formats, m: Manifest, j: nat, bytes: Bytes, diffId: Bytes)
    requires j < |m.layers|
  {
    exists data: Bytes :: Carries(f, m.layers[j].mediaType, bytes, data) && f.sha256(data) == diffId
  }

  lemma LayerUnpacks(f: Formats, bytes: Bytes, architecture: string, limits: Limits, store: Store, image: Image,
                     m: Manifest, diffIds: seq<Bytes>, layers: seq<Layer>, j: nat)
    requires Parsed(f, bytes, architecture, limits, store, image, m, diffIds, layers) && j < |image.layers|
    ensures |m.layers| == |image.layers| == |image.diffIds|
    ensures store(image.layers[j]).Some? && UnpacksTo(f, m, j, store(image.layers[j]).value, image.diffIds[j])
  {
    AdmittedLayer(f, bytes, architecture, limits, store, image, m, diffIds, layers, j);
  }

  lemma AdmittedSized(f: Formats, bytes: Bytes, architecture: string, limits: Limits, store: Store, image: Image,
                      m: Manifest, diffIds: seq<Bytes>, layers: seq<Layer>)
    requires Lawful(f) && Parsed(f, bytes, architecture, limits, store, image, m, diffIds, layers)
    ensures Sized(image)
  {
    forall i | 0 <= i < |image.diffIds| ensures |image.diffIds[i]| == 32 {
      LayerUnpacks(f, bytes, architecture, limits, store, image, m, diffIds, layers, i);
    }
  }

  /** Layer `i` of the archive: its listed path names a member whose bytes unpack to its DiffID. */
  ghost predicate LayerPreserved(f: Formats, m: Manifest, image: Image, store: Store, view: Tar.View, data: Bytes, i: nat)
    requires i < |image.diffIds| == |image.layers| == |m.layers|
  {
    exists j | 0 <= j <= i ::
      && store(image.layers[j]).Some?
      && Has(view, data, Ascii(LayerPaths(image)[i]), store(image.layers[j]).value)
      && UnpacksTo(f, m, j, store(image.layers[j]).value, image.diffIds[i])
  }

  lemma LayerKept(f: Formats, bytes: Bytes, architecture: string, limits: Limits, store: Store, image: Image,
                  m: Manifest, diffIds: seq<Bytes>, layers: seq<Layer>, i: nat)
    requires Lawful(f) && Parsed(f, bytes, architecture, limits, store, image, m, diffIds, layers)
    requires |image.layers| == |image.diffIds| == |m.layers| && i < |image.layers|
    requires forall x | x in DockerFiles(f, image, store) :: Tar.Writable(x)
    ensures var data := Tar.Pack(f.tar, DockerFiles(f, image, store));
            f.tar.view(data).Some? && LayerPreserved(f, m, image, store, f.tar.view(data).value, data, i)
  {
    var files := DockerFiles(f, image, store);
    var j := LayerIsWritten(image, store, |image.layers|, i);
    LayerUnpacks(f, bytes, architecture, limits, store, image, m, diffIds, layers, j);
    var file := LayerFile(image, store, j);
    assert file in files;
    assert file.name == Ascii(LayerPaths(image)[i]);
    PackHas(f, files, file);
  }

  lemma {:induction false} StoredIntact(f: Formats, image: Image, store: Store, n: nat)
    requires n <= |image.layers| == |image.diffIds| && Intact(f, store, ImageBlobs(image))
    ensures DockerArchive.LayersIntact(f, image, store, n)
  {
    if n > 0 {
      StoredIntact(f, image, store, n - 1);
      assert image.layers[n - 1] in ImageBlobs(image);
    }
  }

  lemma DockerIsWritten(f: Formats, bytes: Bytes, architecture: string, limits: Limits, store: Store, image: Image)
    requires Verified(f, bytes, image.manifestSha256, architecture, limits, store) == Some(image)
    ensures Content(f, store, image.config).Some? && DockerArchive.LayersIntact(f, image, store, |image.layers|)
  {
    VerifiedFacts(f, bytes, image.manifestSha256, architecture, limits, store, image);
    assert image.config in ImageBlobs(image);
    StoredIntact(f, image, store, |image.layers|);
  }

  /** The Docker archive of an admitted image is written; member names are unique, the manifest lists one path for each
      layer, the i-th listed path names a member that unpacks to DiffID i even where layers share a DiffID,
      and the configuration member is byte-identical. */
  lemma ConversionPreservesMeaning(f: Formats, bytes: Bytes, architecture: string, limits: Limits, store: Store, image: Image)
    returns (m: Manifest)
    requires Lawful(f) && RendersBack(f, DockerManifest(image))
    requires Verified(f, bytes, image.manifestSha256, architecture, limits, store) == Some(image)
    requires forall file | file in DockerFiles(f, image, store) :: |file.content| + 511 <= U64_MAX
    ensures ManifestOf(f, bytes, image.manifestSha256, architecture, limits) == Some(m) && |m.layers| == |image.layers|
    ensures Content(f, store, image.config).Some? && DockerArchive.LayersIntact(f, image, store, |image.layers|)
    ensures var data := Tar.Pack(f.tar, DockerFiles(f, image, store));
            var view, list := f.tar.view(data), f.render(DockerManifest(image));
            && view.Some? && UniqueNames(view.value)
            && Has(view.value, data, Ascii("manifest.json"), list)
            && f.parse(list).Some? && Listed(f.parse(list).value) == Some((ConfigPath(image), LayerPaths(image)))
            && Has(view.value, data, Ascii(ConfigPath(image)), Content(f, store, image.config).value)
            && forall i | 0 <= i < |image.diffIds| :: LayerPreserved(f, m, image, store, view.value, data, i)
  {
    var files := DockerFiles(f, image, store);
    var diffIds, layers;
    m, diffIds, layers := VerifiedParts(f, bytes, image.manifestSha256, architecture, limits, store, image);
    AdmittedSized(f, bytes, architecture, limits, store, image, m, diffIds, layers);
    DockerIsWritten(f, bytes, architecture, limits, store, image);
    DockerFilesNamed(f, image, store);
    PackUnique(f, files);
    ManifestLists(f, image);
    var head := DockerHead(f, image, store);
    assert files[0] == head[0] && files[1] == head[1];
    PackHas(f, files, head[0]);
    PackHas(f, files, head[1]);
    forall i | 0 <= i < |image.diffIds|
      ensures LayerPreserved(f, m, image, store, f.tar.view(Tar.Pack(f.tar, files)).value, Tar.Pack(f.tar, files), i)
    {
      LayerKept(f, bytes, architecture, limits, store, image, m, diffIds, layers, i);
    }
  }
}
