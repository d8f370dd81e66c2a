/** A snapshot taken and handed out again as a directory archive is the root filesystem it was taken of. */
module SnapshotBackup {
  import opened Options
  import opened ByteStrings
  import opened Json
  import opened Numbers
  import opened ContainerImage
  import opened OciArchive
  import opened ImageLaws
  import opened ImageFacts
  import opened ImageAdmission
  import opened Snapshot
  import opened SnapshotSound
  import opened DirectoryBackup

  /** The bytes the archive stores for a one-layer image's manifest and layer. */
  ghost function StoredBytes(file: Bytes, members: Members, image: Image): set<Bytes> {
    (if BlobPath(image.manifestSha256) in members then {Extent(file, members[BlobPath(image.manifestSha256)])} else {})
    + (if image.layers != [] && BlobPath(image.layers[0].sha256) in members then {Extent(file, members[BlobPath(image.layers[0].sha256)])} else {})
  }

  /** The generated manifest gives its one layer the OCI gzip type. */
  lemma SnapshotTransport(f: Formats, config: Blob, layer: Blob, manifest: Bytes, m: Manifest)
    requires manifest == f.render(VObject(Snapshot.ManifestFields(config, layer))) && RendersBack(f, VObject(Snapshot.ManifestFields(config, layer)))
    requires config.bytes <= U64_MAX && layer.bytes <= U64_MAX
    requires f.parse(manifest).Some? && DecodeManifest(f.parse(manifest).value) == Some(m)
    ensures |m.layers| == 1 && m.layers[0].mediaType == OCI_TAR_GZIP
  {
    ManifestReads(config, layer, f.parse(manifest).value);
  }

  lemma RestoredManifest(f: Formats, file: Bytes, artifact: Blob, expected: Bytes, architecture: string, limits: Limits, image: Image,
                         members: Members, manifest: Bytes)
    requires Restored(f, file, artifact, expected, architecture, limits) == Some((image, members))
    requires ReadMember(file, members, BlobPath(expected), limits.jsonBytes) == Some(manifest)
    ensures f.sha256(manifest) == expected && image.manifestSha256 == expected
  {
    var same := RestoredParts(f, file, artifact, expected, architecture, limits, image, members);
    VerifiedFacts(f, manifest, expected, architecture, limits, FileStore(file, members), image);
  }

  /** Whatever archive restores to a snapshot's image, the directory handed out of it is the root filesystem the
      snapshot was taken of, byte for byte, and it is handed out exactly if its members form a safe tree. */
  lemma SnapshotHandsBack(f: Formats, limits: Limits, source: Image, configuration: Bytes, inspected: Bytes, again: Bytes, s: Built,
                          file: Bytes, artifact: Blob, architecture: string, restoreLimits: Limits, members: Members)
    requires Lawful(f) && limits.Representable()
    requires Snapshotted(f, source, configuration, inspected, again, limits) == Some(s) && GeneratedReadBack(f, configuration, inspected, s)
    requires Restored(f, file, artifact, s.image.manifestSha256, architecture, restoreLimits) == Some((s.image, members))
    requires CollisionFree(f, {inspected, again, s.layer, s.manifest} + StoredBytes(file, members, s.image))
    ensures Handed(f, file, members, s.image, s.image.manifestSha256, restoreLimits)
         == if SoundArchive(f, inspected, true) then Some(inspected) else None
  {
    SnapshotShape(f, source, configuration, inspected, again, limits, s);
    var expected := s.image.manifestSha256;
    var manifest, m, data := BackupIsOriginal(f, file, artifact, expected, architecture, restoreLimits, s.image, members);
    RestoredManifest(f, file, artifact, expected, architecture, restoreLimits, s.image, members, manifest);
    var relied := {inspected, again, s.layer, s.manifest} + StoredBytes(file, members, s.image);
    assert manifest in relied && s.manifest in relied && manifest == s.manifest;
    SnapshotTransport(f, s.image.config, s.image.layers[0], manifest, m);
    var stored := Extent(file, members[BlobPath(s.image.layers[0].sha256)]);
    assert stored in relied && s.layer in relied && stored == s.layer;
    assert inspected in relied && again in relied && again == inspected;
    assert f.gunzip(f.gzip(again)) == Some(again);
  }
}
