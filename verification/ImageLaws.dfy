/** What the image formats are relied on for. */
module ImageLaws {
  import opened Options
  import opened ByteStrings
  import opened Json
  import opened ContainerImage
  import opened OciArchive
  import Tar

  /** A rendered value reads back as a document that shows it and repeats no key. */
  ghost predicate RendersBack(f: Formats, v: Value) {
    var j := f.parse(f.render(v));
    f.render(v) != [] && j.Some? && Proper(j.value) && ToValue(j.value) == v
  }

  /** The fixed layout document says what it says. */
  ghost predicate LayoutReads(f: Formats) {
    f.parse(Ascii(LAYOUT_TEXT)) == Some(Object([Pair("imageLayoutVersion", Text("1.0.0"))]))
  }

  ghost predicate Lawful(f: Formats) {
    && (forall bytes :: |f.sha256(bytes)| == 32)
    && (forall bytes :: f.gunzip(f.gzip(bytes)) == Some(bytes) && f.gzip(bytes) != [])
    && LayoutReads(f)
    && Tar.Lawful(f.tar)
  }

  /** No two of these byte strings have the same digest. */
  ghost predicate CollisionFree(f: Formats, contents: set<Bytes>) {
    forall a, b | a in contents && b in contents :: f.sha256(a) == f.sha256(b) ==> a == b
  }

  lemma Fewer(f: Formats, small: set<Bytes>, large: set<Bytes>)
    requires small <= large && CollisionFree(f, large)
    ensures CollisionFree(f, small)
  {
  }
}
