/** Tar framing: archives of plain regular files as they are written, and what reading them back gives. */
module Tar {
  import opened Options
  import opened ByteStrings
  import opened ArchiveNames
  import opened ArchiveReaders
  import opened Numbers

  /** A member and where its content lies in the archive. */
  datatype Member = Member(entry: Entry, offset: nat, size: nat)

  /** What the tar reader reports: the members, and where it stopped. */
  datatype View = View(members: seq<Member>, end: nat)

  /** The tar library: what it reads in a header block and in a whole archive, with extension headers
      resolved, and the header it writes for a regular file. */
  datatype Format = Format(headers: Headers, entryOf: Bytes -> Option<Entry>, header: (Bytes, nat) -> Bytes, view: Bytes -> Option<View>)

  /** Members of an archive without extension headers, block by block. */
  function PlainView(t: Format, data: Bytes, at: nat): Option<View>
    decreases |data| - at
  {
    if at == |data| then Some(View([], at))
    else if at + BLOCK > |data| then None
    else
      var block := data[at..at + BLOCK];
      if IsZero(block) then Some(View([], at + BLOCK))
      else if t.headers.isExtension(block) || t.entryOf(block) == None then None
      else
        match PayloadOf(t.headers, block)
        case None => None
        case Some(payload) =>
          match PlainView(t, data, at + BLOCK + payload)
          case None => None
          case Some(rest) =>
            Some(rest.(members := [Member(t.entryOf(block).value, at + BLOCK, t.headers.sizeOf(block).value)] + rest.members))
  }

  /** Names a plain header holds as they are: short, valid, and in normal form. */
  predicate ShortName(name: Bytes) { |name| <= 100 && ValidPath(name) && Join(Parts(name)) == name }

  ghost predicate LawfulHeader(t: Format, name: Bytes, size: nat) {
    var block := t.header(name, size);
    && |block| == BLOCK
    && !IsZero(block)
    && t.headers.sizeOf(block) == Some(size)
    && !t.headers.isExtension(block)
    && t.entryOf(block) == Some(Entry(name, Regular, None))
  }

  /** Headers read back as written, and a plain archive is read block by block. */
  ghost predicate Lawful(t: Format) {
    && (forall name, size: nat | ShortName(name) && size + 511 <= U64_MAX :: LawfulHeader(t, name, size))
    && (forall data | PlainView(t, data, 0).Some? :: t.view(data) == PlainView(t, data, 0))
  }

  // ---- Writing ----

  datatype File = File(name: Bytes, content: Bytes)

  function Zeros(n: nat): Bytes { seq(n, _ => 0) }

  function Framed(t: Format, file: File): Bytes {
    t.header(file.name, |file.content|) + file.content + Zeros(Padded(|file.content|) - |file.content|)
  }

  function Body(t: Format, files: seq<File>): Bytes {
    if files == [] then [] else Framed(t, files[0]) + Body(t, files[1..])
  }

  /** The finished archive: every file framed, and two zero blocks. */
  function Pack(t: Format, files: seq<File>): Bytes { Body(t, files) + Zeros(1024) }

  function FramedSize(files: seq<File>): nat {
    if files == [] then 0 else BLOCK + Padded(|files[0].content|) + FramedSize(files[1..])
  }

  predicate Writable(file: File) { ShortName(file.name) && |file.content| + 511 <= U64_MAX }

  /** The members of a packed archive, its first header at a given offset. */
  function MembersFrom(files: seq<File>, at: nat): (members: seq<Member>)
    ensures |members| == |files|
  {
    if files == [] then []
    else
      [Member(Entry(files[0].name, Regular, None), at + BLOCK, |files[0].content|)]
      + MembersFrom(files[1..], at + BLOCK + Padded(|files[0].content|))
  }

  lemma PaddedBounds(n: nat)
    ensures n <= Padded(n) <= n + 511
  {
  }

  lemma FramedLength(t: Format, file: File)
    requires Lawful(t) && Writable(file)
    ensures |Framed(t, file)| == BLOCK + Padded(|file.content|)
    ensures Framed(t, file)[..BLOCK] == t.header(file.name, |file.content|)
    ensures Framed(t, file)[BLOCK..BLOCK + |file.content|] == file.content
  {
    assert LawfulHeader(t, file.name, |file.content|);
  }

  lemma {:induction false} BodyLength(t: Format, files: seq<File>)
    requires Lawful(t) && forall file | file in files :: Writable(file)
    ensures |Body(t, files)| == FramedSize(files)
  {
    if files != [] {
      FramedLength(t, files[0]);
      BodyLength(t, files[1..]);
    }
  }

  /** At a header of a packed archive: the header block, the content behind it, and the rest. */
  lemma AtFile(t: Format, files: seq<File>, data: Bytes, at: nat)
    requires Lawful(t) && files != [] && Writable(files[0])
    requires at <= |data| && data[at..] == Pack(t, files)
    ensures var next := at + BLOCK + Padded(|files[0].content|);
            && next <= |data|
            && data[at..at + BLOCK] == t.header(files[0].name, |files[0].content|)
            && data[at + BLOCK..at + BLOCK + |files[0].content|] == files[0].content
            && data[next..] == Pack(t, files[1..])
  {
    var framed, rest := Framed(t, files[0]), Pack(t, files[1..]);
    FramedLength(t, files[0]);
    assert data[at..] == framed + rest;
    Splice(data, at, framed, rest);
    Slice(data, at, framed, rest, 0, BLOCK);
    Slice(data, at, framed, rest, BLOCK, BLOCK + |files[0].content|);
  }

  lemma Splice(data: Bytes, at: nat, a: Bytes, b: Bytes)
    requires at <= |data| && data[at..] == a + b
    ensures at + |a| <= |data| && data[at + |a|..] == b
  {
    assert data[at + |a|..] == data[at..][|a|..];
  }

  lemma Slice(data: Bytes, at: nat, a: Bytes, b: Bytes, i: nat, j: nat)
    requires at <= |data| && data[at..] == a + b && i <= j <= |a|
    ensures at + j <= |data| && data[at + i..at + j] == a[i..j]
  {
    forall k | 0 <= k < j - i ensures data[at + i..at + j][k] == a[i..j][k] {
      assert data[at + i + k] == data[at..][i + k] == (a + b)[i + k];
    }
  }

  /** Two zero blocks end the archive. */
  lemma AtEnd(t: Format, data: Bytes, at: nat)
    requires at <= |data| && data[at..] == Pack(t, [])
    ensures PlainView(t, data, at) == Some(View([], at + BLOCK))
    ensures HeaderTotal(t.headers, data, at) == Some(0)
    ensures IsZero(data[at + BLOCK..])
  {
    var tail := data[at..];
    assert tail == Zeros(1024) && |data| == at + 1024;
    assert data[at..at + BLOCK] == tail[..BLOCK];
    assert data[at + BLOCK..at + 2 * BLOCK] == tail[BLOCK..2 * BLOCK];
    assert data[at + BLOCK..] == tail[BLOCK..];
    assert IsZero(data[at..at + BLOCK]) && IsZero(data[at + BLOCK..at + 2 * BLOCK]);
    assert HeaderTotal(t.headers, data, at + 2 * BLOCK) == Some(0);
    assert HeaderTotal(t.headers, data, at + BLOCK) == Some(0);
  }

  lemma ViewStep(t: Format, data: Bytes, at: nat, name: Bytes, size: nat, rest: View)
    requires at + BLOCK + Padded(size) <= |data| && data[at..at + BLOCK] == t.header(name, size)
    requires LawfulHeader(t, name, size) && size + 511 <= U64_MAX
    requires PlainView(t, data, at + BLOCK + Padded(size)) == Some(rest)
    ensures PlainView(t, data, at) == Some(View([Member(Entry(name, Regular, None), at + BLOCK, size)] + rest.members, rest.end))
  {
  }

  /** Reading back what was packed gives the files in order, and stops at the end marker. */
  lemma {:induction false} ReadsBack(t: Format, files: seq<File>, data: Bytes, at: nat)
    requires Lawful(t) && (forall file | file in files :: Writable(file))
    requires at <= |data| && data[at..] == Pack(t, files)
    ensures PlainView(t, data, at) == Some(View(MembersFrom(files, at), at + FramedSize(files) + BLOCK))
    decreases |files|
  {
    if files == [] {
      AtEnd(t, data, at);
    } else {
      AtFile(t, files, data, at);
      ReadsBack(t, files[1..], data, at + BLOCK + Padded(|files[0].content|));
      ReadsBackStep(t, files, data, at);
    }
  }

  lemma ReadsBackStep(t: Format, files: seq<File>, data: Bytes, at: nat)
    requires Lawful(t) && files != [] && Writable(files[0])
    requires var next := at + BLOCK + Padded(|files[0].content|);
             && next <= |data| && data[at..at + BLOCK] == t.header(files[0].name, |files[0].content|)
             && PlainView(t, data, next) == Some(View(MembersFrom(files[1..], next), next + FramedSize(files[1..]) + BLOCK))
    ensures PlainView(t, data, at) == Some(View(MembersFrom(files, at), at + FramedSize(files) + BLOCK))
  {
    var name, size := files[0].name, |files[0].content|;
    var next := at + BLOCK + Padded(size);
    assert LawfulHeader(t, name, size);
    ViewStep(t, data, at, name, size, View(MembersFrom(files[1..], next), next + FramedSize(files[1..]) + BLOCK));
  }

  lemma {:induction false} EndsInZeros(t: Format, files: seq<File>, data: Bytes, at: nat)
    requires Lawful(t) && (forall file | file in files :: Writable(file))
    requires at <= |data| && data[at..] == Pack(t, files)
    ensures at + FramedSize(files) + BLOCK <= |data| && IsZero(data[at + FramedSize(files) + BLOCK..])
    decreases |files|
  {
    if files == [] {
      AtEnd(t, data, at);
    } else {
      AtFile(t, files, data, at);
      EndsInZeros(t, files[1..], data, at + BLOCK + Padded(|files[0].content|));
    }
  }

  /** A packed archive holds one header for each file. */
  lemma {:induction false} CountsHeaders(t: Format, files: seq<File>, data: Bytes, at: nat)
    requires Lawful(t) && (forall file | file in files :: Writable(file))
    requires at <= |data| && data[at..] == Pack(t, files)
    ensures HeaderTotal(t.headers, data, at) == Some(|files|)
    decreases |files|
  {
    if files == [] {
      AtEnd(t, data, at);
    } else {
      AtFile(t, files, data, at);
      CountsHeaders(t, files[1..], data, at + BLOCK + Padded(|files[0].content|));
      assert LawfulHeader(t, files[0].name, |files[0].content|);
    }
  }

  lemma {:induction false} ContentsAt(t: Format, files: seq<File>, data: Bytes, at: nat, i: nat)
    requires Lawful(t) && (forall file | file in files :: Writable(file)) && i < |files|
    requires at <= |data| && data[at..] == Pack(t, files)
    ensures var m := MembersFrom(files, at)[i];
            && m.entry == Entry(files[i].name, Regular, None) && m.size == |files[i].content|
            && m.offset + m.size <= |data| && data[m.offset..m.offset + m.size] == files[i].content
    decreases |files|
  {
    AtFile(t, files, data, at);
    if i > 0 {
      ContentsAt(t, files[1..], data, at + BLOCK + Padded(|files[0].content|), i - 1);
    } else {
      PaddedBounds(|files[0].content|);
    }
  }

  /** A packed archive as a whole. */
  lemma PackReadsBack(t: Format, files: seq<File>)
    requires Lawful(t) && (forall file | file in files :: Writable(file))
    ensures |Pack(t, files)| == FramedSize(files) + 1024
    ensures t.view(Pack(t, files)) == Some(View(MembersFrom(files, 0), FramedSize(files) + BLOCK))
    ensures HeaderTotal(t.headers, Pack(t, files), 0) == Some(|files|)
    ensures FramedSize(files) + BLOCK <= |Pack(t, files)| && IsZero(Pack(t, files)[FramedSize(files) + BLOCK..])
  {
    var data := Pack(t, files);
    assert data[0..] == data;
    BodyLength(t, files);
    ReadsBack(t, files, data, 0);
    CountsHeaders(t, files, data, 0);
    EndsInZeros(t, files, data, 0);
  }

  lemma PackContents(t: Format, files: seq<File>, i: nat)
    requires Lawful(t) && (forall file | file in files :: Writable(file)) && i < |files|
    ensures var m, data := MembersFrom(files, 0)[i], Pack(t, files);
            && m.entry == Entry(files[i].name, Regular, None) && m.size == |files[i].content|
            && m.offset + m.size <= |data| && data[m.offset..m.offset + m.size] == files[i].content
  {
    assert Pack(t, files)[0..] == Pack(t, files);
    ContentsAt(t, files, Pack(t, files), 0, i);
  }
}
