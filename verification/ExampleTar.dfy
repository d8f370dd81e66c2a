/** A header codec that meets the laws asked of the tar library: the name padded with zeros, and the size in
    eight bytes. */
module ExampleTar {
  import opened Options
  import opened ByteStrings
  import opened Numbers
  import opened ArchiveNames
  import opened ArchiveReaders
  import Tar

  function Pow256(k: nat): nat { if k == 0 then 1 else 256 * Pow256(k - 1) }

  /** The `k` lowest bytes of a number, lowest first. */
  function LittleEndian(n: nat, k: nat): (bytes: Bytes)
    ensures |bytes| == k
  {
    if k == 0 then [] else [n % 256] + LittleEndian(n / 256, k - 1)
  }

  function FromLittleEndian(bytes: Bytes): nat {
    if bytes == [] then 0 else bytes[0] + 256 * FromLittleEndian(bytes[1..])
  }

  lemma {:induction false} LittleEndianInverse(n: nat, k: nat)
    requires n < Pow256(k)
    ensures FromLittleEndian(LittleEndian(n, k)) == n
  {
    if k > 0 {
      LittleEndianInverse(n / 256, k - 1);
      assert LittleEndian(n, k)[1..] == LittleEndian(n / 256, k - 1);
    }
  }

  lemma EightBytes()
    ensures Pow256(8) == U64_MAX + 1
  {
    assert Pow256(2) == 0x1_0000;
    assert Pow256(4) == 256 * Pow256(3) == 256 * (256 * Pow256(2));
    assert Pow256(6) == 256 * Pow256(5) == 256 * (256 * Pow256(4));
    assert Pow256(8) == 256 * Pow256(7) == 256 * (256 * Pow256(6));
  }

  /** The bytes before the first zero. */
  function UpToZero(bytes: Bytes): Bytes {
    if bytes == [] || bytes[0] == 0 then [] else [bytes[0]] + UpToZero(bytes[1..])
  }

  lemma {:induction false} UpToZeroInverse(name: Bytes, n: nat)
    requires 0 !in name
    ensures UpToZero(name + Tar.Zeros(n)) == name
  {
    var padded := name + Tar.Zeros(n);
    if name == [] {
      assert padded == Tar.Zeros(n);
    } else {
      UpToZeroInverse(name[1..], n);
      assert padded[0] == name[0] && padded[1..] == name[1..] + Tar.Zeros(n);
    }
  }

  function Header(name: Bytes, size: nat): Bytes {
    (if |name| <= 100 then name + Tar.Zeros(100 - |name|) else name[..100]) + LittleEndian(size, 8) + Tar.Zeros(404)
  }

  function SizeOf(block: Bytes): Option<nat> {
    if |block| == BLOCK then Some(FromLittleEndian(block[100..108])) else None
  }

  function EntryOf(block: Bytes): Option<Entry> {
    if |block| == BLOCK then Some(Entry(UpToZero(block[..100]), Regular, None)) else None
  }

  /** Headers alone, and with the view that reading block by block gives. */
  function Codec(): Tar.Format {
    Tar.Format(Headers(SizeOf, (_: Bytes) => false), EntryOf, Header, (_: Bytes) => None)
  }

  function Format(): Tar.Format {
    Codec().(view := (data: Bytes) => Tar.PlainView(Codec(), data, 0))
  }

  lemma HeaderFields(name: Bytes, size: nat)
    requires |name| <= 100
    ensures var block := Header(name, size);
            |block| == BLOCK && block[..100] == name + Tar.Zeros(100 - |name|) && block[100..108] == LittleEndian(size, 8)
  {
  }

  lemma HeaderLawful(t: Tar.Format, name: Bytes, size: nat)
    requires t.headers == Codec().headers && t.entryOf == Codec().entryOf && t.header == Codec().header
    requires Tar.ShortName(name) && size + 511 <= U64_MAX
    ensures Tar.LawfulHeader(t, name, size)
  {
    var block := Header(name, size);
    HeaderFields(name, size);
    UpToZeroInverse(name, 100 - |name|);
    EightBytes();
    LittleEndianInverse(size, 8);
    assert block[0] == name[0];
  }

  lemma {:induction false} SameView(data: Bytes, at: nat)
    ensures Tar.PlainView(Format(), data, at) == Tar.PlainView(Codec(), data, at)
    decreases |data| - at
  {
    if at + BLOCK <= |data| {
      var payload := PayloadOf(Codec().headers, data[at..at + BLOCK]);
      if payload.Some? { SameView(data, at + BLOCK + payload.value); }
    }
  }

  lemma FormatIsLawful()
    ensures Tar.Lawful(Format())
  {
    forall name, size: nat | Tar.ShortName(name) && size + 511 <= U64_MAX ensures Tar.LawfulHeader(Format(), name, size) {
      HeaderLawful(Format(), name, size);
    }
    forall data | Tar.PlainView(Format(), data, 0).Some? ensures Format().view(data) == Tar.PlainView(Format(), data, 0) {
      SameView(data, 0);
    }
  }
}
