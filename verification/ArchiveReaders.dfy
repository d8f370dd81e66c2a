/** The streaming readers that admit image archives: one counts and hashes bytes up to a limit, the
    other follows tar framing to bound the number of headers. Both hand bytes on unchanged. */
module ArchiveReaders {
  import opened Options
  import opened ByteStrings
  import opened Numbers

  const BLOCK: nat := 512
  const MAX_METADATA: nat := 16384

  /** Outcome of one read: some bytes, none of them meaning end of file; or an error. */
  datatype ReadResult = Bytes(bytes: seq<Byte>) | Error

  /** One delivery of the underlying stream: up to a number of bytes, or an I/O error. */
  datatype Delivery = Chunk(size: nat) | Fault

  /** The underlying stream, delivering a fixed content in pieces it chooses. */
  class Source {
    const data: seq<Byte>
    var pos: nat
    var deliveries: seq<Delivery>

    constructor (data: seq<Byte>, deliveries: seq<Delivery>)
      ensures this.data == data && pos == 0 && this.deliveries == deliveries
    {
      this.data, this.deliveries, this.pos := data, deliveries, 0;
    }

    ghost predicate Faultless()
      reads this
    {
      Fault !in deliveries
    }

    method Read(room: nat) returns (r: ReadResult)
      requires pos <= |data|
      modifies this
      ensures old(pos) <= pos <= |data|
      ensures r.Bytes? ==> r.bytes == data[old(pos)..pos] && |r.bytes| <= room
      ensures r.Bytes? && r.bytes == [] ==> room == 0 || pos == |data|
      ensures r.Error? ==> pos == old(pos)
      ensures old(Faultless()) ==> Faultless() && r.Bytes?
    {
      var count := Min(room, |data| - pos);
      if deliveries != [] {
        var delivery := deliveries[0];
        deliveries := deliveries[1..];
        if delivery == Fault { return Error; }
        if 0 < delivery.size < count { count := delivery.size; }
      }
      r := Bytes(data[pos..pos + count]);
      pos := pos + count;
    }
  }

  /** Counts and hashes everything that passes; one byte past the limit is an error. The hash state is
      the sequence of bytes it was updated with. */
  class CheckedReader {
    const inner: Source
    const limit: nat
    var count: nat
    var hashed: seq<Byte>

    constructor (inner: Source, limit: nat)
      requires inner.pos == 0 && limit <= U64_MAX
      ensures this.inner == inner && this.limit == limit && count == 0 && hashed == []
      ensures Valid()
    {
      this.inner, this.limit, this.count, this.hashed := inner, limit, 0, [];
    }

    /** True until the first error. */
    ghost predicate Valid()
      reads this, inner
    {
      && count <= limit <= U64_MAX
      && inner.pos == count <= |inner.data|
      && hashed == inner.data[..count]
    }

    method Read(room: nat) returns (r: ReadResult)
      requires Valid()
      modifies this, inner
      ensures r.Bytes? ==> Valid() && old(count) <= count && r.bytes == inner.data[old(count)..count] && |r.bytes| <= room
      ensures r.Bytes? && r.bytes == [] ==> room == 0 || count == |inner.data|
      ensures r.Error? ==> inner.pos <= limit + 1 && count == old(count)
      ensures old(inner.Faultless()) ==> inner.Faultless() && (r.Error? ==> |inner.data| > limit)
    {
      var allowed := Min(Min(limit - count + 1, U64_MAX), room);
      r := inner.Read(allowed);
      if r.Error? { return; }
      if count + |r.bytes| > U64_MAX || count + |r.bytes| > limit { return Error; }
      count := count + |r.bytes|;
      hashed := hashed + r.bytes;
    }
  }

  lemma SliceOfSlice(data: seq<Byte>, a: nat, b: nat, i: nat, j: nat)
    requires a <= b <= |data| && i <= j <= b - a
    ensures data[a..b][i..j] == data[a + i..a + j]
  {
    forall k | 0 <= k < j - i ensures data[a..b][i..j][k] == data[a + i..a + j][k] {
      assert data[a..b][i + k] == data[a + i + k];
    }
  }

  lemma Joined(data: seq<Byte>, a: nat, b: nat, c: nat)
    requires a <= b <= c <= |data|
    ensures data[a..b] + data[b..c] == data[a..c]
  {
  }

  /** Read a stream to its end through a limit: all of its content, or nothing if it is longer. */
  method ReadToEnd(source: Source, limit: nat, rooms: seq<nat>) returns (r: Option<seq<Byte>>)
    requires source.pos == 0 && limit <= U64_MAX
    modifies source
    ensures source.pos <= limit + 1
    ensures r.Some? ==> r.value == source.data && |source.data| <= limit
    ensures old(source.Faultless()) ==> (r.Some? <==> |source.data| <= limit)
  {
    var checked := new CheckedReader(source, limit);
    var out, left := [], rooms;
    while true
      invariant fresh(checked) && checked.inner == source && checked.limit == limit
      invariant checked.Valid() && checked.count == |out| && out == source.data[..|out|]
      invariant old(source.Faultless()) ==> source.Faultless()
      decreases |source.data| - |out|, |left|
    {
      var room := if left != [] && 0 < left[0] < 8192 then left[0] else 8192;
      left := if left != [] then left[1..] else [];
      var chunk := checked.Read(room);
      if chunk.Error? { return None; }
      if chunk.bytes == [] { break; }
      out := out + chunk.bytes;
    }
    return Some(out);
  }

  // ---- Tar framing ----

  /** The two questions asked of a raw header block: its entry size, if it has a readable one, and
      whether it is a long-name or PAX extension. */
  datatype Headers = Headers(sizeOf: seq<Byte> -> Option<nat>, isExtension: seq<Byte> -> bool)

  predicate IsZero(block: seq<Byte>) {
    forall i | 0 <= i < |block| :: block[i] == 0
  }

  function Padded(size: nat): nat { (size + 511) / 512 * 512 }

  /** The payload a header block announces, padded; none when the block is not acceptable. */
  function PayloadOf(h: Headers, block: seq<Byte>): Option<nat> {
    match h.sizeOf(block)
    case None => None
    case Some(size) =>
      if h.isExtension(block) && size > MAX_METADATA then None
      else if size + 511 > U64_MAX then None
      else Some(Padded(size))
  }

  /** A header announces a payload exactly if its size is readable, does not overflow when rounded up, and is at
      most 16384 for an extension; the payload is then the size rounded up to whole blocks. */
  lemma PayloadExactly(h: Headers, block: seq<Byte>, payload: nat)
    ensures PayloadOf(h, block) == Some(payload) <==>
              && h.sizeOf(block).Some?
              && var size := h.sizeOf(block).value;
                 && (h.isExtension(block) ==> size <= 16384)
                 && size + 511 <= U64_MAX
                 && payload % 512 == 0 && size <= payload < size + 512
  {
  }

  /** How many entry headers a complete archive holds, following its framing from one block boundary;
      none when a header is cut off or unacceptable. */
  function HeaderTotal(h: Headers, data: seq<Byte>, at: nat): Option<nat>
    decreases |data| - at
  {
    if at >= |data| then Some(0)
    else if at + BLOCK > |data| then None
    else
      var block := data[at..at + BLOCK];
      if IsZero(block) then HeaderTotal(h, data, at + BLOCK)
      else
        match PayloadOf(h, block)
        case None => None
        case Some(payload) =>
          match HeaderTotal(h, data, at + BLOCK + payload)
          case None => None
          case Some(n) => Some(n + 1)
  }

  /** What is left of the budget, less the headers from here on, is the budget less all headers. */
  ghost predicate Balanced(h: Headers, data: seq<Byte>, at: nat, left: nat, budget: nat) {
    var rest, all := HeaderTotal(h, data, at), HeaderTotal(h, data, 0);
    && left <= budget
    && (rest.Some? <==> all.Some?)
    && (rest.Some? ==> budget - left + rest.value == all.value)
  }

  /** A zero block costs nothing. */
  lemma BalancedZero(h: Headers, data: seq<Byte>, at: nat, left: nat, budget: nat)
    requires at + BLOCK <= |data| && Balanced(h, data, at, left, budget)
    requires IsZero(data[at..at + BLOCK])
    ensures Balanced(h, data, at + BLOCK, left, budget)
  {
  }

  /** A header with an acceptable payload costs one. */
  lemma BalancedHeader(h: Headers, data: seq<Byte>, at: nat, left: nat, budget: nat, payload: nat)
    requires at + BLOCK <= |data| && Balanced(h, data, at, left, budget) && left > 0
    requires !IsZero(data[at..at + BLOCK]) && PayloadOf(h, data[at..at + BLOCK]) == Some(payload)
    ensures Balanced(h, data, at + BLOCK + payload, left - 1, budget)
  {
  }

  /** A header block that is cut off, unacceptable or one too many means the archive is refused. */
  lemma BalancedRefuses(h: Headers, data: seq<Byte>, at: nat, left: nat, budget: nat, limit: nat)
    requires Balanced(h, data, at, left, budget) && at < |data|
    requires
      || at + BLOCK > |data|
      || (!IsZero(data[at..at + BLOCK]) && (left == 0 || PayloadOf(h, data[at..at + BLOCK]) == None))
    ensures Refused(data, limit, h, budget)
  {
  }

  /** At the end of the data the whole budget is accounted for. */
  lemma BalancedAtEnd(h: Headers, data: seq<Byte>, at: nat, left: nat, budget: nat, limit: nat)
    requires Balanced(h, data, at, left, budget) && at >= |data| && |data| <= limit
    ensures HeaderTotal(h, data, 0).Some? && left + HeaderTotal(h, data, 0).value == budget
    ensures !Refused(data, limit, h, budget)
  {
  }

  /** Follows the framing: passes payloads through and reads each header block whole before handing it
      on, spending one unit of `headersLeft` on every header that is not all zeros. */
  class ArchiveReader {
    const inner: CheckedReader
    const headers: Headers
    const budget: nat
    var header: array<Byte>
    var position: nat
    var payloadLeft: nat
    var headersLeft: nat

    constructor (inner: CheckedReader, headers: Headers, headersLeft: nat)
      requires inner.Valid() && inner.count == 0
      ensures this.inner == inner && this.headers == headers && budget == headersLeft && this.headersLeft == headersLeft
      ensures Valid() && Delivered() == 0 && fresh(header)
    {
      this.inner, this.headers, this.budget := inner, headers, headersLeft;
      this.headersLeft, this.position, this.payloadLeft := headersLeft, 512, 0;
      this.header := new Byte[512](_ => 0);
    }

    ghost function Data(): seq<Byte>
    {
      inner.inner.data
    }

    /** Bytes handed on so far: all that were read, less the part of the header block still held back. */
    ghost function Delivered(): int
      reads this, inner
    {
      inner.count - (512 - position)
    }

    ghost predicate Valid()
      reads this, inner, inner.inner, header
    {
      && inner.Valid()
      && header.Length == 512 && position <= 512
      && (position < 512 ==> inner.count >= 512 && header[..] == Data()[inner.count - 512..inner.count])
      && Balanced(headers, Data(), inner.count + payloadLeft, headersLeft, budget)
    }

    /** Fill the header block completely, or find end of file before its first byte. */
    method FillHeader() returns (r: Option<bool>)
      requires inner.Valid() && header.Length == 512
      modifies inner, inner.inner, header
      ensures r == Some(true) ==>
                && inner.Valid() && inner.count == old(inner.count) + 512
                && header[..] == Data()[old(inner.count)..inner.count]
      ensures r == Some(false) ==> inner.Valid() && inner.count == old(inner.count) == |Data()|
      ensures r == None ==> inner.inner.pos <= inner.limit + 1
      ensures old(inner.inner.Faultless()) ==>
                && inner.inner.Faultless()
                && (r == None ==> |Data()| > inner.limit || old(inner.count) < |Data()| < old(inner.count) + 512)
    {
      var read := 0;
      ghost var start := inner.count;
      while read < 512
        invariant 0 <= read <= 512 && inner.Valid() && inner.count == start + read
        invariant header[..read] == Data()[start..start + read]
        invariant old(inner.inner.Faultless()) ==> inner.inner.Faultless()
      {
        var chunk := inner.Read(512 - read);
        if chunk.Error? { return None; }
        if |chunk.bytes| == 0 {
          return if read == 0 then Some(false) else None;
        }
        Joined(Data(), start, start + read, inner.count);
        Overwrite(header, read, chunk.bytes);
        read := read + |chunk.bytes|;
      }
      assert header[..] == header[..512];
      return Some(true);
    }

    /** Load the next header block and learn its payload; false at the end of the stream. */
    method NextHeader() returns (r: Option<bool>)
      requires Valid() && position == 512 && payloadLeft == 0
      modifies `position, `payloadLeft, `headersLeft, header, inner, inner.inner
      ensures r == Some(true) ==> Valid() && position == 0 && inner.count == old(inner.count) + 512
      ensures r == Some(false) ==> Valid() && position == 512 && inner.count == old(inner.count) == |Data()|
      ensures r == None ==> inner.inner.pos <= inner.limit + 1
      ensures old(inner.inner.Faultless()) ==>
                inner.inner.Faultless() && (r == None ==> Refused(Data(), inner.limit, headers, budget))
    {
      ghost var at, left := inner.count, headersLeft;
      r := FillHeader();
      if r == None {
        if old(inner.inner.Faultless()) && |Data()| <= inner.limit {
          BalancedRefuses(headers, Data(), at, left, budget, inner.limit);
        }
        return;
      }
      if !r.value { return; }
      if IsZero(header[..]) {
        BalancedZero(headers, Data(), at, left, budget);
      } else {
        if headersLeft == 0 {
          BalancedRefuses(headers, Data(), at, left, budget, inner.limit);
          return None;
        }
        headersLeft := headersLeft - 1;
        var payload := PayloadOf(headers, header[..]);
        if payload == None {
          BalancedRefuses(headers, Data(), at, left, budget, inner.limit);
          return None;
        }
        payloadLeft := payload.value;
        BalancedHeader(headers, Data(), at, left, budget, payloadLeft);
      }
      position := 0;
    }

    /** Hand on the next part of the header block held back. */
    method HandOn(room: nat) returns (r: ReadResult)
      requires Valid() && position < 512 && room > 0
      modifies `position
      ensures Valid() && r.Bytes? && 0 < |r.bytes| <= room && Delivered() == old(Delivered()) + |r.bytes|
      ensures 0 <= old(Delivered()) <= Delivered() <= |Data()|
      ensures r.bytes == Data()[old(Delivered())..Delivered()]
    {
      var count := Min(512 - position, room);
      r := Bytes(header[position..position + count]);
      assert r.bytes == header[..][position..position + count];
      SliceOfSlice(Data(), inner.count - 512, inner.count, position, position + count);
      position := position + count;
    }

    method Read(room: nat) returns (r: ReadResult)
      requires Valid()
      modifies this, header, inner, inner.inner
      ensures header == old(header)
      ensures r.Bytes? ==> && Valid() && 0 <= old(Delivered()) <= Delivered() <= |Data()|
                           && r.bytes == Data()[old(Delivered())..Delivered()] && |r.bytes| <= room
      ensures r.Bytes? && r.bytes == [] && room > 0 ==> Delivered() == inner.count == |Data()|
      ensures r.Error? ==> inner.inner.pos <= inner.limit + 1
      ensures old(inner.inner.Faultless()) ==>
                inner.inner.Faultless() && (r.Error? ==> Refused(Data(), inner.limit, headers, budget))
    {
      if room == 0 { return Bytes([]); }
      if position == 512 && payloadLeft != 0 {
        r := inner.Read(Min(payloadLeft, room));
        if r.Bytes? { payloadLeft := payloadLeft - |r.bytes|; }
        return;
      }
      if position == 512 {
        var more := NextHeader();
        if more == None { return Error; }
        if !more.value { return Bytes([]); }
      }
      r := HandOn(room);
    }
  }

  /** Why a faultless stream may be refused: too long, malformed framing, or too many headers. */
  ghost predicate Refused(data: seq<Byte>, limit: nat, headers: Headers, budget: nat) {
    || |data| > limit
    || HeaderTotal(headers, data, 0) == None
    || HeaderTotal(headers, data, 0).value > budget
  }

  method Overwrite(a: array<Byte>, at: nat, bytes: seq<Byte>)
    requires at + |bytes| <= a.Length
    modifies a
    ensures a[..at] == old(a[..at]) && a[at..at + |bytes|] == bytes
    ensures a[..at + |bytes|] == old(a[..at]) + bytes
  {
    for i := 0 to |bytes|
      invariant a[..at] == old(a[..at]) && a[at..at + i] == bytes[..i]
    {
      a[at + i] := bytes[i];
    }
  }

  /** Everything inspecting an archive needs to know about its bytes. */
  datatype Inspection = Inspected(bytes: seq<Byte>, headersLeft: nat) | Rejected

  /** Read to the end, with whatever buffer sizes the consumer uses. */
  method Drain(reader: ArchiveReader, rooms: seq<nat>) returns (ok: bool)
    requires reader.Valid() && reader.Delivered() == 0
    modifies reader, reader.header, reader.inner, reader.inner.inner
    ensures reader.inner.inner.pos <= reader.inner.limit + 1
    ensures ok ==> reader.Valid() && reader.inner.count == |reader.Data()|
    ensures old(reader.inner.inner.Faultless()) && !ok ==> Refused(reader.Data(), reader.inner.limit, reader.headers, reader.budget)
  {
    var left := rooms;
    while true
      invariant reader.header == old(reader.header)
      invariant reader.Valid() && 0 <= reader.Delivered() <= |reader.Data()|
      invariant old(reader.inner.inner.Faultless()) ==> reader.inner.inner.Faultless()
      decreases |reader.Data()| - reader.Delivered()
    {
      var room := if left != [] && 0 < left[0] < 8192 then left[0] else 8192;
      left := if left != [] then left[1..] else [];
      var chunk := reader.Read(room);
      if chunk.Error? { return false; }
      if chunk.bytes == [] { return true; }
    }
  }

  /** Read an archive to its end through both readers. Acceptance, the bytes hashed and the headers left
      are those of the content as a whole, whatever the chunking; and at most one byte past the limit is
      ever pulled. */
  method InspectStream(source: Source, limit: nat, budget: nat, headers: Headers, rooms: seq<nat>)
    returns (r: Inspection)
    requires source.pos == 0 && limit <= U64_MAX
    modifies source
    ensures source.pos <= limit + 1
    ensures r.Inspected? ==>
              && |source.data| <= limit && r.bytes == source.data && source.pos == |source.data|
              && HeaderTotal(headers, source.data, 0).Some?
              && r.headersLeft + HeaderTotal(headers, source.data, 0).value == budget
    ensures old(source.Faultless()) ==> (r.Rejected? <==> Refused(source.data, limit, headers, budget))
  {
    var checked := new CheckedReader(source, limit);
    var reader := new ArchiveReader(checked, headers, budget);
    var ok := Drain(reader, rooms);
    if !ok { return Rejected; }
    BalancedAtEnd(headers, source.data, checked.count + reader.payloadLeft, reader.headersLeft, budget, limit);
    return Inspected(checked.hashed, reader.headersLeft);
  }
}
