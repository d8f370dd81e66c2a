/** Length-prefixed frames over a byte stream that may be chunked, cut short or end in an error. */
module ExecFraming {
  import opened Options
  import opened ExecProtocol
  import opened ByteStrings
  import opened Numbers
  import opened Sequences

  // ---- JSON text of a response ----

  function Digits(n: nat): seq<Byte> { Ascii(Decimal(n)) }

  function Field(present: bool, key: string, value: seq<Byte>): seq<Byte> {
    if present then Ascii(",\"") + Ascii(key) + Ascii("\":") + value else []
  }

  function Quoted(text: string): seq<Byte> { Ascii("\"") + Ascii(text) + Ascii("\"") }

  function TextField(key: string, text: string): seq<Byte> { Field(text != "", key, Quoted(text)) }
  function NumberField(key: string, n: nat): seq<Byte> { Field(n != 0, key, Digits(n)) }
  function ExitField(code: Option<int>): seq<Byte>
    requires code.Some? ==> code.value >= 0
  {
    if code.Some? then Field(true, "exitCode", Digits(code.value)) else []
  }
  function Opening(ok: bool): seq<Byte> { Ascii("{\"ok\":") + Ascii(if ok then "true" else "false") }

  /** The compact encoding of a response whose numbers are not negative: empty fields are left out. */
  function EncodeJson(r: Response): seq<Byte>
    requires Encodable(r)
  {
    Opening(r.ok) + TextField("code", r.code) + TextField("state", r.state)
    + NumberField("pid", r.pid) + NumberField("startTicks", r.startTicks) + ExitField(r.exitCode) + Ascii("}")
  }

  /** Short printable words need no escaping. */
  predicate Plain(text: string) {
    |text| <= 24 && forall i | 0 <= i < |text| :: ' ' <= text[i] <= '~' && text[i] != '\\' && text[i] != '"'
  }

  predicate Encodable(r: Response) {
    && Plain(r.code) && Plain(r.state)
    && 0 <= r.pid < 0x8000_0000_0000_0000 && r.startTicks < 0x1_0000_0000_0000_0000
    && (r.exitCode.Some? ==> 0 <= r.exitCode.value <= 255)
  }

  ghost predicate NoNul(bytes: seq<Byte>) {
    forall i | 0 <= i < |bytes| :: bytes[i] != 0
  }

  lemma {:induction false} DecimalDigits(n: nat)
    ensures NoNul(Digits(n))
  {
    if n >= 10 {
      DecimalDigits(n / 10);
      assert Digits(n) == Digits(n / 10) + [DigitChar(n % 10) as int];
    }
  }

  lemma {:induction false} DecimalLength(n: nat, digits: nat)
    requires digits > 0 && n < Pow10(digits)
    ensures |Decimal(n)| <= digits
  {
    if digits > 1 && n >= 10 { DecimalLength(n / 10, digits - 1); }
  }

  function Pow10(n: nat): nat {
    if n == 0 then 1 else 10 * Pow10(n - 1)
  }

  lemma {:induction false} Pow10Sum(m: nat, n: nat)
    ensures Pow10(m + n) == Pow10(m) * Pow10(n)
  {
    if m > 0 { Pow10Sum(m - 1, n); }
  }

  lemma Uint64Length(n: nat)
    requires n < 0x1_0000_0000_0000_0000
    ensures |Decimal(n)| <= 20
  {
    assert Pow10(5) == 100_000;
    Pow10Sum(5, 5);
    Pow10Sum(10, 10);
    DecimalLength(n, 20);
  }

  lemma PlainText(text: string)
    requires forall i | 0 <= i < |text| :: ' ' <= text[i] <= '~'
    ensures |Ascii(text)| == |text| && NoNul(Ascii(text))
  {
  }

  lemma FieldShape(present: bool, key: string, value: seq<Byte>)
    requires forall i | 0 <= i < |key| :: ' ' <= key[i] <= '~'
    requires NoNul(value)
    ensures NoNul(Field(present, key, value)) && |Field(present, key, value)| <= 4 + |key| + |value|
  {
    PlainText(key);
    PlainText(",\"");
    PlainText("\":");
  }

  lemma QuotedShape(text: string)
    requires Plain(text)
    ensures NoNul(Quoted(text)) && |Quoted(text)| <= 26
  {
    PlainText(text);
    PlainText("\"");
  }

  /** A response is encoded in fewer than 256 bytes, none of them NUL. */
  lemma EncodingShape(r: Response)
    requires Encodable(r)
    ensures 1 <= |EncodeJson(r)| <= 255 && NoNul(EncodeJson(r))
  {
    OpeningShape(r.ok);
    TextFieldShape("code", r.code);
    TextFieldShape("state", r.state);
    NumberShape(r.pid != 0, "pid", r.pid);
    NumberShape(r.startTicks != 0, "startTicks", r.startTicks);
    ExitShape(r.exitCode);
    PartsShape(Opening(r.ok), TextField("code", r.code), TextField("state", r.state), NumberField("pid", r.pid),
               NumberField("startTicks", r.startTicks), ExitField(r.exitCode), Ascii("}"));
  }

  lemma OpeningShape(ok: bool)
    ensures NoNul(Opening(ok)) && |Opening(ok)| <= 11 && NoNul(Ascii("}")) && |Ascii("}")| == 1
  {
    PlainText("{\"ok\":");
    PlainText(if ok then "true" else "false");
    PlainText("}");
  }

  lemma PartsShape(a: seq<Byte>, b: seq<Byte>, c: seq<Byte>, d: seq<Byte>, e: seq<Byte>, f: seq<Byte>, g: seq<Byte>)
    requires NoNul(a) && NoNul(b) && NoNul(c) && NoNul(d) && NoNul(e) && NoNul(f) && NoNul(g)
    ensures NoNul(a + b + c + d + e + f + g)
    ensures |a + b + c + d + e + f + g| == |a| + |b| + |c| + |d| + |e| + |f| + |g|
  {
    Append(a, b);
    Append(a + b, c);
    Append(a + b + c, d);
    Append(a + b + c + d, e);
    Append(a + b + c + d + e, f);
    Append(a + b + c + d + e + f, g);
  }

  lemma Append(a: seq<Byte>, b: seq<Byte>)
    requires NoNul(a) && NoNul(b)
    ensures NoNul(a + b) && |a + b| == |a| + |b|
  {
  }

  lemma TextFieldShape(key: string, text: string)
    requires Plain(text) && forall i | 0 <= i < |key| :: ' ' <= key[i] <= '~'
    ensures NoNul(TextField(key, text)) && |TextField(key, text)| <= 30 + |key|
  {
    QuotedShape(text);
    FieldShape(text != "", key, Quoted(text));
  }

  lemma NumberShape(present: bool, key: string, n: nat)
    requires forall i | 0 <= i < |key| :: ' ' <= key[i] <= '~'
    requires n < 0x1_0000_0000_0000_0000
    ensures NoNul(Field(present, key, Digits(n))) && |Field(present, key, Digits(n))| <= 25 + |key|
  {
    DecimalDigits(n);
    Uint64Length(n);
    FieldShape(present, key, Digits(n));
  }

  lemma ExitShape(code: Option<int>)
    requires code.Some? ==> 0 <= code.value <= 255
    ensures NoNul(ExitField(code)) && |ExitField(code)| <= 33
  {
    if code.Some? { NumberShape(true, "exitCode", code.value); }
  }

  // ---- Frames ----

  function BigEndian(n: nat): (prefix: seq<Byte>)
    requires n < 0x1_0000_0000
    ensures |prefix| == 4
  {
    [n / 0x100_0000, n / 0x1_0000 % 256, n / 0x100 % 256, n % 256]
  }

  function FromBigEndian(prefix: seq<Byte>): nat
    requires |prefix| == 4
  {
    (prefix[0] as int) * 0x100_0000 + (prefix[1] as int) * 0x1_0000 + (prefix[2] as int) * 0x100 + prefix[3] as int
  }

  lemma BigEndianInverse(n: nat)
    requires n < 0x1_0000_0000
    ensures FromBigEndian(BigEndian(n)) == n
  {
    var high, middle := n / 0x1_0000, n / 0x100;
    assert high == high / 0x100 * 256 + high % 256 && high / 0x100 == n / 0x100_0000;
    assert middle == high * 256 + middle % 256;
    assert n == middle * 256 + n % 256;
  }

  function Framed(body: seq<Byte>): seq<Byte>
    requires |body| < 0x1_0000_0000
  {
    BigEndian(|body|) + body
  }

  datatype Parsed = NoFrame | Frame(body: seq<Byte>, rest: seq<Byte>)

  /** The next frame of a delivered byte sequence; no frame when it is short, empty or oversized. */
  function ParseFrame(data: seq<Byte>, maximum: nat): Parsed {
    if |data| < 4 then NoFrame
    else
      var size := FromBigEndian(data[..4]);
      if size == 0 || size > maximum || |data| < 4 + size then NoFrame
      else Frame(data[4..4 + size], data[4 + size..])
  }

  lemma ParseFramed(body: seq<Byte>, rest: seq<Byte>, maximum: nat)
    requires 0 < |body| <= maximum && |body| < 0x1_0000_0000
    ensures ParseFrame(Framed(body) + rest, maximum) == Frame(body, rest)
  {
    var data := Framed(body) + rest;
    BigEndianInverse(|body|);
    assert data[..4] == BigEndian(|body|);
    assert data[4..4 + |body|] == body;
    assert data[4 + |body|..] == rest;
  }

  // ---- Pieces written one after the other until a write fails ----

  function Joined(pieces: seq<seq<Byte>>): seq<Byte> {
    if pieces == [] then [] else pieces[0] + Joined(pieces[1..])
  }

  /** What is left of a piece of which at most `cut` bytes were written. */
  function Beginning(piece: seq<Byte>, cut: nat): seq<Byte> {
    if cut < |piece| then piece[..cut] else piece
  }

  /** The first `n` pieces whole, then a beginning of the next if there is one. */
  ghost predicate Leaves(bytes: seq<Byte>, pieces: seq<seq<Byte>>, n: nat, cut: nat) {
    n <= |pieces| && bytes == Joined(pieces[..n]) + (if n < |pieces| then Beginning(pieces[n], cut) else [])
  }

  lemma OnePiece(piece: seq<Byte>)
    ensures Joined([piece]) == piece && Leaves(piece, [piece], 1, 0)
  {
    assert [piece][1..] == [] && [piece][..1] == [piece];
    assert Joined([piece]) == piece + Joined([]);
  }

  lemma JoinedMore(piece: seq<Byte>, pieces: seq<seq<Byte>>)
    ensures Joined([piece] + pieces) == piece + Joined(pieces)
  {
    assert ([piece] + pieces)[1..] == pieces;
  }

  lemma LeavesMore(piece: seq<Byte>, bytes: seq<Byte>, pieces: seq<seq<Byte>>, n: nat, cut: nat)
    requires Leaves(bytes, pieces, n, cut)
    ensures Leaves(piece + bytes, [piece] + pieces, n + 1, cut)
  {
    assert ([piece] + pieces)[..n + 1] == [piece] + pieces[..n];
    JoinedMore(piece, pieces[..n]);
    Regroup(piece, Joined(pieces[..n]), if n < |pieces| then Beginning(pieces[n], cut) else []);
  }

  // ---- Streams whose frames were cut short ----

  /** Bodies that frames of the protocol carry: short, not empty, without a NUL byte. */
  ghost predicate ShortText(body: seq<Byte>) {
    1 <= |body| <= 255 && NoNul(body)
  }

  ghost predicate Cut(bodies: seq<seq<Byte>>, cuts: seq<nat>) {
    && |bodies| == |cuts|
    && forall i | 0 <= i < |bodies| :: ShortText(bodies[i]) && cuts[i] <= 4 + |bodies[i]|
  }

  /** What a connection delivers when each frame was written only up to its cut. */
  ghost function Delivered(bodies: seq<seq<Byte>>, cuts: seq<nat>): seq<Byte>
    requires Cut(bodies, cuts)
  {
    if bodies == [] then [] else Framed(bodies[0])[..cuts[0]] + Delivered(bodies[1..], cuts[1..])
  }

  /** The first three bytes of anything delivered are zero, since frames are shorter than 256 bytes. */
  lemma {:induction false} LeadingZeros(bodies: seq<seq<Byte>>, cuts: seq<nat>, i: nat)
    requires Cut(bodies, cuts) && i < 3 && i < |Delivered(bodies, cuts)|
    ensures Delivered(bodies, cuts)[i] == 0
  {
    var head := Framed(bodies[0])[..cuts[0]];
    if i < cuts[0] {
      assert head[i] == BigEndian(|bodies[0]|)[i] == 0;
    } else {
      LeadingZeros(bodies[1..], cuts[1..], i - cuts[0]);
    }
  }

  /** A frame cut inside its prefix or body is never read back, whatever follows: its size becomes
      zero, or its body swallows the next frame's zero prefix. */
  lemma CutFrameLost(body: seq<Byte>, cut: nat, bodies: seq<seq<Byte>>, cuts: seq<nat>, maximum: nat)
    requires ShortText(body) && 0 < cut < 4 + |body| && Cut(bodies, cuts)
    ensures var parsed := ParseFrame(Framed(body)[..cut] + Delivered(bodies, cuts), maximum);
            parsed.Frame? ==> !NoNul(parsed.body)
  {
    var tail := Delivered(bodies, cuts);
    var data := Framed(body)[..cut] + tail;
    if |data| >= 4 {
      if cut < 4 {
        forall i | 0 <= i < 4 ensures data[i] == 0 {
          if i < cut { assert data[i] == BigEndian(|body|)[i]; } else { LeadingZeros(bodies, cuts, i - cut); }
        }
        assert FromBigEndian(data[..4]) == 0;
      } else {
        BigEndianInverse(|body|);
        assert data[..4] == BigEndian(|body|);
        if |data| >= 4 + |body| {
          LeadingZeros(bodies, cuts, 0);
          assert data[4..4 + |body|][cut - 4] == data[cut] == tail[0] == 0;
        }
      }
    }
  }

  /** Reading from a cut stream yields no usable body, or the first body not lost entirely, intact. */
  lemma {:induction false} FirstBody(bodies: seq<seq<Byte>>, cuts: seq<nat>, maximum: nat) returns (at: nat)
    requires Cut(bodies, cuts) && maximum >= 255
    ensures at <= |bodies|
    ensures var parsed := ParseFrame(Delivered(bodies, cuts), maximum);
            if at == |bodies| then parsed.Frame? ==> !NoNul(parsed.body)
            else cuts[at] == 4 + |bodies[at]| && Cut(bodies[at + 1..], cuts[at + 1..])
                 && parsed == Frame(bodies[at], Delivered(bodies[at + 1..], cuts[at + 1..]))
    ensures bodies != [] && cuts[0] == 4 + |bodies[0]| ==> at == 0
  {
    if bodies == [] { return 0; }
    var rest, more := bodies[1..], cuts[1..];
    if cuts[0] == 0 {
      assert Delivered(bodies, cuts) == Delivered(rest, more);
      var k := FirstBody(rest, more, maximum);
      assert k < |rest| ==> rest[k + 1..] == bodies[k + 2..] && more[k + 1..] == cuts[k + 2..];
      return k + 1;
    } else if cuts[0] < 4 + |bodies[0]| {
      CutFrameLost(bodies[0], cuts[0], rest, more, maximum);
      return |bodies|;
    } else {
      assert Framed(bodies[0])[..cuts[0]] == Framed(bodies[0]);
      ParseFramed(bodies[0], Delivered(rest, more), maximum);
      return 0;
    }
  }

  // ---- Connections ----

  datatype ReadStatus = More | Eof | Broken

  /** The receiving side of a connection: bytes still to be delivered, in chunks the peer and the kernel
      choose, followed by end of file or an error. */
  class Incoming {
    var data: seq<Byte>
    var chunks: seq<nat>
    const eof: bool

    constructor (data: seq<Byte>, chunks: seq<nat>, eof: bool)
      ensures this.data == data && this.chunks == chunks && this.eof == eof
    {
      this.data, this.chunks, this.eof := data, chunks, eof;
    }

    method Read(maximum: nat) returns (bytes: seq<Byte>, status: ReadStatus)
      requires maximum > 0
      modifies this
      ensures old(data) == bytes + data && |bytes| <= maximum
      ensures status == (if old(data) != [] then More else if eof then Eof else Broken)
      ensures |data| + |chunks| < |old(data)| + |old(chunks)| || old(data) == []
    {
      if data == [] { return [], if eof then Eof else Broken; }
      var count := if maximum < |data| then maximum else |data|;
      if chunks != [] {
        if chunks[0] < count { count := chunks[0]; }
        chunks := chunks[1..];
      }
      bytes, data := data[..count], data[count..];
      status := More;
    }
  }

  /** Read exactly `size` bytes, whatever the chunking; a shorter stream fails. */
  method ReadFull(reader: Incoming, size: nat) returns (bytes: seq<Byte>, ok: bool)
    modifies reader
    ensures ok <==> |old(reader.data)| >= size
    ensures ok ==> bytes == old(reader.data)[..size] && reader.data == old(reader.data)[size..]
  {
    bytes := [];
    while |bytes| < size
      invariant |bytes| <= size && old(reader.data) == bytes + reader.data
      decreases |reader.data| + |reader.chunks|
    {
      var chunk, status := reader.Read(size - |bytes|);
      bytes := bytes + chunk;
      if status != More { return bytes, false; }
    }
    return bytes, true;
  }

  /** Read one frame body; agrees with parsing the delivered bytes as a whole. */
  method ReadBody(reader: Incoming, maximum: nat) returns (body: seq<Byte>, ok: bool)
    modifies reader
    ensures ok <==> ParseFrame(old(reader.data), maximum).Frame?
    ensures ok ==> ParseFrame(old(reader.data), maximum) == Frame(body, reader.data)
  {
    var prefix, complete := ReadFull(reader, 4);
    if !complete { return [], false; }
    var size := FromBigEndian(prefix);
    if size == 0 || size > maximum { return [], false; }
    body, ok := ReadFull(reader, size);
    if ok {
      assert old(reader.data)[4..][..size] == old(reader.data)[4..4 + size];
      assert old(reader.data)[4..][size..] == old(reader.data)[4 + size..];
    }
  }

  /** The sending side: how many bytes each write accepts, and whether it then fails. */
  datatype WriteOutcome = WriteOutcome(count: nat, failed: bool)

  class Outgoing {
    var written: seq<Byte>
    var outcomes: seq<WriteOutcome>

    constructor (outcomes: seq<WriteOutcome>)
      ensures written == [] && this.outcomes == outcomes
    {
      this.written, this.outcomes := [], outcomes;
    }

    method Write(value: seq<Byte>) returns (count: nat, failed: bool)
      modifies this
      ensures count <= |value| && written == old(written) + value[..count]
      ensures old(outcomes) == [] ==> count == |value| && !failed && outcomes == []
      ensures |outcomes| <= |old(outcomes)|
      ensures |value| > 0 ==> |outcomes| < |old(outcomes)| || count == |value|
    {
      if outcomes == [] {
        count, failed := |value|, false;
      } else {
        count := if outcomes[0].count < |value| then outcomes[0].count else |value|;
        failed := outcomes[0].failed;
        outcomes := outcomes[1..];
      }
      written := written + value[..count];
    }
  }

  /** Write everything or report failure after some beginning of it. */
  method WriteAll(writer: Outgoing, value: seq<Byte>) returns (ok: bool)
    modifies writer
    ensures ok ==> writer.written == old(writer.written) + value
    ensures !ok ==> exists cut | 0 <= cut <= |value| :: writer.written == old(writer.written) + value[..cut]
    ensures old(writer.outcomes) == [] ==> ok && writer.outcomes == []
  {
    var left, sent := value, 0;
    while |left| != 0
      invariant 0 <= sent <= |value| && left == value[sent..]
      invariant writer.written == old(writer.written) + value[..sent]
      invariant old(writer.outcomes) == [] ==> writer.outcomes == []
      decreases |left|
    {
      var count, failed := writer.Write(left);
      assert value[..sent] + left[..count] == value[..sent + count];
      if failed || count <= 0 || count > |left| { return false; }
      left, sent := left[count..], sent + count;
    }
    assert value[..sent] == value;
    return true;
  }
}
