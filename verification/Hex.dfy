/** Lower-case hexadecimal text of byte strings. */
module Hex {
  import opened ByteStrings

  predicate IsHexDigit(c: char) { '0' <= c <= '9' || 'a' <= c <= 'f' }

  function Digit(n: nat): (c: char)
    requires n < 16
    ensures IsHexDigit(c)
  {
    if n < 10 then '0' + n as char else 'a' + (n - 10) as char
  }

  function Value(c: char): (n: nat)
    requires IsHexDigit(c)
    ensures n < 16
  {
    if c <= '9' then (c - '0') as int else (c - 'a') as int + 10
  }

  lemma DigitValue(n: nat)
    requires n < 16
    ensures Value(Digit(n)) == n
  {
  }

  lemma ValueDigit(c: char)
    requires IsHexDigit(c)
    ensures Digit(Value(c)) == c
  {
  }

  predicate IsHex(s: string) {
    |s| % 2 == 0 && forall i | 0 <= i < |s| :: IsHexDigit(s[i])
  }

  function Encode(bytes: Bytes): (s: string)
    ensures |s| == 2 * |bytes|
  {
    if bytes == [] then "" else [Digit(bytes[0] / 16), Digit(bytes[0] % 16)] + Encode(bytes[1..])
  }

  function Decode(s: string): (bytes: Bytes)
    requires IsHex(s)
    ensures 2 * |bytes| == |s|
  {
    if s == "" then [] else [16 * Value(s[0]) + Value(s[1])] + Decode(s[2..])
  }

  lemma {:induction false} EncodeIsHex(bytes: Bytes)
    ensures IsHex(Encode(bytes))
  {
    if bytes != [] {
      EncodeIsHex(bytes[1..]);
      var head := [Digit(bytes[0] / 16), Digit(bytes[0] % 16)];
      assert forall i | 0 <= i < |head| :: IsHexDigit(head[i]);
    }
  }

  /** Decoding inverts encoding. */
  lemma {:induction false} DecodeEncode(bytes: Bytes)
    ensures IsHex(Encode(bytes)) && Decode(Encode(bytes)) == bytes
  {
    EncodeIsHex(bytes);
    if bytes != [] {
      DecodeEncode(bytes[1..]);
      assert Encode(bytes)[2..] == Encode(bytes[1..]);
      DigitValue(bytes[0] / 16);
      DigitValue(bytes[0] % 16);
    }
  }

  /** Encoding inverts decoding: lower-case text is canonical. */
  lemma {:induction false} EncodeDecode(s: string)
    requires IsHex(s)
    ensures Encode(Decode(s)) == s
  {
    if s != "" {
      EncodeDecode(s[2..]);
      DecodeHead(s);
      PairDigits(s[0], s[1]);
      assert s == [s[0], s[1]] + s[2..];
    }
  }

  lemma DecodeHead(s: string)
    requires IsHex(s) && s != ""
    ensures IsHex(s[2..]) && Decode(s)[0] == 16 * Value(s[0]) + Value(s[1]) && Decode(s)[1..] == Decode(s[2..])
  {
  }

  lemma PairDigits(a: char, b: char)
    requires IsHexDigit(a) && IsHexDigit(b)
    ensures Digit((16 * Value(a) + Value(b)) / 16) == a && Digit((16 * Value(a) + Value(b)) % 16) == b
  {
    ValueDigit(a);
    ValueDigit(b);
    assert (16 * Value(a) + Value(b)) / 16 == Value(a);
  }

  lemma EncodeInjective(a: Bytes, b: Bytes)
    requires Encode(a) == Encode(b)
    ensures a == b
  {
    DecodeEncode(a);
    DecodeEncode(b);
  }
}
