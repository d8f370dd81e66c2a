/** How an R2 object's metadata is written into the provider's user metadata, and read back from whatever
    headers the provider returns. */
module R2Codec {
  import opened Options
  import Hex
  import opened ByteStrings
  import opened Numbers

  datatype Result<+T> = Ok(value: T) | Failed

  const MAX_CUSTOM_JSON_BYTES: nat := 4096

  /** A user metadata name: one this codec owns, or any other. */
  datatype Name =
    | SCHEMA | VERSION | CUSTOM | HTTP_FIELDS | MD5 | SHA1 | SHA256 | SHA384 | SHA512 | STORAGE | SSEC_MD5
    | Other(text: string)

  type User = map<Name, string>

  /** The header suffix each owned name is stored under. */
  function NameText(name: Name): string {
    match name
    case SCHEMA => "oc-r2-schema"
    case VERSION => "oc-r2-version"
    case CUSTOM => "oc-r2-custom"
    case HTTP_FIELDS => "oc-r2-http-fields"
    case MD5 => "oc-r2-md5"
    case SHA1 => "oc-r2-sha1"
    case SHA256 => "oc-r2-sha256"
    case SHA384 => "oc-r2-sha384"
    case SHA512 => "oc-r2-sha512"
    case STORAGE => "oc-r2-storage"
    case SSEC_MD5 => "oc-r2-ssec-md5"
    case Other(text) => text
  }

  /** No two names of this codec share a header. */
  lemma OwnNamesDistinct(a: Name, b: Name)
    requires !a.Other? && !b.Other? && NameText(a) == NameText(b)
    ensures a == b
  {
    assert NameText(CUSTOM)[6] == 'c' && NameText(SCHEMA)[6] == 's' && NameText(SCHEMA)[7] == 'c';
    assert NameText(SHA256)[6] == 's' && NameText(SHA256)[7] == 'h' && NameText(SHA256)[9] == '2';
    assert NameText(SHA384)[6] == 's' && NameText(SHA384)[7] == 'h' && NameText(SHA384)[9] == '3';
    assert NameText(SHA512)[6] == 's' && NameText(SHA512)[7] == 'h' && NameText(SHA512)[9] == '5';
    assert NameText(VERSION)[6] == 'v' && NameText(STORAGE)[6] == 's';
  }

  datatype HttpMetadata = HttpMetadata(
    contentType: Option<string>, contentLanguage: Option<string>, contentDisposition: Option<string>,
    contentEncoding: Option<string>, cacheControl: Option<string>, cacheExpiry: Option<int>)

  datatype StorageClass = Standard | InfrequentAccess

  datatype Algorithm = AskMd5 | AskSha1 | AskSha256 | AskSha384 | AskSha512

  /** Digests computed from staged bytes, of 16, 20, 32, 48 and 64 bytes. */
  datatype Computed = Computed(md5: Bytes, sha1: Bytes, sha256: Bytes, sha384: Bytes, sha512: Bytes)

  datatype Checksums = Checksums(
    md5: Option<string>, sha1: Option<string>, sha256: Option<string>, sha384: Option<string>, sha512: Option<string>)

  /** What the provider returns for an object. */
  datatype Stored = Stored(user: User, http: HttpMetadata, etag: string, size: nat, lastModified: int)

  datatype Metadata = Metadata(
    version: string, size: nat, etag: string, httpEtag: string, uploaded: int, http: HttpMetadata,
    custom: map<string, string>, checksums: Checksums, storageClass: string, ssecKeyMd5: Option<string>)

  /** Formats owned by libraries: JSON of string maps, URL-safe base64 without padding, and the test for a
      canonical version 7 UUID. */
  datatype Formats = Formats(
    toJson: map<string, string> -> Bytes, fromJson: Bytes -> Option<map<string, string>>,
    toBase64: Bytes -> string, fromBase64: string -> Option<Bytes>,
    isUuid7: string -> bool)

  ghost predicate Lawful(f: Formats) {
    && (forall m :: f.fromJson(f.toJson(m)) == Some(m))
    && (forall b :: f.fromBase64(f.toBase64(b)) == Some(b))
    && (forall s | f.fromBase64(s).Some? :: f.toBase64(f.fromBase64(s).value) == s)
  }

  // ---- Writing ----

  function CanonicalCustom(f: Formats, custom: map<string, string>): Result<Bytes> {
    if |f.toJson(custom)| > MAX_CUSTOM_JSON_BYTES then Failed else Ok(f.toJson(custom))
  }

  function Bit(present: bool, weight: nat): nat { if present then weight else 0 }

  function FieldMask(h: HttpMetadata): (mask: nat)
    ensures mask <= 63
  {
    Bit(h.contentType.Some?, 1) + Bit(h.contentLanguage.Some?, 2) + Bit(h.contentDisposition.Some?, 4)
    + Bit(h.contentEncoding.Some?, 8) + Bit(h.cacheControl.Some?, 16) + Bit(h.cacheExpiry.Some?, 32)
  }

  function ClassName(c: StorageClass): string {
    match c case Standard => "Standard" case InfrequentAccess => "InfrequentAccess"
  }

  function CreateUserMetadata(f: Formats, version: string, custom: map<string, string>, http: HttpMetadata,
                              class_: StorageClass, ssecMd5: Option<Bytes>): Result<User>
  {
    match CanonicalCustom(f, custom)
    case Failed => Failed
    case Ok(json) =>
      var base := map[SCHEMA := "1", VERSION := version, HTTP_FIELDS := Decimal(FieldMask(http)),
                      CUSTOM := f.toBase64(json), STORAGE := ClassName(class_)];
      Ok(if ssecMd5.Some? then base[SSEC_MD5 := Hex.Encode(ssecMd5.value)] else base)
  }

  function Exposed(c: Computed, requested: Option<Algorithm>): Checksums {
    var base := Checksums(Some(Hex.Encode(c.md5)), None, None, None, None);
    match requested
    case None => base
    case Some(AskMd5) => base
    case Some(AskSha1) => base.(sha1 := Some(Hex.Encode(c.sha1)))
    case Some(AskSha256) => base.(sha256 := Some(Hex.Encode(c.sha256)))
    case Some(AskSha384) => base.(sha384 := Some(Hex.Encode(c.sha384)))
    case Some(AskSha512) => base.(sha512 := Some(Hex.Encode(c.sha512)))
  }

  function DigestOf(c: Computed, a: Algorithm): Bytes {
    match a
    case AskMd5 => c.md5 case AskSha1 => c.sha1 case AskSha256 => c.sha256 case AskSha384 => c.sha384 case AskSha512 => c.sha512
  }

  function ChecksumOf(c: Checksums, a: Algorithm): Option<string> {
    match a
    case AskMd5 => c.md5 case AskSha1 => c.sha1 case AskSha256 => c.sha256 case AskSha384 => c.sha384 case AskSha512 => c.sha512
  }

  /** Of every algorithm the digest is exposed exactly if it is MD5 or was asked for, and the text exposed
      decodes to the digest computed. */
  lemma ExposedExactly(c: Computed, requested: Option<Algorithm>, a: Algorithm)
    ensures ChecksumOf(Exposed(c, requested), a).Some? <==> a == AskMd5 || requested == Some(a)
    ensures ChecksumOf(Exposed(c, requested), a).Some? ==>
              && Hex.IsHex(ChecksumOf(Exposed(c, requested), a).value)
              && |ChecksumOf(Exposed(c, requested), a).value| == 2 * |DigestOf(c, a)|
              && Hex.Decode(ChecksumOf(Exposed(c, requested), a).value) == DigestOf(c, a)
  {
    Hex.EncodeIsHex(DigestOf(c, a));
    Hex.DecodeEncode(DigestOf(c, a));
  }

  function Put(user: User, name: Name, value: Option<string>): User {
    if value.Some? then user[name := value.value] else user
  }

  function ApplyChecksums(user: User, c: Checksums): User {
    Put(Put(Put(Put(Put(user, MD5, c.md5), SHA1, c.sha1), SHA256, c.sha256), SHA384, c.sha384), SHA512, c.sha512)
  }

  // ---- Reading ----

  function Lookup(user: User, name: Name): Option<string> {
    if name in user then Some(user[name]) else None
  }

  predicate IsDigit(c: char) { '0' <= c <= '9' }

  /** Decimal digits with an optional plus sign and any leading zeros; at most 255. */
  function ParseU8(s: string): Option<nat> {
    var digits := if |s| > 1 && s[0] == '+' then s[1..] else s;
    if digits == "" || exists i | 0 <= i < |digits| :: !IsDigit(digits[i]) then None
    else
      var n := DecimalValue(digits);
      if n > 255 then None else Some(n)
  }

  function DecimalValue(digits: string): nat
    requires forall i | 0 <= i < |digits| :: IsDigit(digits[i])
  {
    if digits == "" then 0
    else
      assert IsDigit(digits[|digits| - 1]);
      10 * DecimalValue(digits[..|digits| - 1]) + (digits[|digits| - 1] - '0') as int
  }

  /** The declared-field mask, accepted only in its canonical decimal form. */
  function ParseMask(text: string): Option<nat> {
    match ParseU8(text)
    case None => None
    case Some(n) => if n > 63 || Decimal(n) != text then None else Some(n)
  }

  function HexChecksum(value: Option<string>, length: nat): Result<Option<string>> {
    match value
    case None => Ok(None)
    case Some(s) => if |s| == length && Hex.IsHex(s) then Ok(Some(s)) else Failed
  }

  function ParseChecksums(user: User): Result<Checksums> {
    match (HexChecksum(Lookup(user, MD5), 32), HexChecksum(Lookup(user, SHA1), 40), HexChecksum(Lookup(user, SHA256), 64),
           HexChecksum(Lookup(user, SHA384), 96), HexChecksum(Lookup(user, SHA512), 128))
    case (Ok(a), Ok(b), Ok(c), Ok(d), Ok(e)) => Ok(Checksums(a, b, c, d, e))
    case _ => Failed
  }

  predicate Declared(mask: nat, weight: nat)
    requires weight > 0
  {
    mask / weight % 2 == 1
  }

  /** A declared field must be there; an undeclared one is the provider's own and is ignored. */
  function DeclaredField<T>(mask: nat, weight: nat, value: Option<T>): Result<Option<T>>
    requires weight > 0
  {
    if !Declared(mask, weight) then Ok(None) else if value.Some? then Ok(value) else Failed
  }

  function ParseHttp(mask: nat, h: HttpMetadata): Result<HttpMetadata> {
    match (DeclaredField(mask, 1, h.contentType), DeclaredField(mask, 2, h.contentLanguage),
           DeclaredField(mask, 4, h.contentDisposition), DeclaredField(mask, 8, h.contentEncoding),
           DeclaredField(mask, 16, h.cacheControl), DeclaredField(mask, 32, h.cacheExpiry))
    case (Ok(a), Ok(b), Ok(c), Ok(d), Ok(e), Ok(g)) => Ok(HttpMetadata(a, b, c, d, e, g))
    case _ => Failed
  }

  predicate IsControl(c: char) { c < ' ' || c == '\U{007f}' }

  predicate ValidEtag(s: string) {
    s != "" && forall i | 0 <= i < |s| :: !IsControl(s[i]) && s[i] != '"'
  }

  function Unquote(s: string): Result<string> {
    var inner := if |s| >= 2 && s[0] == '"' && s[|s| - 1] == '"' then s[1..|s| - 1] else s;
    if ValidEtag(inner) then Ok(inner) else Failed
  }

  function Quote(s: string): Result<string> {
    match Unquote(s)
    case Failed => Failed
    case Ok(inner) => Ok("\"" + inner + "\"")
  }

  function ParseCustom(f: Formats, user: User): Result<map<string, string>> {
    match Lookup(user, CUSTOM)
    case None => Failed
    case Some(text) =>
      match f.fromBase64(text)
      case None => Failed
      case Some(bytes) =>
        if |bytes| > MAX_CUSTOM_JSON_BYTES then Failed
        else
          match f.fromJson(bytes)
          case None => Failed
          case Some(custom) => if CanonicalCustom(f, custom) == Ok(bytes) then Ok(custom) else Failed
  }

  function ParseClass(user: User): Result<string> {
    var name := if STORAGE in user then user[STORAGE] else "Standard";
    if name == "Standard" || name == "InfrequentAccess" then Ok(name) else Failed
  }

  function ParseSsec(user: User): Result<Option<string>> {
    match Lookup(user, SSEC_MD5)
    case None => Ok(None)
    case Some(s) => if |s| == 32 && Hex.IsHex(s) then Ok(Some(s)) else Failed
  }

  function ParseVersion(f: Formats, user: User): Result<string> {
    if Lookup(user, SCHEMA) != Some("1") then Failed
    else
      match Lookup(user, VERSION)
      case None => Failed
      case Some(version) => if f.isUuid7(version) then Ok(version) else Failed
  }

  function ParseFields(user: User): Result<nat> {
    match Lookup(user, HTTP_FIELDS)
    case None => Failed
    case Some(text) =>
      match ParseMask(text)
      case None => Failed
      case Some(mask) => Ok(mask)
  }

  function DecodeMetadata(f: Formats, o: Stored): Result<Metadata> {
    match (ParseVersion(f, o.user), ParseCustom(f, o.user), ParseFields(o.user), ParseChecksums(o.user))
    case (Ok(version), Ok(custom), Ok(mask), Ok(checksums)) =>
      (match (ParseClass(o.user), ParseSsec(o.user), Unquote(o.etag), ParseHttp(mask, o.http))
       case (Ok(class_), Ok(ssec), Ok(etag), Ok(http)) =>
         (match Quote(etag)
          case Failed => Failed
          case Ok(httpEtag) =>
            Ok(Metadata(version, o.size, etag, httpEtag, o.lastModified, http, custom, checksums, class_, ssec)))
       case _ => Failed)
    case _ => Failed
  }

  // ---- Numbers, tags and digests survive ----

  lemma {:induction false} DecimalInverse(n: nat)
    ensures forall i | 0 <= i < |Decimal(n)| :: IsDigit(Decimal(n)[i])
    ensures DecimalValue(Decimal(n)) == n
  {
    if n >= 10 {
      DecimalInverse(n / 10);
      assert Decimal(n)[..|Decimal(n)| - 1] == Decimal(n / 10);
    }
  }

  /** A mask text is accepted exactly when it is the canonical numeral of a number up to 63. */
  lemma MaskTextCanonical(text: string, n: nat)
    ensures ParseMask(text) == Some(n) <==> n <= 63 && text == Decimal(n)
  {
    DecimalInverse(n);
    if n <= 63 && text == Decimal(n) {
      assert text[0] != '+';
    }
  }

  /** Bits of a six-bit mask are the presence of the six fields. */
  lemma MaskDeclares(h: HttpMetadata)
    ensures Declared(FieldMask(h), 1) <==> h.contentType.Some?
    ensures Declared(FieldMask(h), 2) <==> h.contentLanguage.Some?
    ensures Declared(FieldMask(h), 4) <==> h.contentDisposition.Some?
    ensures Declared(FieldMask(h), 8) <==> h.contentEncoding.Some?
    ensures Declared(FieldMask(h), 16) <==> h.cacheControl.Some?
    ensures Declared(FieldMask(h), 32) <==> h.cacheExpiry.Some?
  {
  }

  /** A tag read back is never quoted, quotes to itself in quotes, and unquotes again. */
  lemma QuoteInverse(s: string, etag: string)
    requires Unquote(s) == Ok(etag)
    ensures Quote(etag) == Ok("\"" + etag + "\"") && Unquote("\"" + etag + "\"") == Ok(etag)
  {
    assert ("\"" + etag + "\"")[1..|etag| + 1] == etag;
  }

  // ---- The round trip ----

  /** One upload, as validated before it is written. */
  datatype Upload = Upload(
    version: string, custom: map<string, string>, http: HttpMetadata, class_: StorageClass, ssecMd5: Option<Bytes>,
    computed: Computed, requested: Option<Algorithm>)

  predicate ValidUpload(f: Formats, u: Upload) {
    && f.isUuid7(u.version) && |f.toJson(u.custom)| <= MAX_CUSTOM_JSON_BYTES
    && |u.computed.md5| == 16 && |u.computed.sha1| == 20 && |u.computed.sha256| == 32
    && |u.computed.sha384| == 48 && |u.computed.sha512| == 64
    && (u.ssecMd5.Some? ==> |u.ssecMd5.value| == 16)
  }

  /** The user metadata one upload writes. */
  function WrittenUser(f: Formats, u: Upload): Result<User> {
    match CreateUserMetadata(f, u.version, u.custom, u.http, u.class_, u.ssecMd5)
    case Failed => Failed
    case Ok(user) => Ok(ApplyChecksums(user, Exposed(u.computed, u.requested)))
  }

  /** The provider returns this codec's names as written, and may add any others. */
  ghost predicate KeepsNames(written: User, o: Stored) {
    forall name: Name | !name.Other? :: Lookup(o.user, name) == Lookup(written, name)
  }

  /** Every header the upload declared is still there. */
  predicate DeclaredPresent(written: HttpMetadata, returned: HttpMetadata) {
    && (written.contentType.Some? ==> returned.contentType.Some?)
    && (written.contentLanguage.Some? ==> returned.contentLanguage.Some?)
    && (written.contentDisposition.Some? ==> returned.contentDisposition.Some?)
    && (written.contentEncoding.Some? ==> returned.contentEncoding.Some?)
    && (written.cacheControl.Some? ==> returned.cacheControl.Some?)
    && (written.cacheExpiry.Some? ==> returned.cacheExpiry.Some?)
  }

  /** ... with its value. */
  predicate DeclaredKept(written: HttpMetadata, returned: HttpMetadata) {
    && (written.contentType.Some? ==> returned.contentType == written.contentType)
    && (written.contentLanguage.Some? ==> returned.contentLanguage == written.contentLanguage)
    && (written.contentDisposition.Some? ==> returned.contentDisposition == written.contentDisposition)
    && (written.contentEncoding.Some? ==> returned.contentEncoding == written.contentEncoding)
    && (written.cacheControl.Some? ==> returned.cacheControl == written.cacheControl)
    && (written.cacheExpiry.Some? ==> returned.cacheExpiry == written.cacheExpiry)
  }

  lemma PutLookup(user: User, name: Name, value: Option<string>, other: Name)
    ensures Lookup(Put(user, name, value), other) == if other == name && value.Some? then value else Lookup(user, other)
  {
  }

  lemma ApplyLookup(user: User, c: Checksums, name: Name)
    ensures Lookup(ApplyChecksums(user, c), name) ==
              if name == MD5 && c.md5.Some? then c.md5
              else if name == SHA1 && c.sha1.Some? then c.sha1
              else if name == SHA256 && c.sha256.Some? then c.sha256
              else if name == SHA384 && c.sha384.Some? then c.sha384
              else if name == SHA512 && c.sha512.Some? then c.sha512
              else Lookup(user, name)
  {
    var u1 := Put(user, MD5, c.md5);
    var u2 := Put(u1, SHA1, c.sha1);
    var u3 := Put(u2, SHA256, c.sha256);
    var u4 := Put(u3, SHA384, c.sha384);
    PutLookup(user, MD5, c.md5, name);
    PutLookup(u1, SHA1, c.sha1, name);
    PutLookup(u2, SHA256, c.sha256, name);
    PutLookup(u3, SHA384, c.sha384, name);
    PutLookup(u4, SHA512, c.sha512, name);
  }

  /** What one name of the written metadata holds. */
  function Expected(f: Formats, u: Upload, name: Name): Option<string> {
    var c := Exposed(u.computed, u.requested);
    match name
    case SCHEMA => Some("1")
    case VERSION => Some(u.version)
    case CUSTOM => Some(f.toBase64(f.toJson(u.custom)))
    case HTTP_FIELDS => Some(Decimal(FieldMask(u.http)))
    case MD5 => c.md5 case SHA1 => c.sha1 case SHA256 => c.sha256 case SHA384 => c.sha384 case SHA512 => c.sha512
    case STORAGE => Some(ClassName(u.class_))
    case SSEC_MD5 => if u.ssecMd5.Some? then Some(Hex.Encode(u.ssecMd5.value)) else None
    case Other(_) => None
  }

  lemma CreatedName(f: Formats, u: Upload, name: Name)
    requires WrittenUser(f, u).Ok?
    ensures var user := CreateUserMetadata(f, u.version, u.custom, u.http, u.class_, u.ssecMd5).value;
            Lookup(user, name) == if name in {MD5, SHA1, SHA256, SHA384, SHA512} then None else Expected(f, u, name)
  {
    var base := map[SCHEMA := "1", VERSION := u.version, HTTP_FIELDS := Decimal(FieldMask(u.http)),
                    CUSTOM := f.toBase64(f.toJson(u.custom)), STORAGE := ClassName(u.class_)];
    BaseName(u.version, Decimal(FieldMask(u.http)), f.toBase64(f.toJson(u.custom)), ClassName(u.class_), name);
    var user := CreateUserMetadata(f, u.version, u.custom, u.http, u.class_, u.ssecMd5).value;
    assert user == if u.ssecMd5.Some? then base[SSEC_MD5 := Hex.Encode(u.ssecMd5.value)] else base;
  }

  lemma BaseName(version: string, fields: string, custom: string, class_: string, name: Name)
    ensures var base := map[SCHEMA := "1", VERSION := version, HTTP_FIELDS := fields, CUSTOM := custom, STORAGE := class_];
            Lookup(base, name) ==
              match name
              case SCHEMA => Some("1") case VERSION => Some(version) case HTTP_FIELDS => Some(fields)
              case CUSTOM => Some(custom) case STORAGE => Some(class_) case _ => None
  {
  }

  lemma WrittenName(f: Formats, u: Upload, name: Name)
    requires WrittenUser(f, u).Ok?
    ensures Lookup(WrittenUser(f, u).value, name) == Expected(f, u, name)
  {
    var user := CreateUserMetadata(f, u.version, u.custom, u.http, u.class_, u.ssecMd5).value;
    CreatedName(f, u, name);
    ApplyLookup(user, Exposed(u.computed, u.requested), name);
  }

  /** After the provider's round trip an owned name still holds what was written. */
  lemma ReturnedName(f: Formats, u: Upload, o: Stored, name: Name)
    requires WrittenUser(f, u).Ok? && KeepsNames(WrittenUser(f, u).value, o) && !name.Other?
    ensures Lookup(o.user, name) == Expected(f, u, name)
  {
    WrittenName(f, u, name);
  }

  lemma ChecksumsSurvive(user: User, computed: Computed, requested: Option<Algorithm>)
    requires |computed.md5| == 16 && |computed.sha1| == 20 && |computed.sha256| == 32
    requires |computed.sha384| == 48 && |computed.sha512| == 64
    requires var c := Exposed(computed, requested);
             && Lookup(user, MD5) == c.md5 && Lookup(user, SHA1) == c.sha1 && Lookup(user, SHA256) == c.sha256
             && Lookup(user, SHA384) == c.sha384 && Lookup(user, SHA512) == c.sha512
    ensures ParseChecksums(user) == Ok(Exposed(computed, requested))
  {
    Hex.EncodeIsHex(computed.md5);
    Hex.EncodeIsHex(computed.sha1);
    Hex.EncodeIsHex(computed.sha256);
    Hex.EncodeIsHex(computed.sha384);
    Hex.EncodeIsHex(computed.sha512);
  }

  lemma HttpSurvives(written: HttpMetadata, returned: HttpMetadata)
    ensures ParseHttp(FieldMask(written), returned).Ok? <==> DeclaredPresent(written, returned)
    ensures DeclaredKept(written, returned) ==> ParseHttp(FieldMask(written), returned) == Ok(written)
  {
    MaskDeclares(written);
  }

  lemma IdentitySurvives(f: Formats, u: Upload, o: Stored)
    requires Lawful(f) && ValidUpload(f, u) && WrittenUser(f, u).Ok? && KeepsNames(WrittenUser(f, u).value, o)
    ensures ParseVersion(f, o.user) == Ok(u.version) && ParseCustom(f, o.user) == Ok(u.custom)
  {
    ReturnedName(f, u, o, SCHEMA);
    ReturnedName(f, u, o, VERSION);
    ReturnedName(f, u, o, CUSTOM);
  }

  lemma FieldsSurvive(f: Formats, u: Upload, o: Stored)
    requires WrittenUser(f, u).Ok? && KeepsNames(WrittenUser(f, u).value, o)
    ensures ParseFields(o.user) == Ok(FieldMask(u.http))
  {
    ReturnedName(f, u, o, HTTP_FIELDS);
    MaskTextCanonical(Decimal(FieldMask(u.http)), FieldMask(u.http));
  }

  lemma DigestsSurvive(f: Formats, u: Upload, o: Stored)
    requires ValidUpload(f, u) && WrittenUser(f, u).Ok? && KeepsNames(WrittenUser(f, u).value, o)
    ensures ParseChecksums(o.user) == Ok(Exposed(u.computed, u.requested))
  {
    DigestNames(f, u, o);
    ChecksumsSurvive(o.user, u.computed, u.requested);
  }

  lemma DigestNames(f: Formats, u: Upload, o: Stored)
    requires WrittenUser(f, u).Ok? && KeepsNames(WrittenUser(f, u).value, o)
    ensures var c := Exposed(u.computed, u.requested);
            && Lookup(o.user, MD5) == c.md5 && Lookup(o.user, SHA1) == c.sha1 && Lookup(o.user, SHA256) == c.sha256
            && Lookup(o.user, SHA384) == c.sha384 && Lookup(o.user, SHA512) == c.sha512
  {
    ReturnedName(f, u, o, MD5);
    ReturnedName(f, u, o, SHA1);
    ReturnedName(f, u, o, SHA256);
    ReturnedName(f, u, o, SHA384);
    ReturnedName(f, u, o, SHA512);
  }

  lemma ClassSurvives(f: Formats, u: Upload, o: Stored)
    requires ValidUpload(f, u) && WrittenUser(f, u).Ok? && KeepsNames(WrittenUser(f, u).value, o)
    ensures ParseClass(o.user) == Ok(ClassName(u.class_))
    ensures ParseSsec(o.user) == Ok(if u.ssecMd5.Some? then Some(Hex.Encode(u.ssecMd5.value)) else None)
  {
    ReturnedName(f, u, o, STORAGE);
    ReturnedName(f, u, o, SSEC_MD5);
    if u.ssecMd5.Some? { Hex.EncodeIsHex(u.ssecMd5.value); }
  }

  /** Reading back what was written returns the original version, custom metadata, declared headers,
      exposed checksums, class and key digest, whatever the provider adds to undeclared headers; and it
      succeeds exactly when no declared header was dropped and the provider's tag is usable. */
  lemma RoundTrip(f: Formats, u: Upload, o: Stored)
    requires Lawful(f) && ValidUpload(f, u) && WrittenUser(f, u).Ok? && KeepsNames(WrittenUser(f, u).value, o)
    ensures DecodeMetadata(f, o).Ok? <==> DeclaredPresent(u.http, o.http) && Unquote(o.etag).Ok?
    ensures DeclaredKept(u.http, o.http) && Unquote(o.etag).Ok? ==>
              DecodeMetadata(f, o) == Ok(Metadata(
                u.version, o.size, Unquote(o.etag).value, "\"" + Unquote(o.etag).value + "\"", o.lastModified, u.http,
                u.custom, Exposed(u.computed, u.requested), ClassName(u.class_),
                if u.ssecMd5.Some? then Some(Hex.Encode(u.ssecMd5.value)) else None))
  {
    IdentitySurvives(f, u, o);
    FieldsSurvive(f, u, o);
    DigestsSurvive(f, u, o);
    ClassSurvives(f, u, o);
    HttpSurvives(u.http, o.http);
    if Unquote(o.etag).Ok? { QuoteInverse(o.etag, Unquote(o.etag).value); }
  }

  /** Writing fails only for oversized custom metadata. */
  lemma WritingFailsOnlyWhenOversized(f: Formats, u: Upload)
    ensures WrittenUser(f, u).Ok? <==> |f.toJson(u.custom)| <= 4096
  {
  }

  /** What is read stands in the object: schema 1, a version 7 UUID, a tag that is not empty and needs no escaping,
      a known storage class or the standard one if none is named, and checksums of the right length in
      hexadecimal; size and time are the provider's. */
  lemma DecodedFacts(f: Formats, o: Stored, m: Metadata)
    requires DecodeMetadata(f, o) == Ok(m)
    ensures Lookup(o.user, SCHEMA) == Some("1") && Lookup(o.user, VERSION) == Some(m.version) && f.isUuid7(m.version)
    ensures m.etag != "" && m.httpEtag == "\"" + m.etag + "\"" && (o.etag == m.etag || o.etag == m.httpEtag)
    ensures forall i | 0 <= i < |m.etag| :: m.etag[i] != '"' && !IsControl(m.etag[i])
    ensures m.storageClass == (if STORAGE in o.user then o.user[STORAGE] else "Standard")
    ensures m.storageClass == "Standard" || m.storageClass == "InfrequentAccess"
    ensures IsChecksum(m.checksums.md5, Lookup(o.user, MD5), 32) && IsChecksum(m.checksums.sha1, Lookup(o.user, SHA1), 40)
    ensures IsChecksum(m.checksums.sha256, Lookup(o.user, SHA256), 64) && IsChecksum(m.checksums.sha384, Lookup(o.user, SHA384), 96)
    ensures IsChecksum(m.checksums.sha512, Lookup(o.user, SHA512), 128) && IsChecksum(m.ssecKeyMd5, Lookup(o.user, SSEC_MD5), 32)
    ensures |f.toJson(m.custom)| <= 4096 && m.size == o.size && m.uploaded == o.lastModified
  {
    var inner := if |o.etag| >= 2 && o.etag[0] == '"' && o.etag[|o.etag| - 1] == '"' then o.etag[1..|o.etag| - 1] else o.etag;
    assert o.etag != inner ==> o.etag == "\"" + inner + "\"";
    QuoteInverse(o.etag, m.etag);
  }

  predicate IsChecksum(read: Option<string>, stored: Option<string>, length: nat) {
    read == stored && (read.Some? ==> |read.value| == length && Hex.IsHex(read.value))
  }

  /** Stored metadata is canonical: two objects that read alike hold the same text under every name of
      this codec, except that an absent class reads as the standard one. */
  lemma ReadingIsInjective(f: Formats, a: Stored, b: Stored, name: Name)
    requires Lawful(f) && DecodeMetadata(f, a).Ok? && DecodeMetadata(f, b) == DecodeMetadata(f, a)
    requires !name.Other? && name != STORAGE
    ensures Lookup(a.user, name) == Lookup(b.user, name)
  {
    var m := DecodeMetadata(f, a).value;
    DecodedParts(f, a, m);
    DecodedParts(f, b, m);
    match name {
      case CUSTOM => CustomInjective(f, a.user, b.user);
      case HTTP_FIELDS => MaskInjective(a, b);
      case SCHEMA => case VERSION => case SSEC_MD5 =>
      case _ => ChecksumsInjective(a.user, b.user, m.checksums, name);
    }
  }

  lemma ChecksumsInjective(a: User, b: User, c: Checksums, name: Name)
    requires ParseChecksums(a) == Ok(c) && ParseChecksums(b) == Ok(c) && name in {MD5, SHA1, SHA256, SHA384, SHA512}
    ensures Lookup(a, name) == Lookup(b, name)
  {
    ChecksumText(a, c);
    ChecksumText(b, c);
  }

  lemma DecodedParts(f: Formats, o: Stored, m: Metadata)
    requires DecodeMetadata(f, o) == Ok(m)
    ensures ParseVersion(f, o.user) == Ok(m.version) && ParseCustom(f, o.user) == Ok(m.custom)
    ensures ParseChecksums(o.user) == Ok(m.checksums) && ParseSsec(o.user) == Ok(m.ssecKeyMd5)
    ensures ParseFields(o.user).Ok? && ParseHttp(ParseFields(o.user).value, o.http) == Ok(m.http)
  {
  }

  lemma ChecksumText(user: User, c: Checksums)
    requires ParseChecksums(user) == Ok(c)
    ensures Lookup(user, MD5) == c.md5 && Lookup(user, SHA1) == c.sha1 && Lookup(user, SHA256) == c.sha256
    ensures Lookup(user, SHA384) == c.sha384 && Lookup(user, SHA512) == c.sha512
  {
  }

  lemma CustomInjective(f: Formats, a: User, b: User)
    requires Lawful(f) && ParseCustom(f, a).Ok? && ParseCustom(f, b) == ParseCustom(f, a)
    ensures Lookup(a, CUSTOM) == Lookup(b, CUSTOM)
  {
    var json := f.toJson(ParseCustom(f, a).value);
    assert f.toBase64(json) == a[CUSTOM] && f.toBase64(json) == b[CUSTOM];
  }

  lemma MaskInjective(a: Stored, b: Stored)
    requires ParseFields(a.user).Ok? && ParseFields(b.user).Ok?
    requires var m, n := ParseFields(a.user).value, ParseFields(b.user).value;
             ParseHttp(m, a.http).Ok? && ParseHttp(n, b.http) == ParseHttp(m, a.http)
    ensures Lookup(a.user, HTTP_FIELDS) == Lookup(b.user, HTTP_FIELDS)
  {
    var m, n := ParseFields(a.user).value, ParseFields(b.user).value;
    MaskTextCanonical(a.user[HTTP_FIELDS], m);
    MaskTextCanonical(b.user[HTTP_FIELDS], n);
    SixBits(m, n);
  }

  lemma SixBits(m: nat, n: nat)
    requires m <= 63 && n <= 63
    requires Declared(m, 1) == Declared(n, 1) && Declared(m, 2) == Declared(n, 2) && Declared(m, 4) == Declared(n, 4)
    requires Declared(m, 8) == Declared(n, 8) && Declared(m, 16) == Declared(n, 16) && Declared(m, 32) == Declared(n, 32)
    ensures m == n
  {
    Octal(m);
    Octal(n);
    ThreeBits(m % 8, n % 8);
    ThreeBits(m / 8, n / 8);
  }

  lemma Octal(m: nat)
    requires m <= 63
    ensures m == 8 * (m / 8) + m % 8 && m / 8 <= 7
    ensures Declared(m, 1) == Declared(m % 8, 1) && Declared(m, 2) == Declared(m % 8, 2) && Declared(m, 4) == Declared(m % 8, 4)
    ensures Declared(m, 8) == Declared(m / 8, 1) && Declared(m, 16) == Declared(m / 8, 2) && Declared(m, 32) == Declared(m / 8, 4)
  {
    LowDigit(m);
    HighDigit(m);
  }

  lemma LowDigit(m: nat)
    ensures Declared(m, 1) == Declared(m % 8, 1) && Declared(m, 2) == Declared(m % 8, 2) && Declared(m, 4) == Declared(m % 8, 4)
  {
    var high, low := m / 8, m % 8;
    Parity(4 * high, low);
    Parity(2 * high, low / 2);
    Parity(high, low / 4);
  }

  lemma Parity(a: nat, b: nat)
    ensures (2 * a + b) % 2 == b % 2
  {
  }

  lemma HighDigit(m: nat)
    ensures Declared(m, 8) == Declared(m / 8, 1) && Declared(m, 16) == Declared(m / 8, 2) && Declared(m, 32) == Declared(m / 8, 4)
  {
  }

  lemma ThreeBits(x: nat, y: nat)
    requires x <= 7 && y <= 7
    requires Declared(x, 1) == Declared(y, 1) && Declared(x, 2) == Declared(y, 2) && Declared(x, 4) == Declared(y, 4)
    ensures x == y
  {
  }
}
