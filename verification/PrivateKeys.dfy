/** Decoding an RSA private key, bare (PKCS#1, RFC 8017 appendix A.1.2) or wrapped (PKCS#8, RFC 5208
    section 5), from its DER encoding
    (core/src/JetBlack.MessageBus.Common/Security/Crytography/KeyUtils.cs:252-413). */
module PrivateKeys {
  import opened Messages
  import opened Parsing
  import opened Sequences

  datatype Failure = EndOfStream | NegativeCount | IndexOutOfRange

  type Result<+T> = Parsed<T, Failure>

  /** The parameters of a key, or the default value where the encoding is not as expected. */
  datatype Key = Parameters(modulus: Bytes, exponent: Bytes, d: Bytes, p: Bytes, q: Bytes, dp: Bytes, dq: Bytes,
                            inverseQ: Bytes) | Default

  const OID_RSA_ENCRYPTION: Bytes := [0x30, 0x0D, 0x06, 0x09, 0x2A, 0x86, 0x48, 0x86, 0xF7, 0x0D, 0x01, 0x01, 0x01,
                                      0x05, 0x00]

  // ----- The encoding -----

  /** The bytes of a number, the most significant first and without leading zeros. */
  function Magnitude(n: nat): (b: Bytes)
    ensures n > 0 ==> b != [] && b[0] != 0
  {
    if n == 0 then [] else Magnitude(n / 0x100) + [(n % 0x100) as byte]
  }

  function ValueOf(b: Bytes): nat {
    if b == [] then 0 else ValueOf(b[..|b| - 1]) * 0x100 + b[|b| - 1] as nat
  }

  lemma {:induction false} MagnitudeHasValue(n: nat)
    ensures ValueOf(Magnitude(n)) == n
  {
    if n > 0 {
      var b := Magnitude(n);
      assert b[..|b| - 1] == Magnitude(n / 0x100);
      MagnitudeHasValue(n / 0x100);
    }
  }

  /** Only the value's own magnitude has the value and no leading zero. */
  lemma {:induction false} MagnitudeIsMinimal(b: Bytes)
    requires b != [] ==> b[0] != 0
    ensures Magnitude(ValueOf(b)) == b
    decreases |b|
  {
    if b != [] {
      var front, last := b[..|b| - 1], b[|b| - 1];
      MagnitudeIsMinimal(front);
      assert ValueOf(b) / 0x100 == ValueOf(front) && ValueOf(b) % 0x100 == last as nat;
      if front != [] {
        PositiveValue(front);
      }
      assert b == front + [last];
    }
  }

  lemma {:induction false} PositiveValue(b: Bytes)
    requires b != [] && b[0] != 0
    ensures ValueOf(b) > 0
    decreases |b|
  {
    if |b| > 1 { PositiveValue(b[..|b| - 1]); }
  }

  lemma {:induction false} MagnitudeIsShort(n: nat, k: nat, bound: nat)
    requires n < bound && bound == Power256(k)
    ensures |Magnitude(n)| <= k
    decreases k
  {
    if n > 0 {
      assert n / 0x100 < Power256(k - 1);
      MagnitudeIsShort(n / 0x100, k - 1, Power256(k - 1));
    }
  }

  function Power256(k: nat): nat {
    if k == 0 then 1 else 0x100 * Power256(k - 1)
  }

  const MAX_LENGTH: nat := 0x8000_0000

  lemma LengthsHaveFourBytes(n: nat)
    requires n < MAX_LENGTH
    ensures |Magnitude(n)| <= 4
  {
    assert Power256(4) == 0x100 * (0x100 * (0x100 * (0x100 * Power256(0))));
    MagnitudeIsShort(n, 4, Power256(4));
  }

  /** The definite form of a length (ITU-T X.690 section 8.1.3): short below 128, and otherwise the number of
      its bytes and these. */
  function LengthBytes(n: nat): Bytes
    requires n < MAX_LENGTH
  {
    LengthsHaveFourBytes(n);
    if n < 0x80 then [n as byte] else [(0x80 + |Magnitude(n)|) as byte] + Magnitude(n)
  }

  /** The contents of a positive integer: a zero byte keeps the number from being read as negative. */
  function IntegerContents(n: nat): Bytes {
    var b := Magnitude(n);
    if b != [] && b[0] >= 0x80 then [0] + b else b
  }

  predicate Moderate(b: Bytes) {
    |b| < MAX_LENGTH
  }

  function Tagged(tag: byte, contents: Bytes): Bytes
    requires Moderate(contents)
  {
    [tag] + LengthBytes(|contents|) + contents
  }

  // ----- Object identifiers -----

  /** The digits of a number in base 128, the most significant first, each marked as not being the last. */
  function Leading(n: nat): Bytes {
    if n == 0 then [] else Leading(n / 0x80) + [(0x80 + n % 0x80) as byte]
  }

  /** An arc as digits in base 128, of which only the last is unmarked (ITU-T X.690 section 8.19.2). */
  function Subidentifier(n: nat): Bytes {
    Leading(n / 0x80) + [(n % 0x80) as byte]
  }

  function Subidentifiers(ns: seq<nat>): Bytes {
    if ns == [] then [] else Subidentifier(ns[0]) + Subidentifiers(ns[1..])
  }

  /** The contents of an object identifier, whose first two arcs share a number (ITU-T X.690 section 8.19.4). */
  function IdentifierContents(arcs: seq<nat>): Bytes
    requires |arcs| >= 2
  {
    Subidentifiers([40 * arcs[0] + arcs[1]] + arcs[2..])
  }

  /** The arcs of rsaEncryption (RFC 8017 appendix A.1). */
  const RSA_ENCRYPTION: seq<nat> := [1, 2, 840, 113549, 1, 1, 1]

  lemma SmallArc(n: nat)
    requires n < 0x80
    ensures Subidentifier(n) == [n as byte]
  {
  }

  lemma ArcContents()
    ensures Subidentifier(840) == [0x86, 0x48] && Subidentifier(113549) == [0x86, 0xF7, 0x0D]
  {
    assert Leading(6) == [0x86] && Leading(887) == Leading(6) + [0xF7];
  }

  lemma NextArc(n: nat, ns: seq<nat>)
    ensures Subidentifiers([n] + ns) == Subidentifier(n) + Subidentifiers(ns)
  {
    assert ([n] + ns)[1..] == ns;
  }

  lemma RsaContents()
    ensures IdentifierContents(RSA_ENCRYPTION) == [0x2A, 0x86, 0x48, 0x86, 0xF7, 0x0D, 0x01, 0x01, 0x01]
  {
    hide Subidentifier, Subidentifiers;
    SmallArc(42);
    SmallArc(1);
    ArcContents();
    NextArc(1, []);
    NextArc(1, [1]);
    NextArc(1, [1, 1]);
    NextArc(113549, [1, 1, 1]);
    NextArc(840, [113549, 1, 1, 1]);
    NextArc(42, [840, 113549, 1, 1, 1]);
    NoArc();
    assert RSA_ENCRYPTION[2..] == [840, 113549, 1, 1, 1];
    assert [1] + [] == [1] && [1] + [1] == [1, 1] && [1] + [1, 1] == [1, 1, 1];
    assert [113549] + [1, 1, 1] == [113549, 1, 1, 1] && [840] + [113549, 1, 1, 1] == [840, 113549, 1, 1, 1];
  }

  lemma NoArc()
    ensures Subidentifiers([]) == []
  {
  }

  /** The constant is the DER encoding of the algorithm: the identifier with these arcs, and NULL. */
  lemma AlgorithmIsRsaEncryption()
    ensures var contents := IdentifierContents(RSA_ENCRYPTION);
            && Moderate(contents) && Moderate(Tagged(0x06, contents) + Tagged(0x05, []))
            && OID_RSA_ENCRYPTION == Tagged(0x30, Tagged(0x06, contents) + Tagged(0x05, []))
  {
    hide IdentifierContents, Tagged;
    RsaContents();
    ShortTagged(0x05, []);
    ShortTagged(0x06, IdentifierContents(RSA_ENCRYPTION));
    ShortTagged(0x30, Tagged(0x06, IdentifierContents(RSA_ENCRYPTION)) + Tagged(0x05, []));
  }

  lemma ShortTagged(tag: byte, contents: Bytes)
    requires |contents| < 0x80
    ensures Moderate(contents) && Tagged(tag, contents) == [tag, |contents| as byte] + contents
  {
  }

  datatype Numbers = Numbers(modulus: nat, exponent: nat, d: nat, p: nat, q: nat, dp: nat, dq: nat, inverseQ: nat)

  function NumberList(k: Numbers): seq<nat> {
    [k.modulus, k.exponent, k.d, k.p, k.q, k.dp, k.dq, k.inverseQ]
  }

  predicate Encodable(ns: seq<nat>) {
    forall i :: 0 <= i < |ns| ==> ns[i] > 0 && Moderate(IntegerContents(ns[i]))
  }

  function IntegersBytes(ns: seq<nat>): Bytes
    requires Encodable(ns)
  {
    if ns == [] then [] else Tagged(0x02, IntegerContents(ns[0])) + IntegersBytes(ns[1..])
  }

  /** The contents of an RSAPrivateKey: version zero and the eight numbers. */
  function KeyContents(k: Numbers): Bytes
    requires Encodable(NumberList(k))
  {
    [0x02, 0x01, 0x00] + IntegersBytes(NumberList(k))
  }

  predicate Writable(n: nat) {
    n > 0 && Moderate(IntegerContents(n))
  }

  /** A whole number (ITU-T X.690 section 8.3). */
  function IntegerBytes(n: nat): Bytes
    requires Writable(n)
  {
    Tagged(0x02, IntegerContents(n))
  }

  lemma NextNumber(n: nat, ns: seq<nat>)
    requires Writable(n) && Encodable(ns)
    ensures Encodable([n] + ns) && IntegersBytes([n] + ns) == IntegerBytes(n) + IntegersBytes(ns)
  {
    hide IntegerContents, Tagged, Moderate;
    assert ([n] + ns)[1..] == ns;
  }

  lemma NoNumber()
    ensures Encodable([]) && IntegersBytes([]) == []
  {
  }

  /** Which number stands where: the modulus comes first, then the exponents, the primes, their exponents and the
      coefficient (RFC 8017 appendix A.1.2). */
  lemma KeyContentsInOrder(k: Numbers)
    requires Writable(k.modulus) && Writable(k.exponent) && Writable(k.d) && Writable(k.p) && Writable(k.q)
    requires Writable(k.dp) && Writable(k.dq) && Writable(k.inverseQ)
    ensures Encodable(NumberList(k))
    ensures KeyContents(k) == [0x02, 0x01, 0x00] + (IntegerBytes(k.modulus) + (IntegerBytes(k.exponent)
                              + (IntegerBytes(k.d) + (IntegerBytes(k.p) + (IntegerBytes(k.q) + (IntegerBytes(k.dp)
                              + (IntegerBytes(k.dq) + IntegerBytes(k.inverseQ))))))))
  {
    hide Writable, Encodable, IntegersBytes, IntegerBytes;
    var n1, n2, n3 := [k.inverseQ], [k.dq, k.inverseQ], [k.dp, k.dq, k.inverseQ];
    NoNumber();
    NextNumber(k.inverseQ, []);
    assert [k.inverseQ] + [] == n1 && IntegerBytes(k.inverseQ) + [] == IntegerBytes(k.inverseQ);
    NextNumber(k.dq, n1);
    assert [k.dq] + n1 == n2;
    NextNumber(k.dp, n2);
    assert [k.dp] + n2 == n3;
    NextNumber(k.q, n3);
    var n4 := [k.q] + n3;
    NextNumber(k.p, n4);
    var n5 := [k.p] + n4;
    NextNumber(k.d, n5);
    NextNumber(k.exponent, [k.d] + n5);
    NextNumber(k.modulus, [k.exponent] + ([k.d] + n5));
    assert NumberList(k) == [k.modulus] + ([k.exponent] + ([k.d] + n5));
  }

  function KeyBytes(k: Numbers): Bytes
    requires Encodable(NumberList(k)) && Moderate(KeyContents(k))
  {
    Tagged(0x30, KeyContents(k))
  }

  /** The contents of a PrivateKeyInfo: version zero, the algorithm, and the key in an octet string. */
  function InfoContents(k: Numbers): Bytes
    requires Encodable(NumberList(k)) && Moderate(KeyContents(k)) && Moderate(KeyBytes(k))
  {
    [0x02, 0x01, 0x00] + OID_RSA_ENCRYPTION + Tagged(0x04, KeyBytes(k))
  }

  function InfoBytes(k: Numbers): Bytes
    requires Encodable(NumberList(k)) && Moderate(KeyContents(k)) && Moderate(KeyBytes(k)) && Moderate(InfoContents(k))
  {
    Tagged(0x30, InfoContents(k))
  }

  // ----- The decoding -----

  function ParseByte(data: Bytes): Result<byte> {
    if data == [] then Fail(EndOfStream) else Ok(data[0], data[1..])
  }

  /** Two bytes, the less significant first. */
  function ParseUInt16(data: Bytes): Result<nat> {
    if |data| < 2 then Fail(EndOfStream) else Ok(data[0] as nat + 0x100 * data[1] as nat, data[2..])
  }

  /** As many of the bytes as there are. */
  function ParseBytes(n: int, data: Bytes): Result<Bytes> {
    if n < 0 then Fail(NegativeCount)
    else if n <= |data| then Ok(data[..n], data[n..])
    else Ok(data, [])
  }

  /** The number that 32 bits stand for. */
  function Signed32(n: nat): int {
    var m := n % 0x1_0000_0000;
    if m < 0x8000_0000 then m else m - 0x1_0000_0000
  }

  function ParseNumber(n: nat, data: Bytes): Result<nat> {
    if |data| < n then Fail(EndOfStream) else Ok(ValueOf(data[..n]), data[n..])
  }

  function ParseFieldLength(data: Bytes): Result<int> {
    var b :- ParseByte(data);
    if b.value <= 0x80 then Ok(b.value as int, b.rest)
    else
      var n := (b.value % 0x10) as nat;
      if n > 4 then Fail(if b.rest == [] then EndOfStream else IndexOutOfRange)
      else
        var v :- ParseNumber(n, b.rest);
        Ok(Signed32(v.value), v.rest)
  }

  function StripZeros(count: int, data: Bytes): Result<int>
    decreases |data|
  {
    if data == [] then Fail(EndOfStream)
    else if data[0] == 0 then StripZeros(count - 1, data[1..])
    else Ok(count, data)
  }

  function ParseIntegerSize(data: Bytes): Result<int> {
    var b :- ParseByte(data);
    if b.value != 0x02 then Ok(0, b.rest)
    else
      var count :- ParseFieldLength(b.rest);
      StripZeros(count.value, count.rest)
  }

  function ParseInteger(data: Bytes): Result<Bytes> {
    var elems :- ParseIntegerSize(data);
    ParseBytes(elems.value, elems.rest)
  }

  /** Whether a sequence begins here whose length takes one or two further bytes. */
  function ParseHeader(data: Bytes): Result<bool> {
    var twobytes :- ParseUInt16(data);
    if twobytes.value == 0x8130 then
      var b :- ParseByte(twobytes.rest);
      Ok(true, b.rest)
    else if twobytes.value == 0x8230 then
      var b :- ParseUInt16(twobytes.rest);
      Ok(true, b.rest)
    else Ok(false, twobytes.rest)
  }

  /** All components of the key are integers in sequence. */
  function ParseNumbers(data: Bytes): Result<Key> {
    var modulus :- ParseInteger(data);
    var exponent :- ParseInteger(modulus.rest);
    var d :- ParseInteger(exponent.rest);
    var p :- ParseInteger(d.rest);
    var q :- ParseInteger(p.rest);
    var dp :- ParseInteger(q.rest);
    var dq :- ParseInteger(dp.rest);
    var inverseQ :- ParseInteger(dq.rest);
    Ok(Parameters(modulus.value, exponent.value, d.value, p.value, q.value, dp.value, dq.value, inverseQ.value),
       inverseQ.rest)
  }

  /** Whether a sequence begins here with version zero. */
  function ParseKeyVersion(data: Bytes): Result<bool> {
    var isSequence :- ParseHeader(data);
    if !isSequence.value then isSequence
    else
      var version :- ParseUInt16(isSequence.rest);
      if version.value != 0x0102 then Ok(false, version.rest)
      else
        var b :- ParseByte(version.rest);
        Ok(b.value == 0x00, b.rest)
  }

  function ParseKey(data: Bytes): Result<Key> {
    var isKey :- ParseKeyVersion(data);
    if !isKey.value then Ok(Default, isKey.rest) else ParseNumbers(isKey.rest)
  }

  /** The length of the octet string is skipped, not used. */
  function SkipLength(data: Bytes): Result<byte> {
    var b :- ParseByte(data);
    if b.value == 0x81 then ParseByte(b.rest)
    else if b.value == 0x82 then
      var w :- ParseUInt16(b.rest);
      Ok(b.value, w.rest)
    else b
  }

  predicate IsRsaEncryption(oid: Bytes) {
    oid == OID_RSA_ENCRYPTION
  }

  /** Whether a sequence begins here with version zero; the tag and the bytes of the version are read as one
      byte and two. */
  function ParseInfoVersion(data: Bytes): Result<bool> {
    var isSequence :- ParseHeader(data);
    if !isSequence.value then isSequence
    else
      var tag :- ParseByte(isSequence.rest);
      if tag.value != 0x02 then Ok(false, tag.rest)
      else
        var version :- ParseUInt16(tag.rest);
        Ok(version.value == 0x0001, version.rest)
  }

  /** Whether the algorithm and the tag of an octet string follow. */
  function ParseAlgorithm(data: Bytes): Result<bool> {
    var oid :- ParseBytes(15, data);
    if !IsRsaEncryption(oid.value) then Ok(false, oid.rest)
    else
      var b :- ParseByte(oid.rest);
      Ok(b.value == 0x04, b.rest)
  }

  /** Whether everything before the key is as expected. */
  function ParseEnvelope(data: Bytes): Result<bool> {
    var isInfo :- ParseInfoVersion(data);
    if !isInfo.value then isInfo
    else
      var isRsa :- ParseAlgorithm(isInfo.rest);
      if !isRsa.value then isRsa
      else
        var length :- SkipLength(isRsa.rest);
        Ok(true, length.rest)
  }

  function ParseInfo(data: Bytes): Result<Key> {
    var isEnvelope :- ParseEnvelope(data);
    if !isEnvelope.value then Ok(Default, isEnvelope.rest) else ParseKey(isEnvelope.rest)
  }

  // ----- What is taken for a key -----

  /** The tag of a sequence and a length of one byte, or of two, whatever they are. */
  predicate IsHeader(h: Bytes) {
    (|h| == 3 && h[0] == 0x30 && h[1] == 0x81) || (|h| == 4 && h[0] == 0x30 && h[1] == 0x82)
  }

  const VERSION: Bytes := [0x02, 0x01, 0x00]

  /** The bytes behind a header and what follows it, where the data begin like this. */
  ghost predicate Opens(data: Bytes, what: Bytes, rest: Bytes) {
    exists h: Bytes :: IsHeader(h) && data == h + what + rest
  }

  lemma HeaderIsRead(data: Bytes, rest: Bytes)
    ensures ParseHeader(data) == Ok(true, rest) <==> exists h: Bytes :: IsHeader(h) && data == h + rest
  {
    if ParseHeader(data) == Ok(true, rest) {
      var n := if data[1] == 0x81 then 3 else 4;
      assert data[2..][|data[2..]| - |rest|..] == rest;
      assert IsHeader(data[..n]) && data == data[..n] + rest;
    }
    if h: Bytes :| IsHeader(h) && data == h + rest {
      assert data[0] == h[0] && data[1] == h[1];
      assert data[2..] == h[2..] + rest;
      if |h| == 3 { assert data[2..][1..] == rest; } else { assert data[2..][2..] == rest; }
    }
  }

  /** The numbers are read where a header and version zero stand in front of them, and nowhere else. */
  lemma KeyVersionIsReadExactlyWhen(data: Bytes, rest: Bytes)
    ensures ParseKeyVersion(data) == Ok(true, rest) <==> Opens(data, VERSION, rest)
  {
    hide ParseHeader, IsHeader;
    if ParseKeyVersion(data) == Ok(true, rest) {
      var body := ParseHeader(data).rest;
      HeaderIsRead(data, body);
      var h: Bytes :| IsHeader(h) && data == h + body;
      assert body == VERSION + rest;
      Grouped(h, VERSION, rest);
    }
    if Opens(data, VERSION, rest) {
      var h: Bytes :| IsHeader(h) && data == h + VERSION + rest;
      Grouped(h, VERSION, rest);
      HeaderIsRead(data, VERSION + rest);
      assert (VERSION + rest)[2..][1..] == rest;
    }
  }

  lemma InfoVersionIsReadExactlyWhen(data: Bytes, rest: Bytes)
    ensures ParseInfoVersion(data) == Ok(true, rest) <==> Opens(data, VERSION, rest)
  {
    hide ParseHeader, IsHeader;
    if ParseInfoVersion(data) == Ok(true, rest) {
      var body := ParseHeader(data).rest;
      HeaderIsRead(data, body);
      var h: Bytes :| IsHeader(h) && data == h + body;
      assert body == VERSION + rest;
      Grouped(h, VERSION, rest);
    }
    if Opens(data, VERSION, rest) {
      var h: Bytes :| IsHeader(h) && data == h + VERSION + rest;
      Grouped(h, VERSION, rest);
      HeaderIsRead(data, VERSION + rest);
      assert (VERSION + rest)[1..][2..] == rest;
    }
  }

  /** Only this algorithm and the tag of an octet string will do. */
  lemma AlgorithmIsReadExactlyWhen(data: Bytes, rest: Bytes)
    ensures ParseAlgorithm(data) == Ok(true, rest) <==> data == OID_RSA_ENCRYPTION + [0x04] + rest
  {
    if ParseAlgorithm(data) == Ok(true, rest) {
      assert data == data[..15] + [data[15]] + rest;
    }
    if data == OID_RSA_ENCRYPTION + [0x04] + rest {
      assert data[..15] == OID_RSA_ENCRYPTION && data[15..] == [0x04] + rest;
    }
  }

  /** A bare key is decoded only behind a header and version zero; everything else that can be read is no key. */
  lemma OnlyKeysAreDecoded(data: Bytes)
    requires ParseKey(data).Ok? && ParseKey(data).value != Default
    ensures exists rest: Bytes :: Opens(data, VERSION, rest) && ParseKey(data) == ParseNumbers(rest)
  {
    hide ParseNumbers, ParseKeyVersion, Opens;
    var rest := ParseKeyVersion(data).rest;
    KeyVersionIsReadExactlyWhen(data, rest);
  }

  /** A wrapped key is decoded only where version zero, this algorithm and the tag of an octet string precede it. */
  lemma OnlyRsaKeysAreDecoded(data: Bytes)
    requires ParseInfo(data).Ok? && ParseInfo(data).value != Default
    ensures exists rest: Bytes :: Opens(data, VERSION, OID_RSA_ENCRYPTION + [0x04] + rest)
  {
    hide ParseKey, ParseInfoVersion, ParseAlgorithm, Opens;
    var body := ParseInfoVersion(data).rest;
    InfoVersionIsReadExactlyWhen(data, body);
    AlgorithmIsReadExactlyWhen(body, ParseAlgorithm(body).rest);
  }

  // ----- Decoding gives back what was encoded -----

  /** Reading a length inverts writing it. */
  lemma LengthComesBack(n: nat, rest: Bytes)
    requires n < MAX_LENGTH
    ensures ParseFieldLength(LengthBytes(n) + rest) == Ok(n, rest)
  {
    hide Magnitude, ValueOf, ParseFieldLength;
    if n < 0x80 {
      ShortLengthIsRead(n as byte, rest);
    } else {
      LengthsHaveFourBytes(n);
      MagnitudeHasValue(n);
      LongLengthIsRead(Magnitude(n), rest);
    }
  }

  lemma ShortLengthIsRead(b: byte, rest: Bytes)
    requires b < 0x80
    ensures ParseFieldLength([b] + rest) == Ok(b as int, rest)
  {
    assert ([b] + rest)[1..] == rest;
  }

  lemma LongLengthIsRead(m: Bytes, rest: Bytes)
    requires 1 <= |m| <= 4 && ValueOf(m) < MAX_LENGTH
    ensures ParseFieldLength([(0x80 + |m|) as byte] + m + rest) == Ok(ValueOf(m), rest)
  {
    hide ValueOf, ParseNumber;
    var b := (0x80 + |m|) as byte;
    Grouped([b], m, rest);
    assert ([b] + (m + rest))[1..] == m + rest;
    LowBits(|m|);
    NumberIsRead(m, rest);
    SmallIsSigned(ValueOf(m));
  }

  lemma LowBits(k: nat)
    requires k <= 4
    ensures ((0x80 + k) as byte % 0x10) as nat == k
  {
  }

  lemma NumberIsRead(m: Bytes, rest: Bytes)
    ensures ParseNumber(|m|, m + rest) == Ok(ValueOf(m), rest)
  {
    hide ValueOf;
    assert (m + rest)[..|m|] == m && (m + rest)[|m|..] == rest;
  }

  lemma SmallIsSigned(n: nat)
    requires n < MAX_LENGTH
    ensures Signed32(n) == n
  {
  }

  lemma SizeComesBack(n: nat, rest: Bytes)
    requires n > 0 && Moderate(IntegerContents(n))
    ensures ParseIntegerSize(Tagged(0x02, IntegerContents(n)) + rest) == Ok(|Magnitude(n)|, Magnitude(n) + rest)
  {
    hide LengthBytes, ParseFieldLength;
    var c, m := IntegerContents(n), Magnitude(n);
    var data := Tagged(0x02, c) + rest;
    assert data[0] == 0x02 && data[1..] == LengthBytes(|c|) + (c + rest);
    LengthComesBack(|c|, c + rest);
    assert (m + rest)[0] == m[0];
    assert StripZeros(|m|, m + rest) == Ok(|m|, m + rest);
    if c != m {
      assert (c + rest)[0] == 0 && (c + rest)[1..] == m + rest;
      assert |c| - 1 == |m|;
    }
  }

  /** An integer reads back as its magnitude, without the zero that its encoding may begin with. */
  lemma IntegerComesBack(n: nat, rest: Bytes)
    requires n > 0 && Moderate(IntegerContents(n))
    ensures ParseInteger(Tagged(0x02, IntegerContents(n)) + rest) == Ok(Magnitude(n), rest)
  {
    hide ParseIntegerSize;
    SizeComesBack(n, rest);
    var m := Magnitude(n);
    assert (m + rest)[..|m|] == m && (m + rest)[|m|..] == rest;
  }

  lemma NextInteger(ns: seq<nat>, rest: Bytes)
    requires Encodable(ns) && ns != []
    ensures Encodable(ns[1..])
    ensures ParseInteger(IntegersBytes(ns) + rest) == Ok(Magnitude(ns[0]), IntegersBytes(ns[1..]) + rest)
  {
    hide ParseInteger, IntegerContents, Tagged;
    Grouped(Tagged(0x02, IntegerContents(ns[0])), IntegersBytes(ns[1..]), rest);
    IntegerComesBack(ns[0], IntegersBytes(ns[1..]) + rest);
  }

  /** A sequence is recognized exactly when its length takes one or two further bytes. */
  lemma HeaderComesBack(contents: Bytes)
    requires Moderate(contents)
    ensures var r := ParseHeader(Tagged(0x30, contents));
            r.Ok? && (r.value <==> 0x80 <= |contents| <= 0xFFFF) && (r.value ==> r.rest == contents)
  {
    hide Magnitude;
    var n := |contents|;
    var l := LengthBytes(n);
    var data := Tagged(0x30, contents);
    LengthsHaveFourBytes(n);
    if n < 0x80 {
      assert data[1] == n as byte;
    } else {
      LengthSize(n);
      var k := |Magnitude(n)|;
      assert l[0] == (0x80 + k) as byte && l[1..] == Magnitude(n);
      assert data[1] == l[0] && data[2..] == Magnitude(n) + contents;
      assert (Magnitude(n) + contents)[k..] == contents;
    }
  }

  lemma LengthSize(n: nat)
    requires 0x80 <= n < MAX_LENGTH
    ensures |Magnitude(n)| == 1 <==> n <= 0xFF
    ensures |Magnitude(n)| == 2 <==> 0xFF < n <= 0xFFFF
    ensures |Magnitude(n)| >= 1
  {
    if n > 0xFF {
      assert Magnitude(n) == Magnitude(n / 0x100) + [(n % 0x100) as byte];
      if n > 0xFFFF {
        assert Magnitude(n / 0x100) == Magnitude(n / 0x1_0000) + [(n / 0x100 % 0x100) as byte] by {
          assert n / 0x100 / 0x100 == n / 0x1_0000;
        }
      } else {
        assert n / 0x100 / 0x100 == 0;
      }
    } else {
      assert n / 0x100 == 0;
    }
  }

  function Decoded(k: Numbers): Key {
    Parameters(Magnitude(k.modulus), Magnitude(k.exponent), Magnitude(k.d), Magnitude(k.p), Magnitude(k.q),
               Magnitude(k.dp), Magnitude(k.dq), Magnitude(k.inverseQ))
  }

  lemma NumbersComeBack(k: Numbers)
    requires Encodable(NumberList(k)) && 0x80 <= |KeyContents(k)| <= 0xFFFF
    ensures ParseKey(KeyBytes(k)) == Ok(Decoded(k), [])
  {
    hide ParseInteger, ParseHeader, Tagged, Magnitude, IntegersBytes, Encodable;
    HeaderComesBack(KeyContents(k));
    var ns := NumberList(k);
    var contents := KeyContents(k);
    assert contents[0] == 0x02 && contents[1] == 0x01 && contents[2] == 0x00;
    assert contents[2..][1..] == IntegersBytes(ns) + [];
    NextInteger(ns, []);
    NextInteger(ns[1..], []);
    NextInteger(ns[1..][1..], []);
    NextInteger(ns[1..][1..][1..], []);
    NextInteger(ns[1..][1..][1..][1..], []);
    NextInteger(ns[1..][1..][1..][1..][1..], []);
    NextInteger(ns[1..][1..][1..][1..][1..][1..], []);
    NextInteger(ns[1..][1..][1..][1..][1..][1..][1..], []);
    NothingLeft(ns[1..][1..][1..][1..][1..][1..][1..][1..]);
  }

  lemma NothingLeft(ns: seq<nat>)
    requires ns == []
    ensures Encodable(ns) && IntegersBytes(ns) + [] == []
  {
  }

  /** A bare key decodes to the magnitudes of its numbers when its contents have 128 to 65535 bytes, and to
      the default value otherwise. */
  lemma BareKeyComesBack(k: Numbers)
    requires Encodable(NumberList(k)) && Moderate(KeyContents(k))
    ensures ParseKey(KeyBytes(k)).Ok?
    ensures ParseKey(KeyBytes(k)).value == if 0x80 <= |KeyContents(k)| <= 0xFFFF then Decoded(k) else Default
  {
    if 0x80 <= |KeyContents(k)| <= 0xFFFF {
      NumbersComeBack(k);
    } else {
      HeaderComesBack(KeyContents(k));
    }
  }

  /** The length of an octet string of up to 65535 bytes is skipped. */
  lemma LengthIsSkipped(n: nat, rest: Bytes)
    requires n <= 0xFFFF
    ensures SkipLength(LengthBytes(n) + rest).Ok? && SkipLength(LengthBytes(n) + rest).rest == rest
  {
    var data := LengthBytes(n) + rest;
    if n < 0x80 {
      assert data[1..] == rest;
    } else {
      LengthSize(n);
      assert data[1..] == Magnitude(n) + rest;
      if n <= 0xFF {
        assert (Magnitude(n) + rest)[1..] == rest;
      } else {
        assert (Magnitude(n) + rest)[2..] == rest;
      }
    }
  }

  lemma OctetsComeBack(inner: Bytes)
    requires Moderate(inner) && |inner| <= 0xFFFF
    ensures var data := Tagged(0x04, inner);
            data[0] == 0x04 && SkipLength(data[1..]).Ok? && SkipLength(data[1..]).rest == inner
  {
    hide SkipLength, LengthBytes;
    LengthIsSkipped(|inner|, inner);
    assert Tagged(0x04, inner)[1..] == LengthBytes(|inner|) + inner;
  }

  lemma InfoUnwraps(k: Numbers)
    requires Encodable(NumberList(k)) && Moderate(KeyContents(k)) && Moderate(KeyBytes(k))
            && 0x80 <= |InfoContents(k)| <= 0xFFFF
    ensures ParseInfo(InfoBytes(k)) == ParseKey(KeyBytes(k))
  {
    hide ParseKey, ParseHeader, SkipLength, Tagged, KeyContents, KeyBytes, Encodable;
    var contents, inner := InfoContents(k), KeyBytes(k);
    HeaderComesBack(contents);
    TaggedIsLonger(0x04, inner);
    OctetsComeBack(inner);
    var tail := Tagged(0x04, inner);
    assert contents == [0x02, 0x01, 0x00] + (OID_RSA_ENCRYPTION + tail);
    assert contents[1..][2..] == OID_RSA_ENCRYPTION + tail;
    assert (OID_RSA_ENCRYPTION + tail)[..15] == OID_RSA_ENCRYPTION && (OID_RSA_ENCRYPTION + tail)[15..] == tail;
  }

  lemma TaggedIsLonger(tag: byte, contents: Bytes)
    requires Moderate(contents)
    ensures |Tagged(tag, contents)| > |contents|
  {
  }

  /** A wrapped key decodes to the magnitudes of its numbers when the key's own contents have at least 128
      bytes and the contents of the wrapping at most 65535, and to the default value otherwise. */
  lemma WrappedKeyComesBack(k: Numbers)
    requires Encodable(NumberList(k)) && Moderate(KeyContents(k)) && Moderate(KeyBytes(k)) && Moderate(InfoContents(k))
    ensures ParseInfo(InfoBytes(k)).Ok?
    ensures ParseInfo(InfoBytes(k)).value == if 0x80 <= |KeyContents(k)|
            && |InfoContents(k)| <= 0xFFFF then Decoded(k) else Default
  {
    hide Tagged, ParseKey, Decoded, Encodable;
    HeaderComesBack(InfoContents(k));
    TaggedIsLonger(0x30, KeyContents(k));
    TaggedIsLonger(0x04, KeyBytes(k));
    BareKeyComesBack(k);
    if 0x80 <= |InfoContents(k)| <= 0xFFFF {
      InfoUnwraps(k);
    }
  }

  // ----- The reader and its cursor -----

  type Reading<+T> = Outcome<T, Failure>

  class BinaryReader {
    const bytes: Bytes
    var position: nat

    ghost predicate Valid()
      reads this
    {
      position <= |bytes|
    }

    ghost function Rest(): Bytes
      requires Valid()
      reads this
    {
      bytes[position..]
    }

    constructor (bytes: Bytes)
      ensures Valid() && this.bytes == bytes && Rest() == bytes
    {
      this.bytes, position := bytes, 0;
    }

    method ReadByte() returns (r: Reading<byte>)
      requires Valid()
      modifies this
      ensures Valid() && Agrees(ParseByte(old(Rest())), r, Rest())
      ensures r.Value? ==> position == old(position) + 1
    {
      if position == |bytes| {
        return Failed(EndOfStream);
      }
      r := Value(bytes[position]);
      position := position + 1;
    }

    method ReadUInt16() returns (r: Reading<nat>)
      requires Valid()
      modifies this
      ensures Valid() && Agrees(ParseUInt16(old(Rest())), r, Rest())
    {
      if position + 2 > |bytes| {
        return Failed(EndOfStream);
      }
      r := Value(bytes[position] as nat + 0x100 * bytes[position + 1] as nat);
      position := position + 2;
    }

    method ReadBytes(count: int) returns (r: Reading<Bytes>)
      requires Valid()
      modifies this
      ensures Valid() && Agrees(ParseBytes(count, old(Rest())), r, Rest())
    {
      if count < 0 {
        return Failed(NegativeCount);
      }
      var end := if position + count <= |bytes| then position + count else |bytes|;
      r := Value(bytes[position..end]);
      assert count <= |Rest()| ==> Rest()[..count] == bytes[position..end] && Rest()[count..] == bytes[end..];
      assert count > |Rest()| ==> Rest() == bytes[position..end] && bytes[end..] == [];
      position := end;
    }

    /** Goes back over the byte that was read last. */
    method StepBack()
      requires Valid() && position > 0
      modifies this
      ensures Valid() && position == old(position) - 1
    {
      position := position - 1;
    }

    method ReadHeader() returns (r: Reading<bool>)
      requires Valid()
      modifies this
      ensures Valid() && Agrees(ParseHeader(old(Rest())), r, Rest())
    {
      hide ParseByte, ParseUInt16;
      var twobytes :- ReadUInt16();
      if twobytes == 0x8130 {
        var b :- ReadByte();
      } else if twobytes == 0x8230 {
        var w :- ReadUInt16();
      } else {
        return Value(false);
      }
      r := Value(true);
    }

    method GetFieldLength() returns (r: Reading<int>)
      requires Valid()
      modifies this
      ensures Valid() && Agrees(ParseFieldLength(old(Rest())), r, Rest())
    {
      hide ValueOf, Signed32;
      var b :- ReadByte();
      if b <= 0x80 {
        return Value(b as int);
      }
      var bytesToRead := (b % 0x10) as int;
      if bytesToRead > 4 {
        // The first byte is read before its index is found to be out of range.
        var first :- ReadByte();
        return Failed(IndexOutOfRange);
      }
      var n :- ReadBackwards(bytesToRead);
      r := Value(Signed32(n));
    }

    /** Fills an array of four bytes backwards and converts it, the least significant byte first. */
    method ReadBackwards(bytesToRead: nat) returns (r: Reading<nat>)
      requires Valid() && bytesToRead <= 4
      modifies this
      ensures Valid() && Agrees(ParseNumber(bytesToRead, old(Rest())), r, Rest())
    {
      hide ValueOf, LittleEndian, FilledBackwards, ParseNumber, ParseByte;
      ghost var rest := Rest();
      var lengthArray := new byte[4](_ => 0);
      var i := 4 - bytesToRead;
      NothingFilled(lengthArray[..], rest, bytesToRead);
      while i < 4
        invariant 4 - bytesToRead <= i <= 4 && Valid() && i - (4 - bytesToRead) <= |rest|
        invariant Rest() == rest[i - (4 - bytesToRead)..]
        invariant FilledBackwards(lengthArray[..], rest, bytesToRead, i - (4 - bytesToRead))
      {
        ghost var was := lengthArray[..];
        BytesFollow(rest, i - (4 - bytesToRead), bytesToRead);
        var next :- ReadByte();
        lengthArray[4 - i - 1] := next;
        assert lengthArray[..] == was[4 - i - 1 := next];
        FillsOn(was, rest, bytesToRead, i - (4 - bytesToRead), next);
        i := i + 1;
      }
      FilledHasValue(lengthArray[..], rest, bytesToRead);
      BytesAreNumber(rest, bytesToRead);
      r := Value(LittleEndian(lengthArray[..]));
    }

    /** The length of an integer without its leading zeros, which are skipped. */
    method GetIntegerSize() returns (r: Reading<int>)
      requires Valid()
      modifies this
      ensures Valid() && Agrees(ParseIntegerSize(old(Rest())), r, Rest())
    {
      hide ParseFieldLength, StripZeros;
      var b :- ReadByte();
      if b != 0x02 {
        return Value(0);
      }
      var count :- GetFieldLength();
      r := SkipZeros(count);
    }

    method SkipZeros(length: int) returns (r: Reading<int>)
      requires Valid()
      modifies this
      ensures Valid() && Agrees(StripZeros(length, old(Rest())), r, Rest())
    {
      var count := length;
      ghost var all := Rest();
      var next :- ReadByte();
      while next == 0x00
        invariant Valid() && position > 0 && next == bytes[position - 1]
        invariant StripZeros(length, all) == StripZeros(count, bytes[position - 1..])
        decreases |bytes| - position
      {
        count := count - 1;
        assert bytes[position - 1..][1..] == Rest();
        next :- ReadByte();
      }
      StepBack();
      r := Value(count);
    }

    method ReadInteger() returns (r: Reading<Bytes>)
      requires Valid()
      modifies this
      ensures Valid() && Agrees(ParseInteger(old(Rest())), r, Rest())
    {
      hide ParseIntegerSize, ParseBytes;
      var elems :- GetIntegerSize();
      r := ReadBytes(elems);
    }

    method ReadRemaining() returns (r: Bytes)
      requires Valid()
      modifies this
      ensures r == old(Rest())
    {
      ghost var rest := Rest();
      var b := ReadBytes(|bytes| - position);
      assert rest[..|rest|] == rest;
      r := b.value;
    }

    method ReadKeyVersion() returns (r: Reading<bool>)
      requires Valid()
      modifies this
      ensures Valid() && Agrees(ParseKeyVersion(old(Rest())), r, Rest())
    {
      hide ParseHeader, ParseByte, ParseUInt16;
      var isSequence :- ReadHeader();
      if !isSequence {
        return Value(false);
      }
      var version :- ReadUInt16();
      if version != 0x0102 {
        return Value(false);
      }
      var b :- ReadByte();
      r := Value(b == 0x00);
    }

    method ReadInfoVersion() returns (r: Reading<bool>)
      requires Valid()
      modifies this
      ensures Valid() && Agrees(ParseInfoVersion(old(Rest())), r, Rest())
    {
      hide ParseHeader, ParseByte, ParseUInt16;
      var isSequence :- ReadHeader();
      if !isSequence {
        return Value(false);
      }
      var tag :- ReadByte();
      if tag != 0x02 {
        return Value(false);
      }
      var version :- ReadUInt16();
      r := Value(version == 0x0001);
    }

    method ReadAlgorithm() returns (r: Reading<bool>)
      requires Valid()
      modifies this
      ensures Valid() && Agrees(ParseAlgorithm(old(Rest())), r, Rest())
    {
      hide ParseByte, ParseBytes, IsRsaEncryption;
      var oid :- ReadBytes(15);
      if !IsRsaEncryption(oid) {
        return Value(false);
      }
      var b :- ReadByte();
      r := Value(b == 0x04);
    }

    method ReadEnvelope() returns (r: Reading<bool>)
      requires Valid()
      modifies this
      ensures Valid() && Agrees(ParseEnvelope(old(Rest())), r, Rest())
    {
      hide ParseInfoVersion, ParseAlgorithm, SkipLength;
      var isInfo :- ReadInfoVersion();
      if !isInfo {
        return Value(false);
      }
      var isRsa :- ReadAlgorithm();
      if !isRsa {
        return Value(false);
      }
      var length :- ReadLength();
      r := Value(true);
    }

    method ReadNumbers() returns (r: Reading<Key>)
      requires Valid()
      modifies this
      ensures Valid() && Agrees(ParseNumbers(old(Rest())), r, Rest())
    {
      hide ParseInteger;
      var modulus :- ReadInteger();
      var exponent :- ReadInteger();
      var d :- ReadInteger();
      var p :- ReadInteger();
      var q :- ReadInteger();
      var dp :- ReadInteger();
      var dq :- ReadInteger();
      var inverseQ :- ReadInteger();
      r := Value(Parameters(modulus, exponent, d, p, q, dp, dq, inverseQ));
    }

    method ReadKey() returns (r: Reading<Key>)
      requires Valid()
      modifies this
      ensures Valid() && Agrees(ParseKey(old(Rest())), r, Rest())
    {
      hide ParseKeyVersion, ParseNumbers;
      var isKey :- ReadKeyVersion();
      if !isKey {
        return Value(Default);
      }
      r := ReadNumbers();
    }

    method ReadLength() returns (r: Reading<byte>)
      requires Valid()
      modifies this
      ensures Valid() && Agrees(SkipLength(old(Rest())), r, Rest())
    {
      hide ParseByte, ParseUInt16;
      var b :- ReadByte();
      if b == 0x81 {
        b :- ReadByte();
      } else if b == 0x82 {
        var w :- ReadUInt16();
      }
      r := Value(b);
    }
  }

  /** The number that the bytes stand for when the least significant one comes first. */
  function LittleEndian(b: Bytes): nat {
    if b == [] then 0 else b[0] as nat + 0x100 * LittleEndian(b[1..])
  }

  /** Four bytes that hold some bytes backwards have the value of these. */
  lemma BackwardsHasValue(backwards: Bytes, b: Bytes)
    requires |backwards| == 4 && |b| <= 4
    requires forall j :: 0 <= j < |b| ==> backwards[|b| - 1 - j] == b[j]
    requires forall j :: |b| <= j < 4 ==> backwards[j] == 0
    ensures LittleEndian(backwards) == ValueOf(b)
  {
    BackwardsFrom(backwards[..|b|], b);
    ZerosAddNothing(backwards, |b|);
  }

  /** What the next byte is, and that there is no number where there is none. */
  lemma BytesFollow(data: Bytes, k: nat, n: nat)
    requires k <= |data| && k < n
    ensures ParseByte(data[k..]) == if k < |data| then Ok(data[k], data[k + 1..]) else Fail(EndOfStream)
    ensures k == |data| ==> ParseNumber(n, data) == Fail(EndOfStream)
  {
  }

  lemma BytesAreNumber(data: Bytes, n: nat)
    requires n <= |data|
    ensures ParseNumber(n, data) == Ok(ValueOf(data[..n]), data[n..])
  {
  }

  /** The first `k` of the bytes stand in reverse order below the place of the `n`-th. */
  predicate FilledBackwards(a: Bytes, b: Bytes, n: nat, k: nat) {
    && |a| == 4 && k <= n <= 4 && k <= |b|
    && (forall j :: 0 <= j < k ==> a[n - 1 - j] == b[j])
    && (forall j :: n <= j < 4 ==> a[j] == 0)
  }

  lemma NothingFilled(a: Bytes, b: Bytes, n: nat)
    requires |a| == 4 && n <= 4 && forall j :: 0 <= j < 4 ==> a[j] == 0
    ensures FilledBackwards(a, b, n, 0)
  {
  }

  lemma FillsOn(a: Bytes, b: Bytes, n: nat, k: nat, next: byte)
    requires FilledBackwards(a, b, n, k) && k < n && k < |b| && next == b[k]
    ensures FilledBackwards(a[n - 1 - k := next], b, n, k + 1)
  {
  }

  lemma FilledHasValue(a: Bytes, b: Bytes, n: nat)
    requires FilledBackwards(a, b, n, n)
    ensures LittleEndian(a) == ValueOf(b[..n])
  {
    hide LittleEndian, ValueOf;
    BackwardsHasValue(a, b[..n]);
  }

  lemma {:induction false} BackwardsFrom(backwards: Bytes, b: Bytes)
    requires |backwards| == |b| && forall j :: 0 <= j < |b| ==> backwards[|b| - 1 - j] == b[j]
    ensures LittleEndian(backwards) == ValueOf(b)
    decreases |b|
  {
    if b != [] {
      var n := |b| - 1;
      forall j | 0 <= j < n ensures backwards[1..][n - 1 - j] == b[..n][j] {
        assert backwards[|b| - 1 - j] == b[j];
      }
      BackwardsFrom(backwards[1..], b[..n]);
    }
  }

  lemma {:induction false} ZerosAddNothing(b: Bytes, k: nat)
    requires k <= |b| && forall j :: k <= j < |b| ==> b[j] == 0
    ensures LittleEndian(b) == LittleEndian(b[..k])
    decreases |b|
  {
    if b != [] {
      ZerosAddNothing(b[1..], if k == 0 then 0 else k - 1);
      if k > 0 { assert b[..k][1..] == b[1..][..k - 1]; }
    }
  }

  /** Decodes a bare key. */
  method DecodeRSAPrivateKey(rsaPrivKey: Bytes) returns (r: Reading<Key>)
    ensures r == OutcomeOf(ParseKey(rsaPrivKey))
  {
    hide ParseKey;
    var reader := new BinaryReader(rsaPrivKey);
    r := reader.ReadKey();
  }

  /** Decodes a wrapped key. */
  method DecodePrivateKey(pkcs8: Bytes) returns (r: Reading<Key>)
    ensures r == OutcomeOf(ParseInfo(pkcs8))
  {
    hide ParseEnvelope, ParseKey;
    var reader := new BinaryReader(pkcs8);
    var isEnvelope :- reader.ReadEnvelope();
    if !isEnvelope {
      return Value(Default);
    }
    var rsaPrivKey := reader.ReadRemaining();
    r := DecodeRSAPrivateKey(rsaPrivKey);
  }
}
