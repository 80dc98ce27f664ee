/** The compressed price batch wire: strictly canonical base64 around a bounded inflate
    (src/price_batch_compression.js). zlib and UTF-8 are parameters. */
module PriceBatchWire {
  import opened JsValues

  const PRICE_WIRE_MAX_BYTES := 8189
  const PRICE_BATCH_MAX_INFLATE_RATIO := 150

  // ----------------------------------------------------------------- base64

  type Sextet = v: int | 0 <= v < 64

  function Symbol(v: Sextet): char {
    if v < 26 then (v + 'A' as int) as char
    else if v < 52 then (v - 26 + 'a' as int) as char
    else if v < 62 then (v - 52 + '0' as int) as char
    else if v == 62 then '+'
    else '/'
  }

  predicate IsSymbol(c: char) { 'A' <= c <= 'Z' || 'a' <= c <= 'z' || '0' <= c <= '9' || c == '+' || c == '/' }

  function Value(c: char): Sextet
    requires IsSymbol(c)
  {
    if 'A' <= c <= 'Z' then c as int - 'A' as int
    else if 'a' <= c <= 'z' then c as int - 'a' as int + 26
    else if '0' <= c <= '9' then c as int - '0' as int + 52
    else if c == '+' then 62
    else 63
  }

  lemma SymbolValue(v: Sextet)
    ensures IsSymbol(Symbol(v)) && Value(Symbol(v)) == v && Symbol(v) != '='
  {
  }

  /** One group of up to three bytes: section 4 of RFC 4648, unused trailing bits zero (section 3.5). */
  function EncodeGroup(b: seq<Byte>): string
    requires 1 <= |b| <= 3
  {
    if |b| == 1 then [Symbol(b[0] / 4), Symbol(b[0] % 4 * 16), '=', '=']
    else if |b| == 2 then [Symbol(b[0] / 4), Symbol(b[0] % 4 * 16 + b[1] / 16), Symbol(b[1] % 16 * 4), '=']
    else [Symbol(b[0] / 4), Symbol(b[0] % 4 * 16 + b[1] / 16), Symbol(b[1] % 16 * 4 + b[2] / 64), Symbol(b[2] % 64)]
  }

  /** The one padded base64 spelling of b. */
  function Encode(b: seq<Byte>): string {
    if b == [] then "" else if |b| <= 3 then EncodeGroup(b) else EncodeGroup(b[..3]) + Encode(b[3..])
  }

  /** A length divisible by four and /^[A-Za-z0-9+/]+={0,2}$/. */
  predicate Shape(s: string) {
    && |s| % 4 == 0 && s != ""
    && (forall i :: 0 <= i < |s| - 2 ==> IsSymbol(s[i]))
    && (IsSymbol(s[|s| - 1]) ==> IsSymbol(s[|s| - 2]))
    && (!IsSymbol(s[|s| - 1]) ==> s[|s| - 1] == '=')
    && (!IsSymbol(s[|s| - 2]) ==> s[|s| - 2] == '=')
  }

  predicate GroupShape(q: string) {
    |q| == 4 && IsSymbol(q[0]) && IsSymbol(q[1]) && (IsSymbol(q[2]) || (q[2] == '=' && q[3] == '=')) && (IsSymbol(q[3]) || q[3] == '=')
  }

  /** Trailing bits of a partial group are dropped unread. */
  function DecodeGroup(q: string): seq<Byte>
    requires GroupShape(q)
  {
    var v0, v1 := Value(q[0]), Value(q[1]);
    if q[2] == '=' then [v0 * 4 + v1 / 16]
    else
      var v2 := Value(q[2]);
      if q[3] == '=' then [v0 * 4 + v1 / 16, v1 % 16 * 16 + v2 / 4]
      else [v0 * 4 + v1 / 16, v1 % 16 * 16 + v2 / 4, v2 % 4 * 64 + Value(q[3])]
  }

  /** The runtime's decoder on such strings. */
  function LenientDecode(s: string): seq<Byte>
    requires Shape(s)
  {
    if |s| == 4 then DecodeGroup(s) else DecodeGroup(s[..4]) + LenientDecode(s[4..])
  }

  /** None where the source returns null. */
  function DecodeCanonicalBase64(field: string): Option<seq<Byte>> {
    if !Shape(field) then None
    else
      var b := LenientDecode(field);
      if b == [] || Encode(b) != field then None else Some(b)
  }

  lemma OneByte(b0: Byte)
    ensures 0 <= b0 / 4 < 64 && 0 <= b0 % 4 * 16 < 64 && b0 / 4 * 4 + b0 % 4 * 16 / 16 == b0
  {
  }

  lemma TwoBytes(b0: Byte, b1: Byte, v1: int, v2: int)
    requires v1 == b0 % 4 * 16 + b1 / 16 && v2 == b1 % 16 * 4
    ensures 0 <= v1 < 64 && 0 <= v2 < 64 && b0 / 4 * 4 + v1 / 16 == b0 && v1 % 16 * 16 + v2 / 4 == b1
  {
  }

  lemma ThreeBytes(b0: Byte, b1: Byte, b2: Byte, v1: int, v2: int)
    requires v1 == b0 % 4 * 16 + b1 / 16 && v2 == b1 % 16 * 4 + b2 / 64
    ensures 0 <= v1 < 64 && 0 <= v2 < 64
    ensures b0 / 4 * 4 + v1 / 16 == b0 && v1 % 16 * 16 + v2 / 4 == b1 && v2 % 4 * 64 + b2 % 64 == b2
  {
  }

  lemma GroupRoundTrip(b: seq<Byte>)
    requires 1 <= |b| <= 3
    ensures GroupShape(EncodeGroup(b)) && DecodeGroup(EncodeGroup(b)) == b
    ensures |b| == 3 ==> IsSymbol(EncodeGroup(b)[2]) && IsSymbol(EncodeGroup(b)[3])
  {
    if |b| == 1 { OneByteTrip(b); } else if |b| == 2 { TwoByteTrip(b); } else { ThreeByteTrip(b); }
  }

  lemma OneByteTrip(b: seq<Byte>)
    requires |b| == 1
    ensures GroupShape(EncodeGroup(b)) && DecodeGroup(EncodeGroup(b)) == b
  {
    OneByte(b[0]);
    SymbolValue(b[0] / 4);
    SymbolValue(b[0] % 4 * 16);
  }

  lemma TwoByteTrip(b: seq<Byte>)
    requires |b| == 2
    ensures GroupShape(EncodeGroup(b)) && DecodeGroup(EncodeGroup(b)) == b
  {
    var v1, v2 := b[0] % 4 * 16 + b[1] / 16, b[1] % 16 * 4;
    TwoBytes(b[0], b[1], v1, v2);
    SymbolValue(b[0] / 4);
    SymbolValue(v1);
    SymbolValue(v2);
  }

  lemma ThreeByteTrip(b: seq<Byte>)
    requires |b| == 3
    ensures GroupShape(EncodeGroup(b)) && DecodeGroup(EncodeGroup(b)) == b
    ensures IsSymbol(EncodeGroup(b)[2]) && IsSymbol(EncodeGroup(b)[3])
  {
    var v1, v2 := b[0] % 4 * 16 + b[1] / 16, b[1] % 16 * 4 + b[2] / 64;
    ThreeBytes(b[0], b[1], b[2], v1, v2);
    SymbolValue(b[0] / 4);
    SymbolValue(v1);
    SymbolValue(v2);
    SymbolValue(b[2] % 64);
  }

  lemma ShapeAppend(q: string, s: string)
    requires |q| == 4 && IsSymbol(q[0]) && IsSymbol(q[1]) && IsSymbol(q[2]) && IsSymbol(q[3]) && Shape(s)
    ensures Shape(q + s)
  {
  }

  lemma {:induction false} EncodeShape(b: seq<Byte>)
    requires b != []
    ensures Shape(Encode(b))
  {
    if |b| <= 3 {
      GroupRoundTrip(b);
    } else {
      GroupRoundTrip(b[..3]);
      EncodeShape(b[3..]);
      ShapeAppend(EncodeGroup(b[..3]), Encode(b[3..]));
    }
  }

  lemma {:induction false} EncodeLength(b: seq<Byte>)
    ensures |Encode(b)| == 4 * ((|b| + 2) / 3)
  {
    if |b| > 3 {
      EncodeLength(b[3..]);
      GroupLength(b[..3]);
      ThreeMore(|b[3..]|);
    } else if |b| > 0 {
      GroupLength(b);
    }
  }

  lemma GroupLength(b: seq<Byte>)
    requires 1 <= |b| <= 3
    ensures |EncodeGroup(b)| == 4
  {
  }

  lemma ThreeMore(n: nat)
    ensures (n + 3 + 2) / 3 == (n + 2) / 3 + 1
  {
  }

  lemma {:induction false} DecodeEncode(b: seq<Byte>)
    requires b != []
    ensures Shape(Encode(b)) && LenientDecode(Encode(b)) == b
  {
    EncodeShape(b);
    if |b| <= 3 {
      GroupRoundTrip(b);
    } else {
      GroupRoundTrip(b[..3]);
      DecodeEncode(b[3..]);
      var s := Encode(b);
      assert s[..4] == EncodeGroup(b[..3]) && s[4..] == Encode(b[3..]);
      assert b == b[..3] + b[3..];
    }
  }

  /** The decoder accepts a field with result b exactly when b is nonempty and the field is the base64 of b. */
  lemma AcceptsExactlyEncodings(field: string, b: seq<Byte>)
    ensures DecodeCanonicalBase64(field) == Some(b) <==> b != [] && field == Encode(b)
  {
    if b != [] { DecodeEncode(b); }
  }

  /** So no two accepted fields mean the same bytes. */
  lemma OneSpelling(f: string, g: string)
    requires DecodeCanonicalBase64(f).Some? && DecodeCanonicalBase64(f) == DecodeCanonicalBase64(g)
    ensures f == g
  {
    AcceptsExactlyEncodings(f, DecodeCanonicalBase64(f).value);
    AcceptsExactlyEncodings(g, DecodeCanonicalBase64(f).value);
  }

  /** The re-encode is what rejects a well-shaped field whose last group carries stray bits. */
  lemma StrayBitsRejected()
    ensures Shape("QR==") && Shape("QQ==") && LenientDecode("QR==") == LenientDecode("QQ==") == [0x41]
    ensures DecodeCanonicalBase64("QR==") == None && DecodeCanonicalBase64("QQ==") == Some([0x41])
  {
  }

  // --------------------------------------------------- base64 on its own terms

  /** Table 1 of RFC 4648, in order. */
  const ALPHABET := "ABCDEFGHIJKLMNOPQRSTUVWXYZ" + ("abcdefghijklmnopqrstuvwxyz" + "0123456789+/")

  ghost predicate IsTable(alphabet: string) { |alphabet| == 64 && forall v: Sextet :: alphabet[v] == Symbol(v) }

  lemma SymbolsInTable()
    ensures IsTable(ALPHABET)
  {
    forall v: Sextet ensures ALPHABET[v] == Symbol(v) {
      if v < 26 { UpperSymbol(v); } else if v < 52 { LowerSymbol(v); } else { OtherSymbol(v); }
    }
  }

  lemma UpperSymbol(v: Sextet)
    requires v < 26
    ensures "ABCDEFGHIJKLMNOPQRSTUVWXYZ"[v] == Symbol(v)
  {
  }

  lemma LowerSymbol(v: Sextet)
    requires 26 <= v < 52
    ensures "abcdefghijklmnopqrstuvwxyz"[v - 26] == Symbol(v)
  {
  }

  lemma OtherSymbol(v: Sextet)
    requires 52 <= v
    ensures "0123456789+/"[v - 52] == Symbol(v)
  {
  }

  /** The i-th byte, or zero past the end. */
  function ByteAt(b: seq<Byte>, i: nat): Byte { if i < |b| then b[i] else 0 }

  /** Three bytes from 3 * i on, read as one big-endian number of 24 bits, are the sextets v0 to v3, and these are
      spelled from 4 * i on, with '=' for one that holds no bit of a byte. */
  predicate SpelledBy(alphabet: string, b: seq<Byte>, s: string, i: nat, v0: Sextet, v1: Sextet, v2: Sextet, v3: Sextet)
    requires |alphabet| == 64
  {
    && 4 * i + 4 <= |s|
    && v0 * 262144 + v1 * 4096 + v2 * 64 + v3 == ByteAt(b, 3 * i) * 65536 + ByteAt(b, 3 * i + 1) * 256 + ByteAt(b, 3 * i + 2)
    && s[4 * i] == alphabet[v0] && s[4 * i + 1] == alphabet[v1]
    && s[4 * i + 2] == (if 3 * i + 1 < |b| then alphabet[v2] else '=')
    && s[4 * i + 3] == (if 3 * i + 2 < |b| then alphabet[v3] else '=')
  }

  ghost predicate SpellsGroup(alphabet: string, b: seq<Byte>, s: string, i: nat)
    requires |alphabet| == 64
  {
    exists v0, v1, v2, v3 :: SpelledBy(alphabet, b, s, i, v0, v1, v2, v3)
  }

  lemma Sextets(b0: Byte, b1: Byte, b2: Byte)
    ensures var v0, v1, v2, v3 := b0 / 4, b0 % 4 * 16 + b1 / 16, b1 % 16 * 4 + b2 / 64, b2 % 64;
            && 0 <= v0 < 64 && 0 <= v1 < 64 && 0 <= v2 < 64 && 0 <= v3 < 64
            && v0 * 262144 + v1 * 4096 + v2 * 64 + v3 == b0 * 65536 + b1 * 256 + b2
  {
  }

  lemma GroupSpells(alphabet: string, b: seq<Byte>)
    requires 1 <= |b| <= 3 && IsTable(alphabet)
    ensures SpellsGroup(alphabet, b, EncodeGroup(b), 0)
  {
    var b0, b1, b2 := ByteAt(b, 0), ByteAt(b, 1), ByteAt(b, 2);
    Sextets(b0, b1, b2);
    var v0: Sextet, v1: Sextet, v2: Sextet, v3: Sextet := b0 / 4, b0 % 4 * 16 + b1 / 16, b1 % 16 * 4 + b2 / 64, b2 % 64;
    assert SpelledBy(alphabet, b, EncodeGroup(b), 0, v0, v1, v2, v3);
  }

  lemma {:induction false} GroupsSpell(alphabet: string, b: seq<Byte>, i: nat)
    requires IsTable(alphabet) && 3 * i < |b|
    ensures SpellsGroup(alphabet, b, Encode(b), i)
    decreases i
  {
    if i == 0 {
      FirstGroup(alphabet, b);
    } else {
      GroupsSpell(alphabet, b[3..], i - 1);
      GroupLength(b[..3]);
      ShiftGroup(alphabet, b, EncodeGroup(b[..3]), Encode(b[3..]), i - 1);
    }
  }

  lemma FirstGroup(alphabet: string, b: seq<Byte>)
    requires IsTable(alphabet) && b != []
    ensures SpellsGroup(alphabet, b, Encode(b), 0)
  {
    if |b| <= 3 {
      GroupSpells(alphabet, b);
    } else {
      GroupSpells(alphabet, b[..3]);
      ExtendGroup(alphabet, b, EncodeGroup(b[..3]), Encode(b[3..]));
    }
  }

  lemma ExtendGroup(alphabet: string, b: seq<Byte>, head: string, rest: string)
    requires |alphabet| == 64 && |b| > 3 && |head| == 4 && SpellsGroup(alphabet, b[..3], head, 0)
    ensures SpellsGroup(alphabet, b, head + rest, 0)
  {
    var v0, v1, v2, v3 :| SpelledBy(alphabet, b[..3], head, 0, v0, v1, v2, v3);
    assert SpelledBy(alphabet, b, head + rest, 0, v0, v1, v2, v3);
  }

  lemma ShiftGroup(alphabet: string, b: seq<Byte>, head: string, rest: string, i: nat)
    requires |alphabet| == 64 && |b| > 3 && |head| == 4 && SpellsGroup(alphabet, b[3..], rest, i)
    ensures SpellsGroup(alphabet, b, head + rest, i + 1)
  {
    var v0, v1, v2, v3 :| SpelledBy(alphabet, b[3..], rest, i, v0, v1, v2, v3);
    ByteShift(b, 3 * i);
    ByteShift(b, 3 * i + 1);
    ByteShift(b, 3 * i + 2);
    assert SpelledBy(alphabet, b, head + rest, i + 1, v0, v1, v2, v3);
  }

  lemma ByteShift(b: seq<Byte>, i: nat)
    requires |b| > 3
    ensures ByteAt(b[3..], i) == ByteAt(b, i + 3)
  {
  }

  /** The base64 of b, by its bits alone: four symbols for every three bytes, the last group possibly short. */
  lemma EncodeSpells(b: seq<Byte>)
    ensures |ALPHABET| == 64 && |Encode(b)| == 4 * ((|b| + 2) / 3)
    ensures forall i: nat :: 3 * i < |b| ==> SpellsGroup(ALPHABET, b, Encode(b), i)
  {
    SymbolsInTable();
    EncodeLength(b);
    forall i: nat | 3 * i < |b| ensures SpellsGroup(ALPHABET, b, Encode(b), i) {
      GroupsSpell(ALPHABET, b, i);
    }
  }

  // ---------------------------------------------------------------- inflate

  datatype Inflation = Inflated(bytes: seq<Byte>) | TooLarge | Corrupt

  /** zlib's raw deflate and bounded raw inflate, and the UTF-8 conversions of the runtime. */
  datatype Codec = Codec(deflate: seq<Byte> -> seq<Byte>, inflate: (seq<Byte>, nat) -> Inflation,
                         toBytes: string -> seq<Byte>, toText: seq<Byte> -> string)

  /** RFC 1951 inflate inverts deflate and stops at its bound; UTF-8 decoding inverts encoding (RFC 3629). */
  ghost predicate Lawful(z: Codec) {
    && (forall b :: z.deflate(b) != [])
    && (forall c, n, b :: z.inflate(c, n) == Inflated(b) ==> |b| <= n)
    && (forall b, n :: |b| <= n ==> z.inflate(z.deflate(b), n) == Inflated(b))
    && (forall b, n :: |b| > n ==> z.inflate(z.deflate(b), n) == TooLarge)
    && (forall s :: z.toText(z.toBytes(s)) == s)
    && z.toBytes("") == []
  }

  datatype Field = NotAString | Text(s: string)

  datatype Reason = NotString | Empty | Oversize | Base64 | RatioCap | SizeCap | Inflate | NotUtf8 | EmptyBody

  datatype Result =
    | Ok(body: string, compressedBytes: nat, inflatedBytes: nat, ratio: real)
    | Fail(reason: Reason)

  function CompressPriceBatchBody(z: Codec, body: string): string {
    Encode(z.deflate(z.toBytes(body)))
  }

  function OutputCap(compressed: nat): nat {
    var ratioCap := compressed * PRICE_BATCH_MAX_INFLATE_RATIO;
    if ratioCap < PRICE_WIRE_MAX_BYTES then ratioCap else PRICE_WIRE_MAX_BYTES
  }

  function BindingReason(compressed: nat): Reason {
    if compressed * PRICE_BATCH_MAX_INFLATE_RATIO <= PRICE_WIRE_MAX_BYTES then RatioCap else SizeCap
  }

  /** What becomes of the decoded bytes: the output cap is handed to the inflater. */
  function Unpack(z: Codec, compressed: seq<Byte>): Result
    requires compressed != []
  {
    match z.inflate(compressed, OutputCap(|compressed|))
    case TooLarge => Fail(BindingReason(|compressed|))
    case Corrupt => Fail(Inflate)
    case Inflated(bytes) =>
      if bytes == [] then Fail(EmptyBody)
      else if z.toBytes(z.toText(bytes)) != bytes then Fail(NotUtf8)
      else Ok(z.toText(bytes), |compressed|, |bytes|, |bytes| as real / |compressed| as real)
  }

  function InflatePriceBatchBody(z: Codec, field: Field): Result {
    if field.NotAString? then Fail(NotString)
    else if field.s == "" then Fail(Empty)
    else if |field.s| > PRICE_WIRE_MAX_BYTES then Fail(Oversize)
    else
      var compressed := DecodeCanonicalBase64(field.s);
      if compressed.None? || compressed.value == [] then Fail(Base64) else Unpack(z, compressed.value)
  }

  ghost predicate IsBase64Of(s: string, c: seq<Byte>) { c != [] && s == Encode(c) }

  lemma Base64Exactly(s: string)
    ensures DecodeCanonicalBase64(s).Some? <==> exists c :: IsBase64Of(s, c)
    ensures DecodeCanonicalBase64(s).Some? ==> IsBase64Of(s, DecodeCanonicalBase64(s).value)
  {
    match DecodeCanonicalBase64(s)
    case Some(b) =>
      AcceptsExactlyEncodings(s, b);
      assert IsBase64Of(s, b);
    case None =>
      forall c ensures !IsBase64Of(s, c) { AcceptsExactlyEncodings(s, c); }
  }

  /** Which fields are refused unread; every other one is the base64 of some bytes, and judged by them. */
  lemma RefusedUnread(z: Codec, field: Field)
    ensures InflatePriceBatchBody(z, field) == Fail(NotString) <==> field.NotAString?
    ensures InflatePriceBatchBody(z, field) == Fail(Empty) <==> field == Text("")
    ensures InflatePriceBatchBody(z, field) == Fail(Oversize) <==> field.Text? && |field.s| > 8189
    ensures InflatePriceBatchBody(z, field) == Fail(Base64) <==>
              field.Text? && 0 < |field.s| <= 8189 && !exists c :: IsBase64Of(field.s, c)
    ensures forall c :: field.Text? && |field.s| <= 8189 && IsBase64Of(field.s, c) ==> InflatePriceBatchBody(z, field) == Unpack(z, c)
  {
    if field.Text? {
      Base64Exactly(field.s);
      forall c | IsBase64Of(field.s, c) ensures field.s != "" && DecodeCanonicalBase64(field.s) == Some(c) {
        AcceptsExactlyEncodings(field.s, c);
        EncodeLength(c);
      }
    }
  }

  /** The verdict on decoded bytes c, by what inflates from c under the lesser of 8189 bytes and 150 for each byte of c:
      past it, the ratio is named where 150 * |c| is no more than 8189, and the size otherwise. */
  lemma UnpacksExactly(z: Codec, c: seq<Byte>)
    requires c != []
    ensures var r := Unpack(z, c);
            match z.inflate(c, if 150 * |c| <= 8189 then 150 * |c| else 8189)
            case TooLarge => r == Fail(if 150 * |c| <= 8189 then RatioCap else SizeCap)
            case Corrupt => r == Fail(Inflate)
            case Inflated(bytes) =>
              && (r == Fail(EmptyBody) <==> |bytes| == 0)
              && (r == Fail(NotUtf8) <==> |bytes| > 0 && z.toBytes(z.toText(bytes)) != bytes)
              && (r.Ok? <==> |bytes| > 0 && z.toBytes(z.toText(bytes)) == bytes)
              && (r.Ok? ==> r.body == z.toText(bytes) && r.inflatedBytes == |bytes| && r.compressedBytes == |c|
                            && r.ratio * |c| as real == |bytes| as real)
  {
    var r := Unpack(z, c);
    if r.Ok? { Ratio(r.inflatedBytes as real, |c| as real, r.ratio); }
  }

  lemma Ratio(a: real, b: real, q: real)
    requires b != 0.0 && q == a / b
    ensures q * b == a
  {
  }

  /** The emitted field of a body is inflated back exactly when the body is nonempty and within the caps, and
      otherwise the failure names which of them it broke. */
  lemma RoundTripExactly(z: Codec, body: string)
    requires Lawful(z)
    ensures var bytes := z.toBytes(body);
            var c := z.deflate(bytes);
            var r := InflatePriceBatchBody(z, Text(CompressPriceBatchBody(z, body)));
            if 4 * ((|c| + 2) / 3) > 8189 then r == Fail(Oversize)
            else if 150 * |c| <= 8189 && |bytes| > 150 * |c| then r == Fail(RatioCap)
            else if 150 * |c| > 8189 && |bytes| > 8189 then r == Fail(SizeCap)
            else if body == "" then r == Fail(EmptyBody)
            else r == Ok(body, |c|, |bytes|, |bytes| as real / |c| as real)
  {
    var bytes := z.toBytes(body);
    var c := z.deflate(bytes);
    EncodeLength(c);
    AcceptsExactlyEncodings(Encode(c), c);
    assert z.toText(bytes) == body;
    assert bytes == [] <==> body == "" by {
      if bytes == [] { assert body == z.toText(z.toBytes("")) == ""; }
    }
  }

  /** Every success is within both caps, and names one wire and one payload. */
  lemma SuccessIsBounded(z: Codec, field: Field)
    requires Lawful(z) && InflatePriceBatchBody(z, field).Ok?
    ensures var r := InflatePriceBatchBody(z, field);
            && 0 < r.inflatedBytes <= 8189 && r.inflatedBytes <= 150 * r.compressedBytes
            && |z.toBytes(r.body)| == r.inflatedBytes
            && exists c :: |c| == r.compressedBytes && IsBase64Of(field.s, c) && InflatesTo(z, c, z.toBytes(r.body))
  {
    RefusedUnread(z, field);
    var c :| IsBase64Of(field.s, c);
    UnpackedIsBounded(z, c);
  }

  ghost predicate InflatesTo(z: Codec, c: seq<Byte>, bytes: seq<Byte>) {
    z.inflate(c, if 150 * |c| <= 8189 then 150 * |c| else 8189) == Inflated(bytes)
  }

  lemma UnpackedIsBounded(z: Codec, c: seq<Byte>)
    requires Lawful(z) && c != [] && Unpack(z, c).Ok?
    ensures var r := Unpack(z, c);
            && 0 < r.inflatedBytes <= 8189 && r.inflatedBytes <= 150 * r.compressedBytes && r.compressedBytes == |c|
            && |z.toBytes(r.body)| == r.inflatedBytes && InflatesTo(z, c, z.toBytes(r.body))
  {
  }
}
