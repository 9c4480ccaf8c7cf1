/**
 * The base64url text of a byte string (RFC 4648, section 5) and the mobile app's decoder, whose accumulator is
 * a signed 32-bit integer that overflows on any text longer than five characters.
 */
module Base64Url {
  import opened Prelude
  import opened BigEndian

  type Sextet = i: int | 0 <= i < 64

  const UPPER := "ABCDEFGHIJKLMNOPQRSTUVWXYZ"
  const LOWER := "abcdefghijklmnopqrstuvwxyz"
  const DIGITS := "0123456789"
  const CHARS := UPPER + LOWER + DIGITS + "+/"

  // ---------------------------------------------------------------- encoding

  /** The alphabet of section 5. */
  function UrlChar(i: Sextet): char {
    if i == 62 then '-' else if i == 63 then '_' else CHARS[i]
  }

  /** Whole groups of three bytes give four characters; a last one or two bytes give two or three. */
  function Sextets(bytes: Bytes): seq<Sextet> {
    var n := |bytes|;
    if n == 0 then []
    else if n % 3 == 1 then
      Sextets(bytes[..n - 1]) + [bytes[n - 1] / 4, bytes[n - 1] % 4 * 16]
    else if n % 3 == 2 then
      Sextets(bytes[..n - 2]) + [bytes[n - 2] / 4, bytes[n - 2] % 4 * 16 + bytes[n - 1] / 16, bytes[n - 1] % 16 * 4]
    else
      Sextets(bytes[..n - 3]) + [bytes[n - 3] / 4, bytes[n - 3] % 4 * 16 + bytes[n - 2] / 16,
                                 bytes[n - 2] % 16 * 4 + bytes[n - 1] / 64, bytes[n - 1] % 64]
  }

  /** Unpadded base64url. */
  function Encode(bytes: Bytes): (text: string)
    ensures |text| == |Sextets(bytes)|
  {
    var sextets := Sextets(bytes);
    seq(|sextets|, i requires 0 <= i < |sextets| => UrlChar(sextets[i]))
  }

  // ---------------------------------------------------------------- what decoding means

  /** The six bits of a character, in either alphabet. */
  function SextetOf(c: char): Option<Sextet> {
    if 'A' <= c <= 'Z' then Some(c as int - 'A' as int)
    else if 'a' <= c <= 'z' then Some(c as int - 'a' as int + 26)
    else if '0' <= c <= '9' then Some(c as int - '0' as int + 52)
    else if c == '+' || c == '-' then Some(62)
    else if c == '/' || c == '_' then Some(63)
    else None
  }

  /** The text before the first '='. */
  function Body(s: string): string {
    if s == [] || s[0] == '=' then [] else [s[0]] + Body(s[1..])
  }

  predicate Readable(body: string) {
    forall i :: 0 <= i < |body| ==> SextetOf(body[i]).Some?
  }

  /** The unbounded number that the characters write in base 64. */
  function Value(body: string): nat
    requires Readable(body)
  {
    if body == [] then 0 else 64 * Value(body[..|body| - 1]) + SextetOf(body[|body| - 1]).value
  }

  function Pow2(n: nat): (p: nat)
    ensures p > 0
  {
    if n == 0 then 1 else 2 * Pow2(n - 1)
  }

  lemma SmallPowers()
    ensures Pow2(0) == 1 && Pow2(2) == 4 && Pow2(4) == 16 && Pow2(6) == 64
  {
    assert Pow2(1) == 2 && Pow2(3) == 8 && Pow2(5) == 32;
  }

  /** The whole bytes among the bits of `body`; the fewer than eight bits left over are dropped. */
  ghost predicate IsDecoding(body: string, bytes: Bytes) {
    && Readable(body)
    && |bytes| == 6 * |body| / 8
    && ToNat(bytes) == Value(body) / Pow2(6 * |body| % 8)
  }

  lemma DecodingIsUnique(body: string, a: Bytes, b: Bytes)
    requires IsDecoding(body, a) && IsDecoding(body, b)
    ensures a == b
  {
    ToNatInjective(a, b);
  }

  // ---------------------------------------------------------------- signed 32-bit arithmetic

  const TWO32 := 0x1_0000_0000

  /** ToInt32: the representative of x modulo 2^32 in [-2^31, 2^31). */
  function ToInt32(x: int): (r: int)
    ensures -0x8000_0000 <= r < 0x8000_0000 && (r - x) % TWO32 == 0
  {
    (x + 0x8000_0000) % TWO32 - 0x8000_0000
  }

  /** (value << 6) | i: the six low bits of the shifted value are clear, so the or is a sum. */
  function ShiftIn(value: int, i: Sextet): int { ToInt32(value * 64) + i }

  /** (value >> bits) & 0xff: an arithmetic shift is a floor division, the mask a remainder. */
  function TakeByte(value: int, bits: nat): Byte { value / Pow2(bits) % 256 }

  /** Shifting keeps the accumulator congruent to the unbounded one, whatever overflowed. */
  lemma ShiftInCongruent(value: int, exact: nat, i: Sextet)
    requires (value - exact) % TWO32 == 0
    ensures (ShiftIn(value, i) - (64 * exact + i)) % TWO32 == 0
    ensures -0x8000_0000 <= ShiftIn(value, i) < 0x8000_0000
  {
    var k := (value - exact) / TWO32;
    assert value == exact + k * TWO32;
    var j := (ToInt32(value * 64) - value * 64) / TWO32;
    assert ShiftIn(value, i) - (64 * exact + i) == (j + 64 * k) * TWO32;
    MultipleHasNoRemainder(j + 64 * k);
    assert ToInt32(value * 64) % 64 == 0 by {
      assert ToInt32(value * 64) == 64 * (value + j * 0x400_0000);
    }
  }

  lemma MultipleHasNoRemainder(q: int)
    ensures q * TWO32 % TWO32 == 0
  {
  }

  /** The byte cut from the wrapped accumulator is the byte of the unbounded one. */
  lemma TakeByteCongruent(value: int, exact: nat, bits: nat)
    requires (value - exact) % TWO32 == 0 && bits in {0, 2, 4}
    ensures TakeByte(value, bits) == exact / Pow2(bits) % 256
  {
    var k := (value - exact) / TWO32;
    assert value == exact + k * TWO32;
    SmallPowers();
    var p := Pow2(bits);
    var m := TWO32 / p / 256;
    assert TWO32 == p * (256 * m);
    DropMultiple(exact, p, m, k);
  }

  lemma DropMultiple(exact: nat, p: nat, m: nat, k: int)
    requires p > 0
    ensures (exact + k * (p * (256 * m))) / p % 256 == exact / p % 256
  {
    var q := 256 * (m * k);
    assert k * (p * (256 * m)) == p * q;
    DivideSum(exact, p, q);
    RemainderOfSum(exact / p, m * k);
  }

  lemma DivideSum(x: int, p: nat, q: int)
    requires p > 0
    ensures (x + p * q) / p == x / p + q
  {
    var r := x % p;
    assert x + p * q == p * (x / p + q) + r;
    QuotientIs(x + p * q, p, x / p + q, r);
  }

  lemma QuotientIs(x: int, p: nat, q: int, r: int)
    requires p > 0 && 0 <= r < p && x == p * q + r
    ensures x / p == q && x % p == r
  {
    var d := x / p - q;
    assert p * d == r - x % p;
    assert d >= 1 ==> p * d >= p;
    assert d <= -1 ==> p * -d >= p;
  }

  lemma RemainderOfSum(x: int, k: int)
    ensures (x + 256 * k) % 256 == x % 256
  {
  }

  // ---------------------------------------------------------------- the decoder

  lemma CharsInOrder(i: Sextet)
    ensures SextetOf(CHARS[i]) == Some(i) && CHARS[i] != '-' && CHARS[i] != '_' && CHARS[i] != '='
  {
    if i < 26 {
      UpperInOrder(i);
    } else if i < 52 {
      LowerInOrder(i - 26);
    } else if i < 62 {
      DigitsInOrder(i - 52);
    }
  }

  lemma UpperInOrder(i: nat)
    requires i < 26
    ensures UPPER[i] as int == 'A' as int + i
  {
  }

  lemma LowerInOrder(i: nat)
    requires i < 26
    ensures LOWER[i] as int == 'a' as int + i
  {
  }

  lemma DigitsInOrder(i: nat)
    requires i < 10
    ensures DIGITS[i] as int == '0' as int + i
  {
  }

  lemma CharsComplete(c: char)
    requires SextetOf(c).Some? && c != '-' && c != '_'
    ensures CHARS[SextetOf(c).value] == c
  {
    var i := SextetOf(c).value;
    if i < 26 {
      UpperInOrder(i);
    } else if i < 52 {
      LowerInOrder(i - 26);
    } else if i < 62 {
      DigitsInOrder(i - 52);
    }
  }

  /** String.indexOf of one character. */
  function IndexIn(chars: string, c: char): (found: Option<nat>)
    ensures match found
            case Some(i) => i < |chars| && chars[i] == c
            case None => c !in chars
  {
    if chars == [] then None
    else if chars[0] == c then Some(0)
    else
      match IndexIn(chars[1..], c)
      case Some(i) => Some(i + 1)
      case None => None
  }

  lemma IndexIsSextet(c: char)
    requires c != '-' && c != '_' && c != '='
    ensures IndexIn(CHARS, c).Some? <==> SextetOf(c).Some?
    ensures IndexIn(CHARS, c).Some? ==> SextetOf(c) == Some(IndexIn(CHARS, c).value)
  {
    if IndexIn(CHARS, c).Some? {
      CharsInOrder(IndexIn(CHARS, c).value);
    } else if SextetOf(c).Some? {
      CharsComplete(c);
    }
  }

  function Standard(c: char): char { if c == '-' then '+' else if c == '_' then '/' else c }

  function ToStandard(s: string): string { seq(|s|, i requires 0 <= i < |s| => Standard(s[i])) }

  /** The '=' signs that fill the last group of four. */
  function Padding(n: nat): string { "==="[(n + 3) % 4..] }

  datatype Accumulator = Accumulator(value: int, bits: nat, out: Bytes) {
    function Take(i: Sextet): Accumulator {
      var v := ShiftIn(value, i);
      if bits + 6 >= 8 then Accumulator(v, bits - 2, out + [TakeByte(v, bits - 2)]) else Accumulator(v, bits + 6, out)
    }
  }

  /** The accumulator after the characters of `body`. */
  function Accumulated(body: string): Accumulator
    requires Readable(body)
  {
    if body == [] then Accumulator(0, 0, [])
    else Accumulated(body[..|body| - 1]).Take(SextetOf(body[|body| - 1]).value)
  }

  /** chars.indexOf(c) */
  method IndexOf(c: char) returns (i: Option<Sextet>)
    requires c != '-' && c != '_' && c != '='
    ensures i == SextetOf(c)
  {
    IndexIsSextet(c);
    i := IndexIn(CHARS, c);
  }

  method DecodeBase64Url(s: string) returns (r: Option<Bytes>)
    ensures r.Some? <==> Readable(Body(s))
    ensures r.Some? ==> IsDecoding(Body(s), r.value)
  {
    var b64 := ToStandard(s) + Padding(|s|);
    var bits, value, out := 0, 0, [];
    var k := 0;
    while k < |b64| && b64[k] != '='
      invariant k <= |b64| && '=' !in b64[..k]
      invariant Readable(b64[..k]) && Accumulated(b64[..k]) == Accumulator(value, bits, out)
    {
      NotUrlChar(s, k);
      var i := IndexOf(b64[k]);
      if i.None? {
        StuckAt(s, k);
        return None;
      }
      AccumulatedNext(b64, k);
      value := ShiftIn(value, i.value);
      bits := bits + 6;
      if bits >= 8 {
        bits := bits - 8;
        out := out + [TakeByte(value, bits)];
      }
      k := k + 1;
    }
    DoneAt(s, k);
    return Some(out);
  }

  lemma StuckAt(s: string, k: nat)
    requires var b64 := ToStandard(s) + Padding(|s|);
             k < |b64| && '=' !in b64[..k] && b64[k] != '=' && SextetOf(b64[k]).None?
    ensures !Readable(Body(s))
  {
    BodyReaches(ToStandard(s) + Padding(|s|), k);
    BodyOfPadded(s);
  }

  lemma AccumulatedNext(s: string, k: nat)
    requires k < |s| && Readable(s[..k]) && SextetOf(s[k]).Some?
    ensures Readable(s[..k + 1]) && Accumulated(s[..k + 1]) == Accumulated(s[..k]).Take(SextetOf(s[k]).value)
  {
    assert s[..k + 1][..k] == s[..k];
  }

  lemma DoneAt(s: string, k: nat)
    requires var b64 := ToStandard(s) + Padding(|s|);
             k <= |b64| && '=' !in b64[..k] && (k < |b64| ==> b64[k] == '=') && Readable(b64[..k])
    ensures Readable(Body(s)) && IsDecoding(Body(s), Accumulated((ToStandard(s) + Padding(|s|))[..k]).out)
  {
    var b64 := ToStandard(s) + Padding(|s|);
    BodyStops(b64, k);
    BodyOfPadded(s);
    AccumulatedDecodes(b64[..k]);
  }

  /** Where the accumulator stands: congruent to the unbounded number, its whole bytes cut off. */
  ghost predicate Progress(body: string, a: Accumulator) {
    && Readable(body)
    && (a.value - Value(body)) % TWO32 == 0
    && a.bits == 6 * |body| % 8 && |a.out| == 6 * |body| / 8
    && ToNat(a.out) == Value(body) / Pow2(a.bits)
  }

  /** Overflow notwithstanding, the accumulated bytes decode the text. */
  lemma AccumulatedDecodes(body: string)
    requires Readable(body)
    ensures IsDecoding(body, Accumulated(body).out)
  {
    AccumulatedProgress(body);
  }

  lemma {:induction false} AccumulatedProgress(body: string)
    requires Readable(body)
    ensures Progress(body, Accumulated(body))
  {
    if body != [] {
      AccumulatedProgress(body[..|body| - 1]);
      OneMore(body, Accumulated(body[..|body| - 1]));
    }
  }

  lemma OneMore(body: string, a: Accumulator)
    requires Readable(body) && body != [] && Progress(body[..|body| - 1], a)
    ensures Progress(body, a.Take(SextetOf(body[|body| - 1]).value))
  {
    var front, i := body[..|body| - 1], SextetOf(body[|body| - 1]).value;
    var exact := Value(front);
    ShiftInCongruent(a.value, exact, i);
    SixMoreBits(|front|);
    if a.bits + 6 >= 8 {
      TakeByteCongruent(ShiftIn(a.value, i), 64 * exact + i, a.bits - 2);
      OneMoreByte(exact, i, a.bits);
      ToNatSnoc(a.out, TakeByte(ShiftIn(a.value, i), a.bits - 2));
    } else {
      NoByteYet(exact, i);
    }
  }

  lemma SixMoreBits(n: nat)
    ensures var bits := 6 * n % 8;
            && bits in {0, 2, 4, 6}
            && 6 * (n + 1) % 8 == (if bits + 6 >= 8 then bits - 2 else bits + 6)
            && 6 * (n + 1) / 8 == 6 * n / 8 + (if bits + 6 >= 8 then 1 else 0)
  {
    var g, m := n / 4, n % 4;
    SplitBits(g, m);
    if m == 3 { SplitBits(g + 1, 0); } else { SplitBits(g, m + 1); }
  }

  /** Four characters are three bytes. */
  lemma SplitBits(g: nat, m: nat)
    requires m < 4
    ensures 6 * (4 * g + m) / 8 == 3 * g + 6 * m / 8 && 6 * (4 * g + m) % 8 == 6 * m % 8
  {
    assert 6 * (4 * g + m) == 8 * (3 * g) + 6 * m;
  }

  lemma OneMoreByte(exact: nat, i: Sextet, bits: nat)
    requires bits in {2, 4, 6}
    ensures var next := (64 * exact + i) / Pow2(bits - 2);
            next == 256 * (exact / Pow2(bits)) + next % 256
  {
    SmallPowers();
  }

  lemma NoByteYet(exact: nat, i: Sextet)
    ensures (64 * exact + i) / Pow2(6) == exact / Pow2(0)
  {
    SmallPowers();
  }

  lemma NotUrlChar(s: string, k: nat)
    requires k < |s| + |Padding(|s|)|
    ensures var c := (ToStandard(s) + Padding(|s|))[k]; c != '-' && c != '_'
    ensures k >= |s| ==> (ToStandard(s) + Padding(|s|))[k] == '='
  {
    if k >= |s| { PaddingIsEquals(|s|, k - |s|); }
  }

  lemma PaddingIsEquals(n: nat, i: nat)
    requires i < |Padding(n)|
    ensures Padding(n)[i] == '='
  {
  }

  // ---------------------------------------------------------------- the text before the first '='

  lemma {:induction false} BodyReaches(s: string, k: nat)
    requires k < |s| && '=' !in s[..k] && s[k] != '='
    ensures k < |Body(s)| && Body(s)[k] == s[k]
  {
    if k > 0 {
      assert s[..k] == [s[0]] + s[1..][..k - 1];
      BodyReaches(s[1..], k - 1);
    }
  }

  lemma {:induction false} BodyStops(s: string, k: nat)
    requires k <= |s| && '=' !in s[..k] && (k < |s| ==> s[k] == '=')
    ensures Body(s) == s[..k]
  {
    if k > 0 {
      assert s[..k] == [s[0]] + s[1..][..k - 1];
      BodyStops(s[1..], k - 1);
    }
  }

  lemma {:induction false} BodyLength(s: string)
    ensures |Body(s)| <= |s| && Body(s) == s[..|Body(s)|] && '=' !in Body(s)
    ensures |Body(s)| < |s| ==> s[|Body(s)|] == '='
  {
    if s != [] && s[0] != '=' {
      BodyLength(s[1..]);
      assert s == [s[0]] + s[1..];
    }
  }

  /** The padded text in the standard alphabet has the same six-bit groups. */
  lemma BodyOfPadded(s: string)
    ensures var body := Body(ToStandard(s) + Padding(|s|));
            && (Readable(body) <==> Readable(Body(s)))
            && |body| == |Body(s)|
            && (Readable(body) ==> Value(body) == Value(Body(s)))
  {
    var padded, n := ToStandard(s) + Padding(|s|), |Body(s)|;
    BodyLength(s);
    forall i | 0 <= i < n
      ensures padded[i] == Standard(Body(s)[i]) && padded[i] != '='
    {
      assert padded[i] == Standard(s[i]);
    }
    if n < |padded| { StopsAt(s); }
    BodyStops(padded, n);
    SameSextets(Body(s), padded[..n]);
  }

  lemma StopsAt(s: string)
    requires |Body(s)| < |ToStandard(s) + Padding(|s|)|
    ensures (ToStandard(s) + Padding(|s|))[|Body(s)|] == '='
  {
    BodyLength(s);
    NotUrlChar(s, |Body(s)|);
  }

  lemma {:induction false} SameSextets(a: string, b: string)
    requires |a| == |b| && forall i :: 0 <= i < |a| ==> SextetOf(a[i]) == SextetOf(b[i])
    ensures Readable(a) <==> Readable(b)
    ensures Readable(a) ==> Value(a) == Value(b)
  {
    if a != [] {
      var n := |a| - 1;
      SameSextets(a[..n], b[..n]);
      assert Readable(a) ==> Readable(b) && Readable(a[..n]);
      assert Readable(b) ==> Readable(a);
    }
  }

  // ---------------------------------------------------------------- the round trip

  function Number(sextets: seq<Sextet>): nat {
    if sextets == [] then 0 else 64 * Number(sextets[..|sextets| - 1]) + sextets[|sextets| - 1]
  }

  lemma NumberSnoc(sextets: seq<Sextet>, i: Sextet)
    ensures Number(sextets + [i]) == 64 * Number(sextets) + i
  {
    assert (sextets + [i])[..|sextets|] == sextets;
  }

  lemma ToNatSnoc(bytes: Bytes, b: Byte)
    ensures ToNat(bytes + [b]) == 256 * ToNat(bytes) + b
  {
    assert (bytes + [b])[..|bytes|] == bytes;
  }

  /** One byte as two characters, two bytes as three, three bytes as four. */
  lemma GroupOfOne(front: Bytes, a: Byte, s: seq<Sextet>)
    requires Number(s) == ToNat(front)
    ensures Number(s + [a / 4, a % 4 * 16]) == 16 * ToNat(front + [a])
  {
    NumberSnoc(s, a / 4);
    NumberSnoc(s + [a / 4], a % 4 * 16);
    assert s + [a / 4, a % 4 * 16] == s + [a / 4] + [a % 4 * 16];
    ToNatSnoc(front, a);
  }

  lemma GroupOfTwo(front: Bytes, a: Byte, b: Byte, s: seq<Sextet>)
    requires Number(s) == ToNat(front)
    ensures Number(s + [a / 4, a % 4 * 16 + b / 16, b % 16 * 4]) == 4 * ToNat(front + [a, b])
  {
    NumberSnoc(s, a / 4);
    NumberSnoc(s + [a / 4], a % 4 * 16 + b / 16);
    NumberSnoc(s + [a / 4] + [a % 4 * 16 + b / 16], b % 16 * 4);
    assert s + [a / 4, a % 4 * 16 + b / 16, b % 16 * 4] == s + [a / 4] + [a % 4 * 16 + b / 16] + [b % 16 * 4];
    ToNatSnoc(front, a);
    ToNatSnoc(front + [a], b);
    assert front + [a, b] == front + [a] + [b];
  }

  lemma GroupOfThree(front: Bytes, a: Byte, b: Byte, c: Byte, s: seq<Sextet>)
    requires Number(s) == ToNat(front)
    ensures Number(s + [a / 4, a % 4 * 16 + b / 16, b % 16 * 4 + c / 64, c % 64]) == ToNat(front + [a, b, c])
  {
    var s0, s1, s2, s3 := a / 4, a % 4 * 16 + b / 16, b % 16 * 4 + c / 64, c % 64;
    NumberSnoc(s, s0);
    NumberSnoc(s + [s0], s1);
    NumberSnoc(s + [s0] + [s1], s2);
    NumberSnoc(s + [s0] + [s1] + [s2], s3);
    assert s + [s0, s1, s2, s3] == s + [s0] + [s1] + [s2] + [s3];
    ToNatSnoc(front, a);
    ToNatSnoc(front + [a], b);
    ToNatSnoc(front + [a] + [b], c);
    assert front + [a, b, c] == front + [a] + [b] + [c];
  }

  lemma {:induction false} WholeGroups(bytes: Bytes)
    requires |bytes| % 3 == 0
    ensures Number(Sextets(bytes)) == ToNat(bytes) && |Sextets(bytes)| == 4 * (|bytes| / 3)
  {
    if bytes != [] {
      WholeGroups(bytes[..|bytes| - 3]);
      LastThree(bytes);
    }
  }

  /** Encoding shifts the number by the bits of the last character that carry nothing. */
  lemma SextetsWrite(bytes: Bytes)
    ensures |bytes| % 3 == 0 ==> Number(Sextets(bytes)) == ToNat(bytes) && |Sextets(bytes)| == 4 * (|bytes| / 3)
    ensures |bytes| % 3 == 1 ==> Number(Sextets(bytes)) == 16 * ToNat(bytes) && |Sextets(bytes)| == 4 * (|bytes| / 3) + 2
    ensures |bytes| % 3 == 2 ==> Number(Sextets(bytes)) == 4 * ToNat(bytes) && |Sextets(bytes)| == 4 * (|bytes| / 3) + 3
  {
    WholeGroups(bytes[..|bytes| - |bytes| % 3]);
    if |bytes| % 3 == 0 {
      assert bytes[..|bytes|] == bytes;
    } else if |bytes| % 3 == 1 {
      LastOne(bytes);
    } else {
      LastTwo(bytes);
    }
  }

  lemma LastOne(bytes: Bytes)
    requires bytes != [] && |bytes| % 3 == 1
    requires var front := bytes[..|bytes| - 1]; Number(Sextets(front)) == ToNat(front)
    ensures Number(Sextets(bytes)) == 16 * ToNat(bytes)
    ensures |Sextets(bytes)| == |Sextets(bytes[..|bytes| - 1])| + 2
  {
    var n := |bytes|;
    var front, a := bytes[..n - 1], bytes[n - 1];
    assert bytes == front + [a];
    assert Sextets(bytes) == Sextets(front) + [a / 4, a % 4 * 16];
    GroupOfOne(front, a, Sextets(front));
  }

  lemma LastTwo(bytes: Bytes)
    requires bytes != [] && |bytes| % 3 == 2
    requires var front := bytes[..|bytes| - 2]; Number(Sextets(front)) == ToNat(front)
    ensures Number(Sextets(bytes)) == 4 * ToNat(bytes)
    ensures |Sextets(bytes)| == |Sextets(bytes[..|bytes| - 2])| + 3
  {
    var n := |bytes|;
    var front, a, b := bytes[..n - 2], bytes[n - 2], bytes[n - 1];
    assert bytes == front + [a, b];
    assert Sextets(bytes) == Sextets(front) + [a / 4, a % 4 * 16 + b / 16, b % 16 * 4];
    GroupOfTwo(front, a, b, Sextets(front));
  }

  lemma LastThree(bytes: Bytes)
    requires bytes != [] && |bytes| % 3 == 0
    requires var front := bytes[..|bytes| - 3]; Number(Sextets(front)) == ToNat(front)
    ensures Number(Sextets(bytes)) == ToNat(bytes)
    ensures |Sextets(bytes)| == |Sextets(bytes[..|bytes| - 3])| + 4
  {
    var n := |bytes|;
    var front, a, b, c := bytes[..n - 3], bytes[n - 3], bytes[n - 2], bytes[n - 1];
    assert bytes == front + [a, b, c];
    assert Sextets(bytes) == Sextets(front) + [a / 4, a % 4 * 16 + b / 16, b % 16 * 4 + c / 64, c % 64];
    GroupOfThree(front, a, b, c, Sextets(front));
  }

  lemma UrlCharIsSextet(i: Sextet)
    ensures SextetOf(UrlChar(i)) == Some(i) && UrlChar(i) != '=' && IsBase64UrlChar(UrlChar(i))
  {
    CharsInOrder(i);
  }

  lemma {:induction false} ValueOfChars(text: string, sextets: seq<Sextet>)
    requires |text| == |sextets| && forall i :: 0 <= i < |text| ==> SextetOf(text[i]) == Some(sextets[i])
    ensures Readable(text) && Value(text) == Number(sextets)
  {
    if text != [] {
      ValueOfChars(text[..|text| - 1], sextets[..|text| - 1]);
    }
  }

  /** The characters of an encoding write the number of its bytes, shifted by the unused bits of the last one. */
  lemma EncodingValue(bytes: Bytes)
    ensures var text := Encode(bytes);
            && Readable(text) && Value(text) == Number(Sextets(bytes))
            && (forall i :: 0 <= i < |text| ==> IsBase64UrlChar(text[i]) && text[i] != '=')
  {
    var text := Encode(bytes);
    forall i | 0 <= i < |text|
      ensures SextetOf(text[i]) == Some(Sextets(bytes)[i]) && text[i] != '=' && IsBase64UrlChar(text[i])
    {
      UrlCharIsSextet(Sextets(bytes)[i]);
    }
    ValueOfChars(text, Sextets(bytes));
  }

  lemma BodyOfEncoding(bytes: Bytes)
    ensures Body(Encode(bytes)) == Encode(bytes)
  {
    var text := Encode(bytes);
    EncodingValue(bytes);
    BodyStops(text, |text|);
    assert text[..|text|] == text;
  }

  lemma EncodingIsDecoded(bytes: Bytes)
    ensures IsDecoding(Encode(bytes), bytes)
  {
    var g, m := |bytes| / 3, |bytes| % 3;
    EncodingValue(bytes);
    SextetsWrite(bytes);
    SplitBits(g, if m == 0 then 0 else m + 1);
    ShiftBack(ToNat(bytes));
    assert |Encode(bytes)| == |Sextets(bytes)| == 4 * g + if m == 0 then 0 else m + 1;
  }

  lemma ShiftBack(n: nat)
    ensures n / Pow2(0) == n && 16 * n / Pow2(4) == n && 4 * n / Pow2(2) == n
  {
    SmallPowers();
  }

  /** Decoding the unpadded base64url text of any byte string gives the byte string back. */
  lemma DecodesEncoding(bytes: Bytes, decoded: Bytes)
    requires IsDecoding(Body(Encode(bytes)), decoded)
    ensures decoded == bytes
  {
    BodyOfEncoding(bytes);
    EncodingIsDecoded(bytes);
    DecodingIsUnique(Encode(bytes), decoded, bytes);
  }

  method DecodeOfEncoding(bytes: Bytes) returns (r: Option<Bytes>)
    ensures r == Some(bytes)
  {
    EncodingValue(bytes);
    BodyOfEncoding(bytes);
    r := DecodeBase64Url(Encode(bytes));
    DecodesEncoding(bytes, r.value);
  }

  /** Different byte strings have different texts. */
  lemma EncodeInjective(a: Bytes, b: Bytes)
    requires Encode(a) == Encode(b)
    ensures a == b
  {
    EncodingIsDecoded(a);
    EncodingIsDecoded(b);
    DecodingIsUnique(Encode(a), a, b);
  }

  /** The test vectors of section 10 of RFC 4648 without padding, and one with the two characters of section 5. */
  lemma TestVectors()
    ensures Encode([102]) == "Zg" && Encode([102, 111]) == "Zm8" && Encode([102, 111, 111]) == "Zm9v"
    ensures Encode([251, 255]) == "-_8"
  {
    UpperInOrder(25);
    LowerInOrder(6);
    LowerInOrder(12);
    LowerInOrder(21);
    DigitsInOrder(8);
    DigitsInOrder(9);
    assert Sextets([]) == [];
    assert Sextets([102]) == [25, 32];
    assert Sextets([102, 111]) == [25, 38, 60];
    assert Sextets([102, 111, 111]) == [25, 38, 61, 47];
    assert Sextets([251, 255]) == [62, 63, 60];
  }

  /** One of the 64 characters of an encoding. */
  ghost predicate InAlphabet(c: char) { exists i: Sextet :: UrlChar(i) == c }

  /** The characters of an encoding are exactly those that the shape checks of links and challenges allow. */
  lemma UrlCharIff(c: char)
    ensures IsBase64UrlChar(c) <==> InAlphabet(c)
  {
    if IsBase64UrlChar(c) {
      var i := SextetOf(c).value;
      if c != '-' && c != '_' { CharsComplete(c); }
      assert UrlChar(i) == c;
    }
    if InAlphabet(c) {
      var i: Sextet :| UrlChar(i) == c;
      UrlCharIsSextet(i);
    }
  }

  /** The 43-character shape: any 43 characters of that alphabet, and nothing else. */
  lemma Shape43Iff(s: string)
    ensures IsBase64Url43(s) <==> |s| == 43 && forall k :: 0 <= k < |s| ==> InAlphabet(s[k])
  {
    forall k | 0 <= k < |s| ensures IsBase64UrlChar(s[k]) <==> InAlphabet(s[k]) {
      UrlCharIff(s[k]);
    }
  }
}
