/** PKCE with S256 (RFC 7636, sections 4.1, 4.2 and 4.6): the app's verifier and the server's comparison. */
module Pkce {
  import opened Prelude
  import opened BigEndian
  import Base64Url

  type Digest = b: Bytes | |b| == 32 witness seq(32, _ => 0)

  /** SHA-256 as the caller supplies it. */
  type Sha256Fn = string -> Digest

  const VERIFIER_CHARS := Base64Url.UPPER + Base64Url.LOWER + Base64Url.DIGITS + "-._~"

  predicate IsUnreserved(c: char) {
    || 'A' <= c <= 'Z'
    || 'a' <= c <= 'z'
    || '0' <= c <= '9'
    || c == '.' || c == '_' || c == '~' || c == '-'
  }

  /** /^[A-Za-z0-9._~-]{43,128}$/ */
  predicate IsVerifier(v: string) {
    43 <= |v| <= 128 && forall i :: 0 <= i < |v| ==> IsUnreserved(v[i])
  }

  predicate PkceMatches(sha: Sha256Fn, verifier: string, challenge: string) {
    IsVerifier(verifier) && Base64Url.Encode(sha(verifier)) == challenge
  }

  // ---------------------------------------------------------------- the challenge

  /** Base64 with padding (RFC 4648, section 4), as the platform's digest call returns it. */
  function Base64(bytes: Bytes): string {
    var sextets := Base64Url.Sextets(bytes);
    seq(|sextets|, i requires 0 <= i < |sextets| => Base64Url.CHARS[sextets[i]])
      + if |bytes| % 3 == 0 then "" else if |bytes| % 3 == 1 then "==" else "="
  }

  function UrlSafe(c: char): char { if c == '+' then '-' else if c == '/' then '_' else c }

  /** replace(/=+$/, '') */
  function StripPadding(s: string): string {
    if s != [] && s[|s| - 1] == '=' then StripPadding(s[..|s| - 1]) else s
  }

  function Base64ToBase64Url(b64: string): string {
    StripPadding(seq(|b64|, i requires 0 <= i < |b64| => UrlSafe(b64[i])))
  }

  /** The app's conversion of a padded digest is the server's base64url digest. */
  lemma ChallengeAgrees(bytes: Bytes)
    ensures Base64ToBase64Url(Base64(bytes)) == Base64Url.Encode(bytes)
  {
    var sextets, text, b64 := Base64Url.Sextets(bytes), Base64Url.Encode(bytes), Base64(bytes);
    forall i | 0 <= i < |sextets|
      ensures UrlSafe(b64[i]) == text[i] && text[i] != '='
    {
      SafeChar(sextets[i]);
    }
    var pad := b64[|text|..];
    var safe := seq(|b64|, i requires 0 <= i < |b64| => UrlSafe(b64[i]));
    assert safe == text + pad;
    StripsTo(text, pad);
  }

  lemma SafeChar(i: Base64Url.Sextet)
    ensures UrlSafe(Base64Url.CHARS[i]) == Base64Url.UrlChar(i) && Base64Url.UrlChar(i) != '='
  {
    Base64Url.CharsInOrder(i);
    Base64Url.UrlCharIsSextet(i);
  }

  lemma {:induction false} StripsTo(text: string, pad: string)
    requires text != [] ==> text[|text| - 1] != '='
    requires forall i :: 0 <= i < |pad| ==> pad[i] == '='
    ensures StripPadding(text + pad) == text
  {
    if pad != [] {
      assert (text + pad)[..|text + pad| - 1] == text + pad[..|pad| - 1];
      StripsTo(text, pad[..|pad| - 1]);
    } else {
      assert text + pad == text;
    }
  }

  /** A digest's base64url has the shape the server asks of a challenge. */
  lemma ChallengeShape(digest: Digest)
    ensures IsBase64Url43(Base64Url.Encode(digest))
  {
    Base64Url.EncodingValue(digest);
    Base64Url.SextetsWrite(digest);
  }

  // ---------------------------------------------------------------- the verifier

  const LIMIT := 198

  /** Rejection sampling: the bytes below 198, each modulo 66. */
  function Usable(bytes: Bytes): Bytes {
    if bytes == [] then []
    else Usable(bytes[..|bytes| - 1]) + if bytes[|bytes| - 1] < LIMIT then [bytes[|bytes| - 1]] else []
  }

  function VerifierChar(b: Byte): char { VERIFIER_CHARS[b % 66] }

  function VerifierText(bytes: Bytes): string { seq(|bytes|, i requires 0 <= i < |bytes| => VerifierChar(bytes[i])) }

  /** The characters of the first `length` usable bytes, or an error exactly when there are fewer. */
  method VerifierFromRandomBytes(bytes: Bytes, length: nat) returns (r: Option<string>)
    ensures r.Some? <==> |Usable(bytes)| >= length
    ensures r.Some? ==> r.value == VerifierText(Usable(bytes)[..length])
  {
    var out := "";
    var limit := 256 - 256 % |VERIFIER_CHARS|;
    var i := 0;
    while i < |bytes| && |out| < length
      invariant i <= |bytes| && |out| <= length
      invariant out == VerifierText(Usable(bytes[..i]))
    {
      assert bytes[..i + 1][..i] == bytes[..i];
      if bytes[i] < limit {
        out := out + [VERIFIER_CHARS[bytes[i] % |VERIFIER_CHARS|]];
      }
      i := i + 1;
    }
    UsablePrefix(bytes, i);
    if |out| < length {
      assert bytes[..i] == bytes;
      return None;
    }
    return Some(out);
  }

  lemma {:induction false} UsablePrefix(bytes: Bytes, i: nat)
    requires i <= |bytes|
    ensures Usable(bytes[..i]) <= Usable(bytes)
    decreases |bytes| - i
  {
    if i < |bytes| {
      assert bytes[..i + 1][..i] == bytes[..i];
      UsablePrefix(bytes, i + 1);
    } else {
      assert bytes[..i] == bytes;
    }
  }

  /** Whatever the random bytes, a verifier that comes out is one the server accepts. */
  lemma VerifierIsAccepted(bytes: Bytes, length: nat)
    requires 43 <= length <= 128 && |Usable(bytes)| >= length
    ensures IsVerifier(VerifierText(Usable(bytes)[..length]))
  {
    forall i | 0 <= i < length
      ensures IsUnreserved(VerifierText(Usable(bytes)[..length])[i])
    {
      CharIsUnreserved(Usable(bytes)[i]);
    }
  }

  /** Where a character stands in the verifier alphabet. */
  function Position(c: char): nat {
    if 'A' <= c <= 'Z' then c as int - 'A' as int
    else if 'a' <= c <= 'z' then c as int - 'a' as int + 26
    else if '0' <= c <= '9' then c as int - '0' as int + 52
    else if c == '-' then 62
    else if c == '.' then 63
    else if c == '_' then 64
    else 65
  }

  lemma CharIsUnreserved(b: Byte)
    ensures IsUnreserved(VerifierChar(b)) && Position(VerifierChar(b)) == b % 66
  {
    var k := b % 66;
    if k < 26 {
      Base64Url.UpperInOrder(k);
    } else if k < 52 {
      Base64Url.LowerInOrder(k - 26);
    } else if k < 62 {
      Base64Url.DigitsInOrder(k - 52);
    }
  }

  /** Every unreserved character comes from exactly three of the 198 byte values: the choice is uniform. */
  lemma EveryCharEquallyLikely(c: char)
    requires IsUnreserved(c)
    ensures var sources := set b: Byte | 0 <= b < LIMIT && VerifierChar(b) == c;
            sources == {Position(c), Position(c) + 66, Position(c) + 132} && |sources| == 3
  {
    var k := Position(c);
    forall b: Byte | 0 <= b < LIMIT
      ensures VerifierChar(b) == c <==> b in {k, k + 66, k + 132}
    {
      SourcesOf(c, b);
    }
  }

  lemma SourcesOf(c: char, b: Byte)
    requires IsUnreserved(c) && b < LIMIT
    ensures VerifierChar(b) == c <==> b in {Position(c), Position(c) + 66, Position(c) + 132}
  {
    CharIsUnreserved(b);
    SameChar(c, VerifierChar(b));
    ThreeResidues(b, Position(c));
  }

  lemma ThreeResidues(b: Byte, k: nat)
    requires b < LIMIT && k < 66
    ensures b % 66 == k <==> b in {k, k + 66, k + 132}
  {
  }

  lemma SameChar(c: char, d: char)
    requires IsUnreserved(c) && IsUnreserved(d)
    ensures Position(c) == Position(d) <==> c == d
  {
  }
}
