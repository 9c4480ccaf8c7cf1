/** Small shared vocabulary: optional values, outcomes, and the text operations the services use. */
module Prelude {

  datatype Option<+T> = None | Some(value: T)

  datatype Result<+T, +E> = Ok(value: T) | Err(error: E)

  type Byte = b: int | 0 <= b < 256

  /** ASCII lower-casing, as the e-mail and chain comparisons use it. */
  function Lower(s: string): string {
    seq(|s|, i requires 0 <= i < |s| =>
      if 'A' <= s[i] <= 'Z' then s[i] - 'A' + 'a' else s[i])
  }

  predicate IsBlank(c: char) {
    c == ' ' || c == '\t' || c == '\n' || c == '\r'
  }

  function Trim(s: string): string {
    if |s| == 0 then s
    else if IsBlank(s[0]) then Trim(s[1..])
    else if IsBlank(s[|s| - 1]) then Trim(s[..|s| - 1])
    else s
  }

  predicate IsBase64UrlChar(c: char) {
    || 'A' <= c <= 'Z'
    || 'a' <= c <= 'z'
    || '0' <= c <= '9'
    || c == '-'
    || c == '_'
  }

  /** The shape /^[A-Za-z0-9_-]{43}$/: what 32 random or hashed bytes look like in base64url. */
  predicate IsBase64Url43(s: string) {
    |s| == 43 && forall i :: 0 <= i < |s| ==> IsBase64UrlChar(s[i])
  }

  /** The two characters are equal, or are the two cases of one letter, 32 code points apart. */
  predicate SameLetter(c: char, d: char) {
    c == d
    || ('A' <= c <= 'Z' && d as int == c as int + 32)
    || ('A' <= d <= 'Z' && c as int == d as int + 32)
  }

  /** Two texts are equal in lower case exactly when they differ in the case of letters at most, and none is left in capitals. */
  lemma LowerIgnoresCase(s: string, t: string)
    ensures Lower(s) == Lower(t) <==> |s| == |t| && forall i :: 0 <= i < |s| ==> SameLetter(s[i], t[i])
    ensures |Lower(s)| == |s| && forall i :: 0 <= i < |s| ==> SameLetter(s[i], Lower(s)[i]) && !('A' <= Lower(s)[i] <= 'Z')
  {
    forall i | 0 <= i < |s| && |s| == |t|
      ensures Lower(s)[i] == Lower(t)[i] <==> SameLetter(s[i], t[i])
    {
    }
    if |s| == |t| && forall i :: 0 <= i < |s| ==> SameLetter(s[i], t[i]) {
      assert forall i :: 0 <= i < |s| ==> Lower(s)[i] == Lower(t)[i];
    }
  }

  /** Trimming takes blanks off both ends and nothing else. */
  lemma {:induction false} TrimTakesBlanks(s: string) returns (a: nat, b: nat)
    ensures a <= b <= |s| && Trim(s) == s[a..b]
    ensures forall i :: (0 <= i < a || b <= i < |s|) ==> s[i] == ' ' || s[i] == '\t' || s[i] == '\n' || s[i] == '\r'
    ensures a < b ==> s[a] !in " \t\n\r" && s[b - 1] !in " \t\n\r"
  {
    if |s| == 0 {
      a, b := 0, 0;
    } else if IsBlank(s[0]) {
      a, b := TrimTakesBlanks(s[1..]);
      assert s[1..][a..b] == s[a + 1..b + 1];
      assert forall i :: 0 <= i < |s| - 1 ==> s[1..][i] == s[i + 1];
      a, b := a + 1, b + 1;
    } else if IsBlank(s[|s| - 1]) {
      a, b := TrimTakesBlanks(s[..|s| - 1]);
      assert s[..|s| - 1][a..b] == s[a..b];
    } else {
      a, b := 0, |s|;
    }
  }

  lemma SubsetSize<T>(small: set<T>, large: set<T>)
    requires small <= large
    ensures |small| <= |large|
  {
    assert large == small + (large - small);
  }
}
