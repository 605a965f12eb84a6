/** The string primitives the image-source classification relies on:
    ECMAScript `trim`/`trimStart`, removal of a leading byte-order mark,
    and an ASCII case-insensitive substring search (the `/i` flag of a
    regular expression whose letters are all ASCII). */
module Text {
  import opened Wrappers

  /** U+FEFF, the byte-order mark. */
  const Bom: char := '\U{FEFF}'

  /** The characters `String.prototype.trim` removes: ECMAScript's
      WhiteSpace (which includes U+FEFF) and LineTerminator sets. */
  predicate IsJsSpace(c: char) {
    || c == '\t' || c == '\n' || c == '\U{000B}' || c == '\U{000C}' || c == '\r'
    || c == ' ' || c == '\U{00A0}' || c == '\U{1680}'
    || ('\U{2000}' <= c <= '\U{200A}')
    || c == '\U{2028}' || c == '\U{2029}' || c == '\U{202F}' || c == '\U{205F}'
    || c == '\U{3000}' || c == Bom
  }

  /** `s.trimStart()`: `s` without its leading space characters. */
  function TrimStart(s: string): (r: string)
    ensures |r| <= |s|
    ensures r != [] ==> !IsJsSpace(r[0])
  {
    if s != [] && IsJsSpace(s[0]) then TrimStart(s[1..]) else s
  }

  /** `s.trimEnd()`: `s` without its trailing space characters. */
  function TrimEnd(s: string): (r: string)
    ensures |r| <= |s|
    ensures r != [] ==> !IsJsSpace(r[|r| - 1])
  {
    if s != [] && IsJsSpace(s[|s| - 1]) then TrimEnd(s[..|s| - 1]) else s
  }

  /** `s.trim()`: `s` without its leading and trailing space characters. */
  function Trim(s: string): (r: string)
    ensures |r| <= |s|
    ensures r != [] ==> !IsJsSpace(r[0]) && !IsJsSpace(r[|r| - 1])
  {
    var t := TrimStart(s);
    var r := TrimEnd(t);
    assert r != [] ==> r[0] == t[0] by {
      if r != [] { TrimEndIsSpacePrefix(t); }
    }
    r
  }

  /** `trimStart` removes a prefix made only of space characters. */
  lemma {:induction false} TrimStartIsSpaceSuffix(s: string)
    ensures var r := TrimStart(s);
      r == s[|s| - |r|..] && forall i :: 0 <= i < |s| - |r| ==> IsJsSpace(s[i])
  {
    if s != [] && IsJsSpace(s[0]) {
      TrimStartIsSpaceSuffix(s[1..]);
    }
  }

  /** `trimEnd` removes a suffix made only of space characters. */
  lemma {:induction false} TrimEndIsSpacePrefix(s: string)
    ensures var r := TrimEnd(s);
      r == s[..|r|] && forall i :: |r| <= i < |s| ==> IsJsSpace(s[i])
  {
    if s != [] && IsJsSpace(s[|s| - 1]) {
      TrimEndIsSpacePrefix(s[..|s| - 1]);
    }
  }

  /** The number of leading space characters of `s`. */
  function LeadingSpace(s: string): nat {
    |s| - |TrimStart(s)|
  }

  /** `trim` keeps the slice of `s` between its leading and trailing space runs. */
  lemma TrimIsSpaceFreeSlice(s: string)
    ensures var r, k := Trim(s), LeadingSpace(s);
      && k + |r| <= |s| && r == s[k..k + |r|]
      && (forall i :: 0 <= i < k ==> IsJsSpace(s[i]))
      && (forall i :: k + |r| <= i < |s| ==> IsJsSpace(s[i]))
  {
    var t := TrimStart(s);
    TrimStartIsSpaceSuffix(s);
    TrimEndIsSpacePrefix(t);
    var k := LeadingSpace(s);
    var r := Trim(s);
    assert r == s[k..k + |r|];
    assert forall i :: k + |r| <= i < |s| ==> IsJsSpace(s[i]) by {
      forall i | k + |r| <= i < |s| ensures IsJsSpace(s[i]) {
        assert s[i] == t[i - k];
      }
    }
  }

  /** A string made only of space characters trims to the empty string. */
  lemma TrimOfBlank(s: string)
    requires forall i :: 0 <= i < |s| ==> IsJsSpace(s[i])
    ensures Trim(s) == ""
  {
    TrimIsSpaceFreeSlice(s);
  }

  /** A string whose first and last characters are not space is its own trim. */
  lemma TrimOfSolidEnds(s: string)
    requires s != [] && !IsJsSpace(s[0]) && !IsJsSpace(s[|s| - 1])
    ensures Trim(s) == s
  {
    assert TrimStart(s) == s;
    assert TrimEnd(s) == s;
  }

  /** Trimming is idempotent. */
  lemma TrimIdempotent(s: string)
    ensures Trim(Trim(s)) == Trim(s)
  {
    if Trim(s) != [] {
      TrimOfSolidEnds(Trim(s));
    }
  }

  /** `s.replace(/^\uFEFF/, '')`: drops one leading byte-order mark. */
  function StripBom(s: string): string {
    if s != [] && s[0] == Bom then s[1..] else s
  }

  /** Text that is already trimmed has no byte-order mark and no leading
      space left, so stripping a BOM and then trimming the start changes
      nothing: U+FEFF is itself a space character of `trim`. */
  lemma BomStripRedundant(s: string)
    ensures TrimStart(StripBom(Trim(s))) == Trim(s)
  {
    var r := Trim(s);
    assert StripBom(r) == r;
    if r != [] {
      assert TrimStart(r) == r;
    }
  }

  /** ASCII lower case; every other character is left alone. */
  function AsciiLower(c: char): (l: char)
    ensures 'A' <= c <= 'Z' ==> 'a' <= l <= 'z'
    ensures !('A' <= c <= 'Z') ==> l == c
  {
    if 'A' <= c <= 'Z' then (c as int + 32) as char else c
  }

  /** The lower-case pattern `pat` occurs in `s` at index `i`, ignoring the
      case of ASCII letters in `s`. */
  predicate MatchesCiAt(s: string, i: nat, pat: string) {
    i + |pat| <= |s| && forall k :: 0 <= k < |pat| ==> AsciiLower(s[i + k]) == pat[k]
  }

  /** The first index at or after `from` where `pat` occurs case-insensitively. */
  function FindCi(s: string, pat: string, from: nat): (r: Option<nat>)
    decreases |s| - from
    ensures r.Some? ==> from <= r.value && MatchesCiAt(s, r.value, pat)
    ensures r.Some? ==> forall j :: from <= j < r.value ==> !MatchesCiAt(s, j, pat)
    ensures r.None? ==> forall j :: from <= j ==> !MatchesCiAt(s, j, pat)
  {
    if from + |pat| > |s| then None
    else if MatchesCiAt(s, from, pat) then Some(from)
    else FindCi(s, pat, from + 1)
  }

  /** A pattern can only occur where its first character does. */
  lemma MatchNeedsFirstChar(s: string, i: nat, pat: string)
    requires pat != [] && !('a' <= pat[0] <= 'z')
    requires MatchesCiAt(s, i, pat)
    ensures i < |s| && s[i] == pat[0]
  {
    assert AsciiLower(s[i + 0]) == pat[0];
  }
}
