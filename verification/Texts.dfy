/** ASCII text helpers of Rust's standard library. */
module Texts {
  function LowerChar(c: char): (l: char) {
    if 'A' <= c <= 'Z' then (c as int + 32) as char else c
  }

  /** `str::to_ascii_lowercase`. */
  function Lower(s: string): (l: string)
    ensures |l| == |s| && forall i :: 0 <= i < |s| ==> l[i] == LowerChar(s[i])
  {
    if s == [] then [] else [LowerChar(s[0])] + Lower(s[1..])
  }

  lemma LowerTwice(s: string)
    ensures Lower(Lower(s)) == Lower(s)
  {
  }

  predicate IsDigit(c: char) {
    '0' <= c <= '9'
  }

  /** `u32::to_string`. */
  function Decimal(n: nat): (s: string)
    ensures s != [] && forall c :: c in s ==> IsDigit(c)
  {
    var last := ['0' + (n % 10) as char];
    if n < 10 then last else Decimal(n / 10) + last
  }

  predicate IsHexDigit(c: char) {
    IsDigit(c) || 'a' <= c <= 'f' || 'A' <= c <= 'F'
  }

  /** Exactly 64 ASCII hex characters. */
  predicate IsPubkey(s: string) {
    |s| == 64 && forall i :: 0 <= i < |s| ==> IsHexDigit(s[i])
  }

  /** Unicode white space, as `char::is_whitespace` has it. */
  predicate IsSpace(c: char) {
    || '\t' <= c <= '\r' || c == ' ' || c == '\U{85}' || c == '\U{A0}' || c == '\U{1680}'
    || '\U{2000}' <= c <= '\U{200A}' || c == '\U{2028}' || c == '\U{2029}'
    || c == '\U{202F}' || c == '\U{205F}' || c == '\U{3000}'
  }

  function TrimStart(s: string): (r: string)
    ensures |r| <= |s| && s[|s| - |r|..] == r && (r != [] ==> !IsSpace(r[0]))
    ensures forall c :: c in s[..|s| - |r|] ==> IsSpace(c)
  {
    if s == [] || !IsSpace(s[0]) then s
    else
      var r := TrimStart(s[1..]);
      assert s[..|s| - |r|] == [s[0]] + s[1..][..|s| - 1 - |r|];
      r
  }

  function TrimEnd(s: string): (r: string)
    ensures r <= s && (r != [] ==> !IsSpace(r[|r| - 1]))
    ensures forall c :: c in s[|r|..] ==> IsSpace(c)
  {
    if s == [] || !IsSpace(s[|s| - 1]) then s
    else
      var r := TrimEnd(s[..|s| - 1]);
      assert s[|r|..] == s[..|s| - 1][|r|..] + [s[|s| - 1]];
      r
  }

  /** `str::trim`: what is left neither starts nor ends with white space. */
  function Trim(s: string): (r: string)
    ensures r != [] ==> !IsSpace(r[0]) && !IsSpace(r[|r| - 1])
  {
    TrimEnd(TrimStart(s))
  }

  function Utf8Size(c: char): (n: nat)
    ensures 1 <= n <= 4
  {
    if c < '\U{80}' then 1 else if c < '\U{800}' then 2 else if c < '\U{10000}' then 3 else 4
  }

  /** `str::len`: bytes, not characters. */
  function ByteLength(s: string): (n: nat)
    ensures |s| <= n
    ensures n == |s| <==> forall c :: c in s ==> Utf8Size(c) == 1
  {
    if s == [] then 0
    else
      assert s == [s[0]] + s[1..];
      Utf8Size(s[0]) + ByteLength(s[1..])
  }

  // -------------------------------------------------------------------------
  // The same, character by character
  // -------------------------------------------------------------------------

  const CAPITALS := "ABCDEFGHIJKLMNOPQRSTUVWXYZ"
  const SMALL := "abcdefghijklmnopqrstuvwxyz"

  /** Lower-casing turns the 26 capitals into their small letters and leaves every other character. */
  lemma LowerIsLetterByLetter(s: string, i: nat, k: nat)
    requires i < |s| && k < 26
    ensures s[i] == CAPITALS[k] ==> Lower(s)[i] == SMALL[k]
    ensures s[i] !in CAPITALS ==> Lower(s)[i] == s[i]
  {
    LettersInOrder(k);
    if 'A' <= s[i] <= 'Z' {
      LettersInOrder((s[i] - 'A') as nat);
      assert s[i] in CAPITALS;
    }
  }

  lemma LettersInOrder(k: nat)
    requires k < 26
    ensures CAPITALS[k] as int == 65 + k && SMALL[k] as int == 97 + k
  {
  }

  /** A key is 64 characters of these. */
  lemma PubkeyIs64HexDigits(s: string)
    ensures IsPubkey(s) <==> |s| == 64 && forall c <- s :: c in "0123456789abcdefABCDEF"
  {
    forall c: char
      ensures IsHexDigit(c) <==> c in "0123456789abcdefABCDEF"
    {
      HexDigits(c);
    }
    assert forall i :: 0 <= i < |s| ==> s[i] in s;
  }

  lemma HexDigits(c: char)
    ensures IsHexDigit(c) <==> c in "0123456789abcdefABCDEF"
  {
    var digits := "0123456789abcdefABCDEF";
    assert forall k :: 0 <= k < 10 ==> digits[k] as int == 48 + k;
    assert forall k :: 10 <= k < 16 ==> digits[k] as int == 87 + k;
    assert forall k :: 16 <= k < 22 ==> digits[k] as int == 49 + k;
    if IsHexDigit(c) {
      assert c == digits[if c <= '9' then c as int - 48 else if c <= 'F' then c as int - 49 else c as int - 87];
    }
  }

  /** The code points with the Unicode property White_Space. */
  lemma SpacesAreWhiteSpace(c: char)
    ensures IsSpace(c) <==> (c as int in
      {0x9, 0xA, 0xB, 0xC, 0xD, 0x20, 0x85, 0xA0, 0x1680, 0x2000, 0x2001, 0x2002, 0x2003, 0x2004, 0x2005, 0x2006,
       0x2007, 0x2008, 0x2009, 0x200A, 0x2028, 0x2029, 0x202F, 0x205F, 0x3000})
  {
  }

  ghost predicate AllSpace(s: string) {
    forall i :: 0 <= i < |s| ==> IsSpace(s[i])
  }

  predicate Bare(s: string) {
    s != [] ==> !IsSpace(s[0]) && !IsSpace(s[|s| - 1])
  }

  /** Trimming takes away nothing but the white space on either side. */
  lemma TrimTakesTheEnds(s: string) returns (before: string, after: string)
    ensures s == before + Trim(s) + after && AllSpace(before) && AllSpace(after) && Bare(Trim(s))
  {
    hide IsSpace, TrimStart, TrimEnd;
    var t := TrimStart(s);
    before, after := s[..|s| - |t|], t[|Trim(s)|..];
    assert forall i :: 0 <= i < |before| ==> before[i] in before;
    assert forall i :: 0 <= i < |after| ==> after[i] in after;
    assert s == before + t && t == Trim(s) + after;
    assert Trim(s) + after == t ==> before + Trim(s) + after == before + t;
  }

  /** There is one way only to leave text that neither starts nor ends with white space. */
  lemma BareMiddleIsUnique(a: string, t: string, b: string, a': string, t': string, b': string)
    requires a + t + b == a' + t' + b' && AllSpace(a) && AllSpace(b) && AllSpace(a') && AllSpace(b')
    requires Bare(t) && Bare(t')
    ensures |a| + |b| <= |a'| + |b'| && (t' != [] ==> |a| <= |a'|)
  {
    hide IsSpace;
    var s := a + t + b;
    if t' != [] {
      assert forall i :: 0 <= i < |a| ==> s[i] == a[i] && IsSpace(s[i]);
      assert forall i :: |s| - |b| <= i < |s| ==> s[i] == b[i - (|s| - |b|)] && IsSpace(s[i]);
      assert s[|a'|] == t'[0] && s[|s| - |b'| - 1] == t'[|t'| - 1];
    }
  }

  lemma TrimIsUnique(s: string, before: string, text: string, after: string)
    requires s == before + text + after && AllSpace(before) && AllSpace(after) && Bare(text)
    ensures Trim(s) == text
  {
    hide IsSpace, TrimStart, TrimEnd, AllSpace, Bare;
    var b, a := TrimTakesTheEnds(s);
    BareMiddleIsUnique(before, text, after, b, Trim(s), a);
    BareMiddleIsUnique(b, Trim(s), a, before, text, after);
    if text != [] {
      assert text == s[|before|..|s| - |after|] && Trim(s) == s[|b|..|s| - |a|];
    }
  }

  /** A string's byte length is the sum over the ranges of section 3 of RFC 3629. */
  lemma ByteLengthCounts(s: string, c: char)
    ensures ByteLength("") == 0 && ByteLength([c] + s) == ByteLength(s) +
      (if c as int <= 0x7F then 1 else if c as int <= 0x7FF then 2 else if c as int <= 0xFFFF then 3 else 4)
  {
    assert ([c] + s)[1..] == s;
  }
}
