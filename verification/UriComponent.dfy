/**
 * Percent-encoding of image URLs into preview URLs, and reading them back
 * (section 2.1 of RFC 3986, UTF-8 of RFC 3629).
 */
module UriComponent {
  import opened Bytes
  import opened Results
  import opened Sequences
  import opened Texts

  // -------------------------------------------------------------------------
  // UTF-8
  // -------------------------------------------------------------------------

  function Utf8Char(c: char): (bs: seq<Byte>)
    ensures |bs| == Utf8Size(c)
  {
    var n := c as int;
    if n < 0x80 then [n]
    else if n < 0x800 then [0xC0 + n / 64, 0x80 + n % 64]
    else if n < 0x10000 then [0xE0 + n / 4096, 0x80 + n / 64 % 64, 0x80 + n % 64]
    else [0xF0 + n / 262144, 0x80 + n / 4096 % 64, 0x80 + n / 64 % 64, 0x80 + n % 64]
  }

  /** `str::bytes`. */
  function Utf8Bytes(s: string): seq<Byte> {
    if s == [] then [] else Utf8Char(s[0]) + Utf8Bytes(s[1..])
  }

  /** Six low bits after the higher ones. */
  function Shift(high: int, b: Byte): int {
    high * 64 + (b as int - 0x80)
  }

  /** The code point that starts a byte string. */
  function FirstCode(bs: seq<Byte>): int {
    var lead: int := if bs == [] then -1 else bs[0];
    if lead < 0x80 then lead
    else if |bs| >= 2 && lead < 0xE0 then Shift(lead - 0xC0, bs[1])
    else if |bs| >= 3 && lead < 0xF0 then Shift(Shift(lead - 0xE0, bs[1]), bs[2])
    else if |bs| >= 4 then Shift(Shift(Shift(lead - 0xF0, bs[1]), bs[2]), bs[3])
    else -1
  }

  lemma ShiftBack(n: nat)
    ensures n % 64 + 0x80 < 256 && Shift(n / 64, n % 64 + 0x80) == n
    ensures n / 4096 == n / 64 / 64 && n / 262144 == n / 64 / 64 / 64
  {
  }

  lemma FirstCodeIs(c: char, rest: seq<Byte>)
    ensures FirstCode(Utf8Char(c) + rest) == c as int
  {
    hide Shift;
    var n := c as int;
    assert n < 0x110000;
    ShiftBack(n);
    ShiftBack(n / 64);
    ShiftBack(n / 4096);
    var own := Utf8Char(c);
    var all := own + rest;
    assert all[0] == own[0];
    if |own| > 1 {
      assert all[1] == own[1];
    }
    if |own| > 2 {
      assert all[2] == own[2];
    }
    if |own| > 3 {
      assert all[3] == own[3];
    }
  }

  /** No two strings have the same bytes. */
  lemma {:induction false} Utf8IsInjective(a: string, b: string)
    requires Utf8Bytes(a) == Utf8Bytes(b)
    ensures a == b
  {
    hide Utf8Char, FirstCode;
    if a != [] && b != [] {
      FirstCodeIs(a[0], Utf8Bytes(a[1..]));
      FirstCodeIs(b[0], Utf8Bytes(b[1..]));
      assert a[0] == b[0];
      var n := Utf8Size(a[0]);
      assert Utf8Bytes(a[1..]) == Utf8Bytes(a)[n..] == Utf8Bytes(b)[n..] == Utf8Bytes(b[1..]);
      Utf8IsInjective(a[1..], b[1..]);
      assert a == [a[0]] + a[1..] && b == [b[0]] + b[1..];
    }
  }

  // -------------------------------------------------------------------------
  // Encoding
  // -------------------------------------------------------------------------

  /** The characters `encodeURIComponent` leaves alone. */
  predicate Preserved(b: Byte) {
    || 0x41 <= b <= 0x5A || 0x61 <= b <= 0x7A || 0x30 <= b <= 0x39
    || b == 0x2D || b == 0x5F || b == 0x2E || b == 0x21 || b == 0x7E
    || b == 0x2A || b == 0x27 || b == 0x28 || b == 0x29
  }

  function Hex(n: nat): char
    requires n < 16
  {
    if n < 10 then '0' + n as char else 'A' + (n - 10) as char
  }

  function EncodeByte(b: Byte): (r: string)
    ensures r != [] && r[0] != '&'
  {
    if Preserved(b) then [b as char] else ['%', Hex(b / 16), Hex(b % 16)]
  }

  function Encode(bs: seq<Byte>): string {
    if bs == [] then [] else EncodeByte(bs[0]) + Encode(bs[1..])
  }

  lemma {:induction false} EncodeOneMore(bs: seq<Byte>, b: Byte)
    ensures Encode(bs + [b]) == Encode(bs) + EncodeByte(b)
  {
    hide EncodeByte;
    if bs == [] {
      assert [b][1..] == [];
    } else {
      assert (bs + [b])[1..] == bs[1..] + [b];
      EncodeOneMore(bs[1..], b);
    }
  }

  method EncodeUriComponent(s: string) returns (out: string)
    ensures out == Encode(Utf8Bytes(s))
  {
    hide Encode, Utf8Bytes;
    var bytes := Utf8Bytes(s);
    out := "";
    EncodeNothing();
    assert bytes[..0] == [];
    var i := 0;
    while i < |bytes|
      invariant 0 <= i <= |bytes|
      invariant out == Encode(bytes[..i])
    {
      var b := bytes[i];
      assert bytes[..i + 1] == bytes[..i] + [b];
      EncodeOneMore(bytes[..i], b);
      if Preserved(b) {
        out := out + [b as char];
      } else {
        ghost var before := out;
        out := out + ['%'];
        out := out + [Hex(b / 16)];
        out := out + [Hex(b % 16)];
        assert out == before + EncodeByte(b);
      }
      i := i + 1;
    }
    assert bytes[..|bytes|] == bytes;
  }

  lemma EncodeNothing()
    ensures Encode([]) == ""
  {
  }

  // -------------------------------------------------------------------------
  // Decoding
  // -------------------------------------------------------------------------

  function HexValue(c: char): Option<nat> {
    if '0' <= c <= '9' then Some((c - '0') as nat)
    else if 'A' <= c <= 'F' then Some((c - 'A') as nat + 10)
    else if 'a' <= c <= 'f' then Some((c - 'a') as nat + 10)
    else None
  }

  /** Percent-decoding: triples become bytes, other ASCII characters stand for themselves. */
  function Decode(s: string): Option<seq<Byte>> {
    if s == [] then Some([])
    else if s[0] == '%' then
      if |s| >= 3 && HexValue(s[1]).Some? && HexValue(s[2]).Some? then
        Prepend((16 * HexValue(s[1]).value + HexValue(s[2]).value) % 256, Decode(s[3..]))
      else None
    else if s[0] < '\U{80}' then Prepend(s[0] as int, Decode(s[1..]))
    else None
  }

  function Prepend(b: Byte, rest: Option<seq<Byte>>): Option<seq<Byte>> {
    if rest.Some? then Some([b] + rest.value) else None
  }

  lemma HexValueOfHex(n: nat)
    requires n < 16
    ensures HexValue(Hex(n)) == Some(n)
  {
  }

  lemma DecodeByte(b: Byte, rest: string)
    ensures Decode(EncodeByte(b) + rest) == Prepend(b, Decode(rest))
  {
    var s := EncodeByte(b) + rest;
    if Preserved(b) {
      assert s[0] == b as char && s[1..] == rest;
    } else {
      HexValueOfHex(b / 16);
      HexValueOfHex(b % 16);
      assert s[0] == '%' && s[1] == Hex(b / 16) && s[2] == Hex(b % 16) && s[3..] == rest;
    }
  }

  /** Decoding undoes encoding, for every byte string. */
  lemma {:induction false} DecodeEncoded(bs: seq<Byte>)
    ensures Decode(Encode(bs)) == Some(bs)
  {
    hide Decode, EncodeByte;
    if bs == [] {
      DecodeNothing();
    } else {
      DecodeEncoded(bs[1..]);
      DecodeByte(bs[0], Encode(bs[1..]));
      assert bs == [bs[0]] + bs[1..];
    }
  }

  lemma DecodeNothing()
    ensures Decode("") == Some([])
  {
  }

  /** Preserved characters and upper-case triples of other bytes, and nothing else. */
  predicate Canonical(s: string) {
    s == [] ||
    (if s[0] == '%' then
       && |s| >= 3
       && (exists b: Byte :: !Preserved(b) && s[1] == Hex(b / 16) && s[2] == Hex(b % 16))
       && Canonical(s[3..])
     else s[0] < '\U{80}' && Preserved(s[0] as int) && Canonical(s[1..]))
  }

  lemma CanonicalByte(b: Byte, rest: string)
    requires Canonical(rest)
    ensures Canonical(EncodeByte(b) + rest)
  {
    var s := EncodeByte(b) + rest;
    if Preserved(b) {
      assert s[0] == b as char && s[1..] == rest;
    } else {
      assert s[0] == '%' && s[1] == Hex(b / 16) && s[2] == Hex(b % 16) && s[3..] == rest;
    }
  }

  lemma {:induction false} EncodedIsCanonical(bs: seq<Byte>)
    ensures Canonical(Encode(bs))
  {
    hide EncodeByte;
    if bs != [] {
      EncodedIsCanonical(bs[1..]);
      CanonicalByte(bs[0], Encode(bs[1..]));
    }
  }

  /** What stands first in a canonical string is some byte's encoding. */
  lemma CanonicalStarts(s: string) returns (b: Byte)
    requires Canonical(s) && s != []
    ensures EncodeByte(b) <= s && Canonical(s[|EncodeByte(b)|..])
  {
    if s[0] == '%' {
      b :| !Preserved(b) && s[1] == Hex(b / 16) && s[2] == Hex(b % 16);
      assert s[..3] == ['%', Hex(b / 16), Hex(b % 16)];
    } else {
      b := s[0] as int;
      assert s[..1] == [s[0]];
    }
  }

  /** Conversely every canonical string is the encoding of what it decodes to. */
  lemma {:induction false} CanonicalIsEncoded(s: string)
    requires Canonical(s)
    ensures Decode(s).Some? && Encode(Decode(s).value) == s
    decreases |s|
  {
    hide Canonical, Decode, EncodeByte;
    if s == [] {
      DecodeNothing();
    } else {
      var b := CanonicalStarts(s);
      var rest := s[|EncodeByte(b)|..];
      assert s == EncodeByte(b) + rest;
      CanonicalIsEncoded(rest);
      DecodeByte(b, rest);
      EncodeStarts(b, Decode(rest).value);
    }
  }

  lemma EncodeStarts(b: Byte, rest: seq<Byte>)
    ensures Encode([b] + rest) == EncodeByte(b) + Encode(rest)
  {
    assert ([b] + rest)[1..] == rest;
  }

  // -------------------------------------------------------------------------
  // Column counts
  // -------------------------------------------------------------------------

  function ParseDecimal(s: string): Option<nat> {
    if s == [] || !IsDigit(s[|s| - 1]) then None
    else
      var last := (s[|s| - 1] - '0') as nat;
      if |s| == 1 then Some(last)
      else
        var front := ParseDecimal(s[..|s| - 1]);
        if front.None? then None else Some(10 * front.value + last)
  }

  lemma {:induction false} DecimalReadsBack(n: nat)
    ensures ParseDecimal(Decimal(n)) == Some(n)
  {
    if n >= 10 {
      DecimalReadsBack(n / 10);
      var s := Decimal(n);
      assert s[..|s| - 1] == Decimal(n / 10);
    }
  }

  // -------------------------------------------------------------------------
  // Preview URLs
  // -------------------------------------------------------------------------

  const URL_KEY := "/ascii?url="
  const COLS_KEY := "&cols="
  const RAMP_KEY := "&ramp="

  /** The endpoint's URL for an already encoded image URL. */
  function PreviewOf(base: string, encoded: string, cols: nat, ramp: string): string {
    base + URL_KEY + encoded + COLS_KEY + Decimal(cols) + RAMP_KEY + ramp
  }

  function PreviewUrl(base: string, src: string, cols: nat, ramp: string): string {
    PreviewOf(base, Encode(Utf8Bytes(src)), cols, ramp)
  }

  datatype Request = Request(url: seq<Byte>, cols: nat, ramp: string)

  /** The value before the next '&', and what follows it. */
  function Field(s: string, key: string): Option<(string, string)> {
    if key <= s then
      var n := UpTo(s[|key|..], '&');
      Some((s[|key|..][..n], s[|key|..][n..]))
    else None
  }

  /** Reads a preview request for a known endpoint. */
  function ParsePreview(base: string, url: string): Option<Request> {
    var u := if base <= url then Field(url[|base|..], URL_KEY) else None;
    if u.None? then None
    else
      var c := Field(u.value.1, COLS_KEY);
      if c.None? || !(RAMP_KEY <= c.value.1) then None
      else
        var bytes, cols := Decode(u.value.0), ParseDecimal(c.value.0);
        if bytes.None? || cols.None? then None
        else Some(Request(bytes.value, cols.value, c.value.1[|RAMP_KEY|..]))
  }

  lemma FieldIs(key: string, value: string, rest: string)
    requires '&' !in value && (rest == [] || rest[0] == '&')
    ensures Field(key + value + rest, key) == Some((value, rest))
  {
    var s := key + value + rest;
    assert s[..|key|] == key && s[|key|..] == value + rest;
    UpToIs(value, '&', rest);
  }

  lemma {:induction false} EncodedHasNoDelimiter(bs: seq<Byte>)
    ensures '&' !in Encode(bs)
  {
    hide EncodeByte;
    if bs != [] {
      EncodedHasNoDelimiter(bs[1..]);
      EncodedByteHasNoDelimiter(bs[0]);
    }
  }

  lemma EncodedByteHasNoDelimiter(b: Byte)
    ensures '&' !in EncodeByte(b)
  {
  }

  /** The endpoint reads exactly the image URL's bytes, the column count and the ramp. */
  lemma PreviewReadsBack(base: string, src: string, cols: nat, ramp: string)
    ensures ParsePreview(base, PreviewUrl(base, src, cols, ramp)) == Some(Request(Utf8Bytes(src), cols, ramp))
  {
    hide Encode, Decode, Utf8Bytes, Decimal, ParseDecimal, Field;
    var e, d := Encode(Utf8Bytes(src)), Decimal(cols);
    var last := RAMP_KEY + ramp;
    var middle := COLS_KEY + d + last;
    var url := PreviewUrl(base, src, cols, ramp);
    assert url == base + (URL_KEY + e + middle);
    assert url[|base|..] == URL_KEY + e + middle;
    EncodedHasNoDelimiter(Utf8Bytes(src));
    FieldIs(URL_KEY, e, middle);
    FieldIs(COLS_KEY, d, last);
    assert last[|RAMP_KEY|..] == ramp && last[..|RAMP_KEY|] == RAMP_KEY;
    DecodeEncoded(Utf8Bytes(src));
    DecimalReadsBack(cols);
  }

  /** Two images or sizes never share a preview URL. */
  lemma PreviewIsInjective(base: string, src: string, cols: nat, ramp: string, src': string, cols': nat, ramp': string)
    requires PreviewUrl(base, src, cols, ramp) == PreviewUrl(base, src', cols', ramp')
    ensures src == src' && cols == cols' && ramp == ramp'
  {
    hide PreviewUrl, ParsePreview, Utf8Bytes;
    PreviewReadsBack(base, src, cols, ramp);
    PreviewReadsBack(base, src', cols', ramp');
    Utf8IsInjective(src, src');
  }

  // -------------------------------------------------------------------------
  // Routing
  // -------------------------------------------------------------------------

  /** What a parsed URL's authority is; None where parsing fails. */
  datatype Authority = Authority(scheme: string, host: Option<string>, port: Option<nat>)

  predicate IsPodUrl(parse: string -> Option<Authority>, podApi: string, src: string) {
    && podApi != ""
    && parse(podApi).Some? && parse(src).Some?
    && parse(podApi).value.host.Some?
    && parse(podApi).value == parse(src).value
  }

  function TrimEndSlashes(s: string): (r: string)
    ensures r <= s && (r == [] || r[|r| - 1] != '/')
    ensures forall c :: c in s[|r|..] ==> c == '/'
  {
    if s == [] || s[|s| - 1] != '/' then s
    else
      var r := TrimEndSlashes(s[..|s| - 1]);
      assert s[|r|..] == s[..|s| - 1][|r|..] + [s[|s| - 1]];
      r
  }

  function PodUrl(src: string, cols: nat, ramp: string): string {
    src + (if '?' in src then "&" else "?") + "format=ascii" + COLS_KEY + Decimal(cols) + RAMP_KEY + ramp
  }

  /** Candidate URLs in priority order: the pod itself for its own images, then the preview endpoint. */
  method AsciiFetchUrls(parse: string -> Option<Authority>, previewApi: string, podApi: string, src: string,
      cols: nat, ramp: string) returns (urls: seq<string>)
    ensures Trim(src) == [] ==> urls == []
    ensures Trim(src) != [] ==>
      urls == (if IsPodUrl(parse, podApi, src) then [PodUrl(src, cols, ramp)] else [])
        + (if TrimEndSlashes(previewApi) != "" then [PreviewUrl(TrimEndSlashes(previewApi), src, cols, ramp)] else [])
  {
    hide Decimal, Encode, Utf8Bytes, PreviewOf, PodUrl, Trim, IsPodUrl;
    if Trim(src) == [] {
      return [];
    }
    var base := TrimEndSlashes(previewApi);
    var preview: Option<string> := None;
    if base != "" {
      var encoded := EncodeUriComponent(src);
      preview := Some(PreviewOf(base, encoded, cols, ramp));
    }
    urls := [];
    if IsPodUrl(parse, podApi, src) {
      urls := urls + [PodUrl(src, cols, ramp)];
    }
    if preview.Some? {
      urls := urls + [preview.value];
    }
  }

  // -------------------------------------------------------------------------
  // Literally
  // -------------------------------------------------------------------------

  predicate Unreserved(c: char) {
    c in CAPITALS || c in SMALL || c in "0123456789" || c in "-_.!~*'()"
  }

  /** The unreserved characters stand for themselves, every other byte becomes an upper-case triple. */
  lemma EncodeByteIs(b: Byte)
    ensures Unreserved(b as char) ==> EncodeByte(b) == [b as char]
    ensures !Unreserved(b as char) ==> EncodeByte(b) == ['%', "0123456789ABCDEF"[b / 16], "0123456789ABCDEF"[b % 16]]
  {
    hide Unreserved;
    UnreservedIff(b);
    HexDigit(b / 16);
    HexDigit(b % 16);
  }

  lemma HexDigit(n: nat)
    requires n < 16
    ensures Hex(n) == "0123456789ABCDEF"[n]
  {
  }

  lemma UnreservedIff(b: Byte)
    ensures Preserved(b) <==> Unreserved(b as char)
  {
    forall k: nat | k < 26
      ensures CAPITALS[k] as int == 65 + k && SMALL[k] as int == 97 + k
    {
      LettersInOrder(k);
    }
    assert forall k :: 0 <= k < 10 ==> "0123456789"[k] as int == 48 + k;
    if 0x41 <= b <= 0x5A {
      assert CAPITALS[b - 0x41] == b as char;
    } else if 0x61 <= b <= 0x7A {
      assert SMALL[b - 0x61] == b as char;
    } else if 0x30 <= b <= 0x39 {
      assert "0123456789"[b - 0x30] == b as char;
    }
  }

  /** The two URLs, with their parameters in order. */
  lemma UrlsAre(base: string, src: string, ramp: string)
    ensures PreviewUrl(base, src, 80, ramp) == base + "/ascii?url=" + Encode(Utf8Bytes(src)) + "&cols=80&ramp=" + ramp
    ensures PodUrl(src, 80, ramp) == src + (if '?' in src then "&" else "?") + "format=ascii&cols=80&ramp=" + ramp
  {
    hide Encode, Utf8Bytes;
    assert Decimal(80) == "80";
    assert "&cols=" + "80" + "&ramp=" == "&cols=80&ramp=";
  }

  /** A pod's own image: parsed, with a host, and of the same scheme, host and port. */
  lemma PodUrlIff(parse: string -> Option<Authority>, podApi: string, src: string)
    ensures IsPodUrl(parse, podApi, src) <==>
      podApi != "" && exists scheme, host, port ::
        parse(podApi) == Some(Authority(scheme, Some(host), port)) && parse(src) == Some(Authority(scheme, Some(host), port))
  {
  }
}
