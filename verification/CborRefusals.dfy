/** Which inputs the readers of `Cbor` refuse, and as what; and that their UTF-8 is that of strings. */
module CborRefusals {
  import opened Results
  import opened Bytes
  import opened Cbor
  import opened Texts
  import opened UriComponent

  /** The bytes an initial byte announces after itself: none below 24, then 1, 2, 4, 8; 28 and up are reserved. */
  predicate Announces(first: Byte, width: nat) {
    var info := first % 32;
    (info < 24 && width == 0) || (info == 24 && width == 1) || (info == 25 && width == 2) ||
    (info == 26 && width == 4) || (info == 27 && width == 8)
  }

  /** A head is read exactly if its bytes are there; what is missing or reserved is told apart. */
  lemma HeadRefusals(data: seq<Byte>, pos: nat)
    requires pos < |data|
    ensures SkipHead(data, pos).Ok? <==> exists width: nat :: Announces(data[pos], width) && pos + width < |data|
    ensures SkipHead(data, pos) == Err(Truncated) <==> exists width: nat :: Announces(data[pos], width) && |data| <= pos + width
    ensures forall e :: SkipHead(data, pos) == Err(e) ==> e == Truncated || (e == UnsupportedInfo(data[pos] % 32) && data[pos] % 32 >= 28)
  {
    hide FromBigEndian;
    assert Announces(data[pos], if data[pos] % 32 < 24 then 0 else if data[pos] % 32 == 24 then 1
      else if data[pos] % 32 == 25 then 2 else if data[pos] % 32 == 26 then 4 else 8) || data[pos] % 32 >= 28;
  }

  /** A map length is an initial byte 0xA0 + n, or 0xB8 and n. */
  lemma MapLenIff(data: seq<Byte>, pos: nat, n: nat, size: nat)
    ensures ReadMapLen(data, pos) == Ok((n, size)) <==>
      (pos < |data| && n < 24 && data[pos] == 0xA0 + n && size == 1) ||
      (pos + 1 < |data| && data[pos] == 0xB8 && data[pos + 1] == n && size == 2)
    ensures ReadMapLen(data, pos) == Err(Truncated) <==> pos >= |data| || (data[pos] == 0xB8 && pos + 1 == |data|)
    ensures forall m :: ReadMapLen(data, pos) == Err(WrongMajor(m)) <==> pos < |data| && m == data[pos] / 32 && m != 5
    ensures forall i :: ReadMapLen(data, pos) == Err(UnsupportedInfo(i)) <==>
      pos < |data| && data[pos] / 32 == 5 && i == data[pos] % 32 && i > 24
  {
  }

  /** An integer is refused first for its head, of at most four bytes, then for not being one. */
  lemma IntRefusals(data: seq<Byte>, pos: nat)
    ensures ReadInt(data, pos) == Err(Truncated) <==>
      pos >= |data| || exists width: nat :: width <= 4 && Announces(data[pos], width) && |data| <= pos + width
    ensures forall i :: ReadInt(data, pos) == Err(UnsupportedInfo(i)) <==> pos < |data| && i == data[pos] % 32 && i >= 27
    ensures forall m :: ReadInt(data, pos) == Err(WrongMajor(m)) <==>
      pos < |data| && m == data[pos] / 32 && m >= 2 && exists width: nat :: width <= 4 && Announces(data[pos], width) && pos + width < |data|
  {
    hide FromBigEndian;
    if pos < |data| {
      var info := data[pos] % 32;
      assert info < 27 ==> Announces(data[pos], if info < 24 then 0 else if info == 24 then 1 else if info == 25 then 2 else 4);
    }
  }

  /** The argument after an initial byte, for heads of at most two bytes. */
  function Argument(data: seq<Byte>, pos: nat, width: nat): (n: nat)
    requires pos + width < |data| && width <= 2
  {
    if width == 0 then data[pos] % 32
    else if width == 1 then data[pos + 1]
    else 256 * data[pos + 1] as int + data[pos + 2] as int
  }

  predicate ShortArgument(data: seq<Byte>, pos: nat, width: nat, n: nat) {
    pos + width < |data| && width <= 2 && Announces(data[pos], width) && n == Argument(data, pos, width)
  }

  lemma TwoByteArgument(data: seq<Byte>, pos: nat)
    requires pos + 2 < |data|
    ensures FromBigEndian(data[pos + 1..pos + 3]) == 256 * data[pos + 1] as int + data[pos + 2] as int
  {
    var two := data[pos + 1..pos + 3];
    assert two == [data[pos + 1], data[pos + 2]] && two[..1] == [data[pos + 1]] && two[..1][..0] == [];
  }

  /** A byte string: 0x40 on, the head, and that many bytes; each way to miss that has its own answer. */
  lemma BstrIff(data: seq<Byte>, pos: nat, bs: seq<Byte>, size: nat)
    ensures ReadBstr(data, pos) == Ok((bs, size)) <==>
      pos < |data| && data[pos] / 32 == 2 &&
      exists width: nat ::
        ShortArgument(data, pos, width, |bs|) && size == 1 + width + |bs| && At(data, pos + 1 + width, bs)
  {
    hide FromBigEndian;
    if pos + 2 < |data| {
      TwoByteArgument(data, pos);
    }
    if ReadBstr(data, pos) == Ok((bs, size)) {
      var width := size - 1 - |bs|;
      assert ShortArgument(data, pos, width, |bs|) && At(data, pos + 1 + width, bs);
    }
  }

  lemma BstrRefusals(data: seq<Byte>, pos: nat)
    ensures ReadBstr(data, pos) == Err(Truncated) <==>
      pos >= |data| || (data[pos] / 32 == 2 && exists width: nat :: width <= 2 && Announces(data[pos], width) && |data| <= pos + width)
    ensures forall m :: ReadBstr(data, pos) == Err(WrongMajor(m)) <==> pos < |data| && m == data[pos] / 32 && m != 2
    ensures forall i :: ReadBstr(data, pos) == Err(UnsupportedInfo(i)) <==>
      pos < |data| && data[pos] / 32 == 2 && i == data[pos] % 32 && i >= 26
    ensures forall need, have :: ReadBstr(data, pos) == Err(Overflow(need, have)) <==>
      pos < |data| && data[pos] / 32 == 2 && have == |data| < need &&
      exists width: nat, n: nat :: ShortArgument(data, pos, width, n) && need == pos + 1 + width + n
  {
    hide FromBigEndian;
    if pos < |data| {
      var info := data[pos] % 32;
      var width := if info < 24 then 0 else if info == 24 then 1 else 2;
      assert info < 26 ==> Announces(data[pos], width);
      if pos + 2 < |data| {
        TwoByteArgument(data, pos);
      }
      if info < 26 && pos + width < |data| {
        assert ShortArgument(data, pos, width, Argument(data, pos, width));
      }
    }
  }

  /** A text string is the byte string with an initial byte 0x20 higher, if its payload is UTF-8. */
  lemma TstrIsBstr(data: seq<Byte>, pos: nat)
    ensures forall m :: ReadTstr(data, pos) == Err(WrongMajor(m)) <==> pos < |data| && m == data[pos] / 32 && m != 3
    ensures pos < |data| && data[pos] / 32 == 3 ==>
      ReadTstr(data, pos) == match ReadBstr(data[pos := data[pos] - 32], pos)
        case Ok((bs, size)) => if Utf8(bs) then Ok((bs, size)) else Err(BadUtf8)
        case Err(e) => Err(e)
  {
    hide FromBigEndian, Utf8;
    if pos < |data| && data[pos] / 32 == 3 {
      var other := data[pos := data[pos] - 32];
      assert forall i, j :: pos < i <= j <= |data| ==> other[i..j] == data[i..j];
    }
  }

  // -------------------------------------------------------------------------
  // UTF-8
  // -------------------------------------------------------------------------

  /** A code point below 2^18 in digits of six bits. */
  lemma SixBits(n: nat)
    ensures n == 64 * (n / 64) + n % 64 && n / 64 == 64 * (n / 4096) + n / 64 % 64
    ensures n / 4096 == 64 * (n / 262144) + n / 4096 % 64
  {
    ShiftBack(n);
    ShiftBack(n / 64);
  }

  lemma CharIsOneSequence(bs: seq<Byte>, i: nat, c: char)
    requires At(bs, i, Utf8Char(c))
    ensures Utf8Length(bs, i) == |Utf8Char(c)|
  {
    var own, n := Utf8Char(c), c as int;
    assert n < 0x110000 && (n < 0xD800 || n > 0xDFFF);
    SixBits(n);
    SixBits(n / 64);
    SixBits(n / 4096);
    assert bs[i] == bs[i..i + |own|][0] == own[0];
    if |own| >= 2 {
      assert bs[i + 1] == bs[i..i + |own|][1] == own[1];
    }
    if |own| >= 3 {
      assert bs[i + 2] == bs[i..i + |own|][2] == own[2];
    }
    if |own| == 4 {
      assert bs[i + 3] == bs[i..i + |own|][3] == own[3];
    }
  }

  lemma Joined(high: nat, low: nat)
    requires low < 64
    ensures (64 * high + low) / 64 == high && (64 * high + low) % 64 == low
  {
  }

  lemma TwoIsOneChar(a: nat, b: nat)
    requires 0xC2 <= a <= 0xDF && 0x80 <= b <= 0xBF
    ensures var n := 64 * (a - 0xC0) + (b - 0x80);
      0x80 <= n < 0x800 && Utf8Char(n as char) == [a, b]
  {
    Joined(a - 0xC0, b - 0x80);
  }

  lemma ThreeIsOneChar(a: nat, b: nat, c: nat)
    requires 0xE0 <= a <= 0xEF && 0x80 <= b <= 0xBF && 0x80 <= c <= 0xBF && (a == 0xE0 ==> b >= 0xA0) && (a == 0xED ==> b <= 0x9F)
    ensures var n := 64 * (64 * (a - 0xE0) + (b - 0x80)) + (c - 0x80);
      0x800 <= n < 0x10000 && (n < 0xD800 || n > 0xDFFF) && Utf8Char(n as char) == [a, b, c]
  {
    var high := 64 * (a - 0xE0) + (b - 0x80);
    Joined(a - 0xE0, b - 0x80);
    Joined(high, c - 0x80);
    ShiftBack(64 * high + (c - 0x80));
  }

  lemma FourIsOneChar(a: nat, b: nat, c: nat, d: nat)
    requires 0xF0 <= a <= 0xF4 && 0x80 <= b <= 0xBF && 0x80 <= c <= 0xBF && 0x80 <= d <= 0xBF
    requires (a == 0xF0 ==> b >= 0x90) && (a == 0xF4 ==> b <= 0x8F)
    ensures var n := 64 * (64 * (64 * (a - 0xF0) + (b - 0x80)) + (c - 0x80)) + (d - 0x80);
      0x10000 <= n < 0x110000 && Utf8Char(n as char) == [a, b, c, d]
  {
    var top := 64 * (a - 0xF0) + (b - 0x80);
    var high := 64 * top + (c - 0x80);
    Joined(a - 0xF0, b - 0x80);
    Joined(top, c - 0x80);
    Joined(high, d - 0x80);
    ShiftBack(64 * high + (d - 0x80));
  }

  lemma SequenceIsOneChar(bs: seq<Byte>, i: nat) returns (c: char)
    requires i < |bs| && Utf8Length(bs, i) > 0
    ensures At(bs, i, Utf8Char(c)) && |Utf8Char(c)| == Utf8Length(bs, i)
  {
    hide Utf8Char;
    var n := Utf8Length(bs, i);
    var a: int := bs[i];
    if n == 1 {
      c := a as char;
      OneIsOneChar(a);
      assert bs[i..i + 1] == [bs[i]];
    } else {
      var b: int := bs[i + 1];
      if n == 2 {
        TwoIsOneChar(a, b);
        c := (64 * (a - 0xC0) + (b - 0x80)) as char;
        assert bs[i..i + 2] == [bs[i], bs[i + 1]];
      } else if n == 3 {
        var d: int := bs[i + 2];
        ThreeIsOneChar(a, b, d);
        c := (64 * (64 * (a - 0xE0) + (b - 0x80)) + (d - 0x80)) as char;
        assert bs[i..i + 3] == [bs[i], bs[i + 1], bs[i + 2]];
      } else {
        var d: int, e: int := bs[i + 2], bs[i + 3];
        FourIsOneChar(a, b, d, e);
        c := (64 * (64 * (64 * (a - 0xF0) + (b - 0x80)) + (d - 0x80)) + (e - 0x80)) as char;
        assert bs[i..i + 4] == [bs[i], bs[i + 1], bs[i + 2], bs[i + 3]];
      }
    }
  }

  lemma OneIsOneChar(a: nat)
    requires a < 0x80
    ensures Utf8Char(a as char) == [a]
  {
  }

  /** The reader's check accepts exactly the bytes of strings. */
  lemma Utf8Iff(bs: seq<Byte>)
    ensures Utf8(bs) <==> exists s: string :: Utf8Bytes(s) == bs
  {
    assert bs[0..] == bs;
    if Utf8(bs) {
      var s := StringFrom(bs, 0);
    }
    forall s: string | Utf8Bytes(s) == bs
      ensures Utf8(bs)
    {
      StringAccepted(bs, 0, s);
    }
  }

  lemma {:induction false} StringFrom(bs: seq<Byte>, i: nat) returns (s: string)
    requires i <= |bs| && Utf8From(bs, i)
    ensures Utf8Bytes(s) == bs[i..]
    decreases |bs| - i
  {
    hide Utf8Char, Utf8Length;
    if i == |bs| {
      s := "";
    } else {
      var c := SequenceIsOneChar(bs, i);
      var rest := StringFrom(bs, i + |Utf8Char(c)|);
      s := [c] + rest;
      assert s[1..] == rest;
    }
  }

  lemma {:induction false} StringAccepted(bs: seq<Byte>, i: nat, s: string)
    requires i <= |bs| && bs[i..] == Utf8Bytes(s)
    ensures Utf8From(bs, i)
    decreases |s|
  {
    hide Utf8Char, Utf8Length;
    if s != [] {
      var own := Utf8Char(s[0]);
      assert bs[i..][..|own|] == own && bs[i..][|own|..] == Utf8Bytes(s[1..]);
      assert bs[i..i + |own|] == own && bs[i + |own|..] == Utf8Bytes(s[1..]);
      CharIsOneSequence(bs, i, s[0]);
      StringAccepted(bs, i + |own|, s[1..]);
    }
  }
}
