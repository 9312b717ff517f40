/** The hand-written CBOR readers of `webauthn.rs`: five header decoders, one recursive skipper. */
module Cbor {
  import opened Results
  import opened Bytes

  datatype CborError =
    | Truncated
    | WrongMajor(major: nat)
    | UnsupportedInfo(info: nat)
    | Overflow(need: nat, have: nat)
    | BadUtf8

  type Read<+T> = Result<T, CborError>

  /** Well-formed UTF-8 (section 4 of RFC 3629), as `std::str::from_utf8` accepts it. */
  predicate Utf8(bs: seq<Byte>) {
    Utf8From(bs, 0)
  }

  predicate Utf8From(bs: seq<Byte>, i: nat)
    decreases |bs| - i
  {
    i >= |bs| || (Utf8Length(bs, i) > 0 && Utf8From(bs, i + Utf8Length(bs, i)))
  }

  /** Length of the well-formed sequence at `i`, or 0 when there is none. */
  function Utf8Length(bs: seq<Byte>, i: nat): (n: nat)
    requires i < |bs|
    ensures i + n <= |bs|
  {
    var b, left := bs[i], |bs| - i;
    if b < 0x80 then 1
    else if left >= 2 && 0xC2 <= b <= 0xDF && Tail(bs[i + 1]) then 2
    else if left >= 3 && 0xE0 <= b <= 0xEF && Tail(bs[i + 1]) && Tail(bs[i + 2]) &&
            (b == 0xE0 ==> bs[i + 1] >= 0xA0) && (b == 0xED ==> bs[i + 1] <= 0x9F) then 3
    else if left >= 4 && 0xF0 <= b <= 0xF4 && Tail(bs[i + 1]) && Tail(bs[i + 2]) && Tail(bs[i + 3]) &&
            (b == 0xF0 ==> bs[i + 1] >= 0x90) && (b == 0xF4 ==> bs[i + 1] <= 0x8F) then 4
    else 0
  }

  predicate Tail(b: Byte) {
    0x80 <= b <= 0xBF
  }

  // -------------------------------------------------------------------------
  // The header decoders
  // -------------------------------------------------------------------------

  function ReadMapLen(data: seq<Byte>, pos: nat): (r: Read<(nat, nat)>)
    ensures r.Ok? ==> pos < |data| && r.value.1 >= 1
  {
    if pos >= |data| then Err(Truncated) else
    var major, info := data[pos] / 32, data[pos] % 32;
    if major != 5 then Err(WrongMajor(major))
    else if info < 24 then Ok((info, 1))
    else if info == 24 then
      if pos + 1 >= |data| then Err(Truncated) else Ok((data[pos + 1], 2))
    else Err(UnsupportedInfo(info))
  }

  function ReadInt(data: seq<Byte>, pos: nat): (r: Read<(int, nat)>)
    ensures r.Ok? ==> pos < |data| && r.value.1 >= 1
  {
    if pos >= |data| then Err(Truncated) else
    var major, info := data[pos] / 32, data[pos] % 32;
    var (raw, consumed) :-
      if info < 24 then Ok((info, 1))
      else if info == 24 then
        if pos + 1 >= |data| then Err(Truncated) else Ok((data[pos + 1] as nat, 2))
      else if info == 25 then
        if pos + 2 >= |data| then Err(Truncated) else Ok((FromBigEndian(data[pos + 1..pos + 3]), 3))
      else if info == 26 then
        if pos + 4 >= |data| then Err(Truncated) else Ok((FromBigEndian(data[pos + 1..pos + 5]), 5))
      else Err(UnsupportedInfo(info));
    match major
    case 0 => Ok((raw, consumed))
    case 1 => Ok((-1 - raw, consumed))
    case _ => Err(WrongMajor(major))
  }

  function ReadBstr(data: seq<Byte>, pos: nat): (r: Read<(seq<Byte>, nat)>)
    ensures r.Ok? ==> pos < |data| && r.value.1 >= 1
  {
    if pos >= |data| then Err(Truncated) else
    var major, info := data[pos] / 32, data[pos] % 32;
    if major != 2 then Err(WrongMajor(major)) else
    var (length, header) :-
      if info < 24 then Ok((info, 1))
      else if info == 24 then
        if pos + 1 >= |data| then Err(Truncated) else Ok((data[pos + 1] as nat, 2))
      else if info == 25 then
        if pos + 2 >= |data| then Err(Truncated) else Ok((FromBigEndian(data[pos + 1..pos + 3]), 3))
      else Err(UnsupportedInfo(info));
    var start := pos + header;
    var end := start + length;
    if end > |data| then Err(Overflow(end, |data|)) else Ok((data[start..end], header + length))
  }

  /** A Rust `String` is represented by its UTF-8 bytes. */
  function ReadTstr(data: seq<Byte>, pos: nat): (r: Read<(seq<Byte>, nat)>)
    ensures r.Ok? ==> pos < |data| && r.value.1 >= 1
  {
    if pos >= |data| then Err(Truncated) else
    var major, info := data[pos] / 32, data[pos] % 32;
    if major != 3 then Err(WrongMajor(major)) else
    var (length, header) :-
      if info < 24 then Ok((info, 1))
      else if info == 24 then
        if pos + 1 >= |data| then Err(Truncated) else Ok((data[pos + 1] as nat, 2))
      else if info == 25 then
        if pos + 2 >= |data| then Err(Truncated) else Ok((FromBigEndian(data[pos + 1..pos + 3]), 3))
      else Err(UnsupportedInfo(info));
    var start := pos + header;
    var end := start + length;
    if end > |data| then Err(Overflow(end, |data|))
    else if !Utf8(data[start..end]) then Err(BadUtf8)
    else Ok((data[start..end], header + length))
  }

  /** The argument and header length that `cbor_skip_value` reads first. */
  function SkipHead(data: seq<Byte>, pos: nat): (r: Read<(nat, nat)>)
    requires pos < |data|
  {
    var info := data[pos] % 32;
    if info < 24 then Ok((info, 1))
    else if info == 24 then
      if pos + 1 >= |data| then Err(Truncated) else Ok((data[pos + 1] as nat, 2))
    else if info == 25 then
      if pos + 2 >= |data| then Err(Truncated) else Ok((FromBigEndian(data[pos + 1..pos + 3]), 3))
    else if info == 26 then
      if pos + 4 >= |data| then Err(Truncated) else Ok((FromBigEndian(data[pos + 1..pos + 5]), 5))
    else if info == 27 then
      if pos + 8 >= |data| then Err(Truncated) else Ok((FromBigEndian(data[pos + 1..pos + 9]), 9))
    else Err(UnsupportedInfo(info))
  }

  // -------------------------------------------------------------------------
  // The skipper
  // -------------------------------------------------------------------------

  /** Bytes left to read; the measure that makes the recursion end. */
  function Remaining(data: seq<Byte>, pos: nat): (n: nat) {
    if pos <= |data| then |data| - pos else 0
  }

  /** What `cbor_skip_value` returns. A string's length may reach past the buffer. */
  function SkipValue(data: seq<Byte>, pos: nat): (r: Read<nat>)
    ensures r.Ok? ==> pos < |data| && r.value >= 1
    decreases Remaining(data, pos), 0, 0
  {
    if pos >= |data| then Err(Truncated) else
    var (arg, header) :- SkipHead(data, pos);
    var body :- SkipBody(data, pos + header, data[pos] / 32, arg);
    Ok(header + body)
  }

  /** The bytes that follow a head, by major type. */
  function SkipBody(data: seq<Byte>, start: nat, major: nat, arg: nat): (r: Read<nat>)
    requires major < 8
    decreases Remaining(data, start), 2, 0
  {
    match major
    case 0 => Ok(0)
    case 1 => Ok(0)
    case 2 => Ok(arg)
    case 3 => Ok(arg)
    case 4 => SkipMany(data, start, arg)
    case 5 => SkipMany(data, start, 2 * arg)
    case 6 => SkipValue(data, start)
    case 7 => Ok(0)
  }

  /** `count` values skipped one after the other. */
  function SkipMany(data: seq<Byte>, pos: nat, count: nat): (r: Read<nat>)
    decreases Remaining(data, pos), 1, count
  {
    if count == 0 then Ok(0) else
    var first :- SkipValue(data, pos);
    var rest :- SkipMany(data, pos + first, count - 1);
    Ok(first + rest)
  }

  lemma SkipManyCons(data: seq<Byte>, pos: nat, count: nat, first: nat, rest: nat)
    requires SkipValue(data, pos) == Ok(first) && SkipMany(data, pos + first, count) == Ok(rest)
    ensures SkipMany(data, pos, count + 1) == Ok(first + rest)
  {
  }

  lemma SkipManyUncons(data: seq<Byte>, pos: nat, count: nat)
    requires count > 0 && SkipMany(data, pos, count).Ok?
    ensures SkipValue(data, pos).Ok?
    ensures var rest := SkipMany(data, pos + SkipValue(data, pos).value, count - 1);
      rest.Ok? && SkipMany(data, pos, count).value == SkipValue(data, pos).value + rest.value
  {
  }

  /** After `done` bytes of a run of values, the whole run is that many bytes plus what is left. */
  ghost predicate RunSoFar(whole: Read<nat>, done: nat, rest: Read<nat>) {
    whole == if rest.Ok? then Ok(done + rest.value) else rest
  }

  /** `cbor_skip_value` with its own recursion; the loops are in the two methods below. */
  method CborSkipValue(data: seq<Byte>, pos: nat) returns (r: Read<nat>)
    ensures r == SkipValue(data, pos)
    decreases Remaining(data, pos), 0
  {
    if pos >= |data| {
      return Err(Truncated);
    }
    var head := SkipHead(data, pos);
    if head.Err? {
      return Err(head.error);
    }
    var (arg, header) := head.value;
    var major := data[pos] / 32;
    if major == 2 || major == 3 {
      r := Ok(header + arg);
    } else if major == 4 {
      r := CborSkipArray(data, pos, arg, header);
    } else if major == 5 {
      r := CborSkipMap(data, pos, arg, header);
    } else if major == 6 {
      var inner := CborSkipValue(data, pos + header);
      r := if inner.Ok? then Ok(header + inner.value) else inner;
    } else {
      r := Ok(header);
    }
  }

  method CborSkipArray(data: seq<Byte>, pos: nat, arg: nat, header: nat) returns (r: Read<nat>)
    requires pos < |data| && header >= 1
    ensures RunSoFar(r, header, SkipMany(data, pos + header, arg))
    decreases Remaining(data, pos + header), 1
  {
    var total, i := header, 0;
    ghost var whole := SkipMany(data, pos + header, arg);
    while i < arg
      invariant i <= arg && total >= header
      invariant RunSoFar(whole, total - header, SkipMany(data, pos + total, arg - i))
    {
      var item := CborSkipValue(data, pos + total);
      if item.Err? {
        return Err(item.error);
      }
      total, i := total + item.value, i + 1;
    }
    return Ok(total);
  }

  method CborSkipMap(data: seq<Byte>, pos: nat, arg: nat, header: nat) returns (r: Read<nat>)
    requires pos < |data| && header >= 1
    ensures RunSoFar(r, header, SkipMany(data, pos + header, 2 * arg))
    decreases Remaining(data, pos + header), 2
  {
    var total, i := header, 0;
    ghost var whole := SkipMany(data, pos + header, 2 * arg);
    while i < arg
      invariant i <= arg && total >= header
      invariant RunSoFar(whole, total - header, SkipMany(data, pos + total, 2 * (arg - i)))
    {
      SkipTwoThenRest(data, pos + total, 2 * (arg - i));
      var entry := CborSkipEntry(data, pos + total);
      if entry.Err? {
        return Err(entry.error);
      }
      total, i := total + entry.value, i + 1;
    }
    return Ok(total);
  }

  /** One round of the map loop: a key, then a value. */
  method CborSkipEntry(data: seq<Byte>, pos: nat) returns (r: Read<nat>)
    ensures r == SkipMany(data, pos, 2)
    decreases Remaining(data, pos), 1
  {
    var key := CborSkipValue(data, pos);
    if key.Err? {
      return Err(key.error);
    }
    var value := CborSkipValue(data, pos + key.value);
    if value.Err? {
      return Err(value.error);
    }
    assert SkipMany(data, pos + key.value, 1) == Ok(value.value);
    return Ok(key.value + value.value);
  }

  lemma SkipTwoThenRest(data: seq<Byte>, pos: nat, count: nat)
    requires count >= 2
    ensures SkipMany(data, pos, 2).Err? ==> SkipMany(data, pos, count) == SkipMany(data, pos, 2)
    ensures SkipMany(data, pos, 2).Ok? ==>
      var two := SkipMany(data, pos, 2).value;
      two >= 1 && RunSoFar(SkipMany(data, pos, count), two, SkipMany(data, pos + two, count - 2))
  {
    if SkipValue(data, pos).Ok? {
      var key := SkipValue(data, pos).value;
      assert SkipMany(data, pos + key, 1) == SkipValue(data, pos + key);
    }
  }
}
