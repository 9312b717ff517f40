/**
 * The data items that the skipper of `Cbor` accepts (section 3 of RFC 8949, definite lengths only),
 * as values with an encoder of their own, and the theorems that tie the readers to them.
 */
module CborItems {
  import opened Results
  import opened Bytes
  import opened Cbor

  /** An argument and the number of bytes (0 when it sits in the initial byte) that carry it. */
  datatype Head = Head(width: nat, arg: nat)

  predicate ValidHead(h: Head) {
    (h.width == 0 && h.arg < 24) || (h.width in {1, 2, 4, 8} && h.arg < Pow256(h.width))
  }

  function HeadInfo(h: Head): (info: nat)
    requires ValidHead(h)
    ensures info < 28
  {
    match h.width
    case 0 => h.arg
    case 1 => 24
    case 2 => 25
    case 4 => 26
    case _ => 27
  }

  function EncodeHead(major: nat, h: Head): (bs: seq<Byte>)
    requires major < 8 && ValidHead(h)
    ensures |bs| == 1 + h.width
  {
    [major * 32 + HeadInfo(h)] + if h.width == 0 then [] else ToBigEndian(h.arg, h.width)
  }

  datatype Item =
    | Int(negative: bool, head: Head)
    | Str(text: bool, head: Head, payload: seq<Byte>)
    | Array(head: Head, items: seq<Item>)
    | Map(head: Head, items: seq<Item>)  // key, value, key, value, ...
    | Tag(head: Head, inner: Item)
    | Simple(head: Head)

  function Major(item: Item): (m: nat)
    ensures m < 8
  {
    match item
    case Int(negative, _) => if negative then 1 else 0
    case Str(text, _, _) => if text then 3 else 2
    case Array(_, _) => 4
    case Map(_, _) => 5
    case Tag(_, _) => 6
    case Simple(_) => 7
  }

  predicate ValidItem(item: Item)
    decreases item
  {
    ValidHead(item.head) &&
    match item
    case Int(_, _) => true
    case Str(_, h, payload) => |payload| == h.arg
    case Array(h, items) => |items| == h.arg && ValidItems(items)
    case Map(h, items) => |items| == 2 * h.arg && ValidItems(items)
    case Tag(_, inner) => ValidItem(inner)
    case Simple(_) => true
  }

  predicate ValidItems(items: seq<Item>)
    decreases items
  {
    items != [] ==> ValidItem(items[0]) && ValidItems(items[1..])
  }

  function Encode(item: Item): (bs: seq<Byte>)
    requires ValidItem(item)
    ensures |bs| == 1 + item.head.width + |Body(item)|
    decreases item, 1
  {
    EncodeHead(Major(item), item.head) + Body(item)
  }

  function Body(item: Item): (bs: seq<Byte>)
    requires ValidItem(item)
    decreases item, 0
  {
    match item
    case Int(_, _) => []
    case Str(_, _, payload) => payload
    case Array(_, items) => EncodeAll(items)
    case Map(_, items) => EncodeAll(items)
    case Tag(_, inner) => Encode(inner)
    case Simple(_) => []
  }

  function EncodeAll(items: seq<Item>): (bs: seq<Byte>)
    requires ValidItems(items)
    decreases items, 2
  {
    if items == [] then [] else Encode(items[0]) + EncodeAll(items[1..])
  }

  // -------------------------------------------------------------------------
  // Heads
  // -------------------------------------------------------------------------

  /** A placed head is read back, whatever surrounds it. */
  lemma HeadRead(data: seq<Byte>, pos: nat, major: nat, h: Head)
    requires major < 8 && ValidHead(h) && At(data, pos, EncodeHead(major, h))
    ensures pos < |data| && data[pos] / 32 == major && data[pos] % 32 == HeadInfo(h)
    ensures SkipHead(data, pos) == Ok((h.arg, 1 + h.width))
    ensures h.width > 0 ==> FromBigEndian(data[pos + 1..pos + 1 + h.width]) == h.arg
    ensures h.width == 1 ==> data[pos + 1] == h.arg
  {
    hide FromBigEndian, ToBigEndian, Pow256;
    assert data[pos] == EncodeHead(major, h)[0];
    if h.width > 0 {
      assert data[pos + 1..pos + 1 + h.width] == EncodeHead(major, h)[1..];
      BigEndianRoundTrip(h.arg, h.width);
    }
    if h.width == 1 {
      assert data[pos + 1..pos + 2] == [data[pos + 1]];
      FromOneByte(data[pos + 1]);
    }
  }

  /** The head that `width` bytes after an initial byte spell. */
  function HeadAfter(data: seq<Byte>, pos: nat, width: nat): Head
    requires pos + width < |data|
  {
    Head(width, FromBigEndian(data[pos + 1..pos + 1 + width]))
  }

  lemma HeadFromBytes(data: seq<Byte>, pos: nat, width: nat)
    requires width in {1, 2, 4, 8} && pos + width < |data|
    requires data[pos] % 32 == HeadInfo(Head(width, 0))
    ensures ValidHead(HeadAfter(data, pos, width))
    ensures At(data, pos, EncodeHead(data[pos] / 32, HeadAfter(data, pos, width)))
  {
    hide FromBigEndian, ToBigEndian, Pow256;
    var body := data[pos + 1..pos + 1 + width];
    BigEndianUnique(body);
    assert data[pos..pos + 1 + width] == [data[pos]] + body;
  }

  lemma FromOneByte(b: Byte)
    ensures FromBigEndian([b]) == b
  {
    assert [b][..0] == [];
  }

  /** A head the skipper reads is the encoding of exactly the argument it reports. */
  lemma HeadDelimits(data: seq<Byte>, pos: nat) returns (h: Head)
    requires pos < |data| && SkipHead(data, pos).Ok?
    ensures ValidHead(h) && At(data, pos, EncodeHead(data[pos] / 32, h))
    ensures SkipHead(data, pos) == Ok((h.arg, 1 + h.width))
  {
    var (arg, header) := SkipHead(data, pos).value;
    if header == 1 {
      h := Head(0, arg);
      assert data[pos..pos + 1] == [data[pos]];
    } else {
      HeadFromBytes(data, pos, header - 1);
      h := HeadAfter(data, pos, header - 1);
      if header == 2 {
        assert data[pos + 1..pos + 2] == [data[pos + 1]];
        FromOneByte(data[pos + 1]);
      }
    }
  }

  // -------------------------------------------------------------------------
  // Skip consumes exactly one item
  // -------------------------------------------------------------------------

  /** A placed item is its head, then its body. */
  lemma ItemAt(data: seq<Byte>, pos: nat, item: Item)
    requires ValidItem(item)
    ensures At(data, pos, Encode(item)) <==>
      At(data, pos, EncodeHead(Major(item), item.head)) && At(data, pos + 1 + item.head.width, Body(item))
  {
    AtConcat(data, pos, EncodeHead(Major(item), item.head), Body(item));
  }

  /** A placed run of items is its first item, then the others. */
  lemma ItemsAt(data: seq<Byte>, pos: nat, items: seq<Item>)
    requires ValidItems(items) && items != []
    ensures At(data, pos, EncodeAll(items)) <==>
      At(data, pos, Encode(items[0])) && At(data, pos + |Encode(items[0])|, EncodeAll(items[1..]))
    ensures |EncodeAll(items)| == |Encode(items[0])| + |EncodeAll(items[1..])|
  {
    hide Encode, Body, ValidItem, At;
    AtConcat(data, pos, Encode(items[0]), EncodeAll(items[1..]));
  }

  /** Skipping a placed item consumes its encoded length, at any offset of any buffer. */
  lemma {:induction false} SkipEncoded(data: seq<Byte>, pos: nat, item: Item)
    requires ValidItem(item) && At(data, pos, Encode(item))
    ensures SkipValue(data, pos) == Ok(|Encode(item)|)
    decreases item, 1
  {
    hide At, Encode, Body, EncodeHead, SkipBody, SkipHead;
    ItemAt(data, pos, item);
    HeadRead(data, pos, Major(item), item.head);
    SkipEncodedBody(data, pos + 1 + item.head.width, item);
  }

  lemma {:induction false} SkipEncodedBody(data: seq<Byte>, start: nat, item: Item)
    requires ValidItem(item) && At(data, start, Body(item))
    ensures SkipBody(data, start, Major(item), item.head.arg) == Ok(|Body(item)|)
    decreases item, 0
  {
    match item
    case Array(_, items) => SkipEncodedAll(data, start, items);
    case Map(_, items) => SkipEncodedAll(data, start, items);
    case Tag(_, inner) => SkipEncoded(data, start, inner);
    case _ =>
  }

  lemma {:induction false} SkipEncodedAll(data: seq<Byte>, pos: nat, items: seq<Item>)
    requires ValidItems(items) && At(data, pos, EncodeAll(items))
    ensures SkipMany(data, pos, |items|) == Ok(|EncodeAll(items)|)
    decreases items, 2
  {
    hide Encode, Body, ValidItem, SkipValue, SkipBody;
    if items != [] {
      ItemsAt(data, pos, items);
      SkipEncoded(data, pos, items[0]);
      SkipEncodedAll(data, pos + |Encode(items[0])|, items[1..]);
      SkipManyCons(data, pos, |items[1..]|, |Encode(items[0])|, |EncodeAll(items[1..])|);
    }
  }

  /** Every skip that stays inside the buffer delimits an item; the lemma returns it. */
  lemma {:induction false} SkipDelimits(data: seq<Byte>, pos: nat) returns (item: Item)
    requires SkipValue(data, pos).Ok? && pos + SkipValue(data, pos).value <= |data|
    ensures ValidItem(item) && At(data, pos, Encode(item))
    ensures |Encode(item)| == SkipValue(data, pos).value
    decreases Remaining(data, pos), 0, 0
  {
    var h := HeadDelimits(data, pos);
    item := SkipBodyDelimits(data, pos + 1 + h.width, data[pos] / 32, h);
    ItemAt(data, pos, item);
  }

  lemma {:induction false} SkipBodyDelimits(data: seq<Byte>, start: nat, major: nat, h: Head) returns (item: Item)
    requires major < 8 && ValidHead(h) && SkipBody(data, start, major, h.arg).Ok?
    requires start + SkipBody(data, start, major, h.arg).value <= |data|
    ensures ValidItem(item) && item.head == h && Major(item) == major && At(data, start, Body(item))
    ensures |Body(item)| == SkipBody(data, start, major, h.arg).value
    decreases Remaining(data, start), 2, 0
  {
    match major {
      case 0 => item := Int(false, h);
      case 1 => item := Int(true, h);
      case 2 => item := Str(false, h, data[start..start + h.arg]);
      case 3 => item := Str(true, h, data[start..start + h.arg]);
      case 4 => var items := SkipManyDelimits(data, start, h.arg); item := Array(h, items);
      case 5 => var items := SkipManyDelimits(data, start, 2 * h.arg); item := Map(h, items);
      case 6 => var inner := SkipDelimits(data, start); item := Tag(h, inner);
      case 7 => item := Simple(h);
    }
  }

  lemma {:induction false} SkipManyDelimits(data: seq<Byte>, pos: nat, count: nat) returns (items: seq<Item>)
    requires pos <= |data| && SkipMany(data, pos, count).Ok? && pos + SkipMany(data, pos, count).value <= |data|
    ensures ValidItems(items) && |items| == count && At(data, pos, EncodeAll(items))
    ensures |EncodeAll(items)| == SkipMany(data, pos, count).value
    decreases Remaining(data, pos), 1, count
  {
    hide SkipValue, SkipBody, Encode, Body, ValidItem;
    if count == 0 {
      items := [];
    } else {
      SkipManyUncons(data, pos, count);
      var first := SkipDelimits(data, pos);
      var rest := SkipManyDelimits(data, pos + |Encode(first)|, count - 1);
      items := [first] + rest;
      assert items[1..] == rest;
      ItemsAt(data, pos, items);
    }
  }

  /** Two items at one offset are the same item: no encoding is a prefix of another. */
  lemma {:induction false} UniqueItem(data: seq<Byte>, pos: nat, a: Item, b: Item)
    requires ValidItem(a) && At(data, pos, Encode(a))
    requires ValidItem(b) && At(data, pos, Encode(b))
    ensures a == b
    decreases a, 1
  {
    hide Encode, Body, EncodeHead, At;
    ItemAt(data, pos, a);
    ItemAt(data, pos, b);
    HeadRead(data, pos, Major(a), a.head);
    HeadRead(data, pos, Major(b), b.head);
    UniqueBody(data, pos + 1 + a.head.width, a, b);
  }

  lemma {:induction false} UniqueBody(data: seq<Byte>, start: nat, a: Item, b: Item)
    requires ValidItem(a) && At(data, start, Body(a))
    requires ValidItem(b) && At(data, start, Body(b))
    requires a.head == b.head && Major(a) == Major(b)
    ensures a == b
    decreases a, 0
  {
    match a
    case Array(_, items) => UniqueItems(data, start, items, b.items);
    case Map(_, items) => UniqueItems(data, start, items, b.items);
    case Tag(_, inner) => UniqueItem(data, start, inner, b.inner);
    case _ =>
  }

  lemma {:induction false} UniqueItems(data: seq<Byte>, pos: nat, a: seq<Item>, b: seq<Item>)
    requires ValidItems(a) && At(data, pos, EncodeAll(a))
    requires ValidItems(b) && At(data, pos, EncodeAll(b))
    requires |a| == |b|
    ensures a == b
    decreases a, 2
  {
    hide Encode, Body, ValidItem, At;
    if a != [] {
      ItemsAt(data, pos, a);
      ItemsAt(data, pos, b);
      UniqueItem(data, pos, a[0], b[0]);
      UniqueItems(data, pos + |Encode(a[0])|, a[1..], b[1..]);
    }
  }

  /** The skipper's in-buffer results are exactly the placed items, and there is one item for each. */
  lemma SkipIsExactlyOneItem(data: seq<Byte>, pos: nat, n: nat)
    ensures SkipValue(data, pos) == Ok(n) && pos + n <= |data| <==>
      exists item :: ValidItem(item) && At(data, pos, Encode(item)) && |Encode(item)| == n
    ensures forall a, b ::
      ValidItem(a) && At(data, pos, Encode(a)) && ValidItem(b) && At(data, pos, Encode(b)) ==> a == b
  {
    if SkipValue(data, pos) == Ok(n) && pos + n <= |data| {
      var item := SkipDelimits(data, pos);
    }
    forall item | ValidItem(item) && At(data, pos, Encode(item))
      ensures SkipValue(data, pos) == Ok(|Encode(item)|)
    {
      SkipEncoded(data, pos, item);
    }
    forall a, b | ValidItem(a) && At(data, pos, Encode(a)) && ValidItem(b) && At(data, pos, Encode(b))
      ensures a == b
    {
      UniqueItem(data, pos, a, b);
    }
  }

  // -------------------------------------------------------------------------
  // The typed readers
  // -------------------------------------------------------------------------

  function IntValue(item: Item): (v: int)
    requires item.Int?
  {
    if item.negative then -1 - item.head.arg else item.head.arg
  }

  /** The integers `cbor_read_int` can read: heads of at most four bytes. */
  predicate ReadableInt(item: Item) {
    ValidItem(item) && item.Int? && item.head.width <= 4
  }

  /** The byte strings `cbor_read_bstr` can read: heads of at most two bytes. */
  predicate ReadableBytes(item: Item) {
    ValidItem(item) && item.Str? && !item.text && item.head.width <= 2
  }

  /** The text strings `cbor_read_tstr` can read: heads of at most two bytes, valid UTF-8. */
  predicate ReadableText(item: Item) {
    ValidItem(item) && item.Str? && item.text && item.head.width <= 2 && Utf8(item.payload)
  }

  lemma ReadIntEncoded(data: seq<Byte>, pos: nat, item: Item)
    requires ReadableInt(item) && At(data, pos, Encode(item))
    ensures ReadInt(data, pos) == Ok((IntValue(item), |Encode(item)|))
  {
    ItemAt(data, pos, item);
    HeadRead(data, pos, Major(item), item.head);
  }

  lemma ReadIntDelimits(data: seq<Byte>, pos: nat) returns (item: Item)
    requires ReadInt(data, pos).Ok?
    ensures ReadableInt(item) && At(data, pos, Encode(item))
    ensures ReadInt(data, pos) == Ok((IntValue(item), |Encode(item)|))
  {
    var h := HeadDelimits(data, pos);
    item := Int(data[pos] / 32 == 1, h);
    ItemAt(data, pos, item);
  }

  lemma StrAt(data: seq<Byte>, pos: nat, text: bool, h: Head) returns (item: Item)
    requires ValidHead(h) && At(data, pos, EncodeHead(if text then 3 else 2, h))
    requires pos + 1 + h.width + h.arg <= |data|
    ensures item == Str(text, h, data[pos + 1 + h.width..pos + 1 + h.width + h.arg])
    ensures ValidItem(item) && At(data, pos, Encode(item)) && |Encode(item)| == 1 + h.width + h.arg
  {
    item := Str(text, h, data[pos + 1 + h.width..pos + 1 + h.width + h.arg]);
    ItemAt(data, pos, item);
  }

  lemma ReadBstrEncoded(data: seq<Byte>, pos: nat, item: Item)
    requires ReadableBytes(item) && At(data, pos, Encode(item))
    ensures ReadBstr(data, pos) == Ok((item.payload, |Encode(item)|))
  {
    ItemAt(data, pos, item);
    HeadRead(data, pos, 2, item.head);
  }

  lemma ReadBstrDelimits(data: seq<Byte>, pos: nat) returns (item: Item)
    requires ReadBstr(data, pos).Ok?
    ensures ReadableBytes(item) && At(data, pos, Encode(item))
    ensures ReadBstr(data, pos) == Ok((item.payload, |Encode(item)|))
  {
    var h := HeadDelimits(data, pos);
    item := StrAt(data, pos, false, h);
  }

  lemma ReadTstrEncoded(data: seq<Byte>, pos: nat, item: Item)
    requires ReadableText(item) && At(data, pos, Encode(item))
    ensures ReadTstr(data, pos) == Ok((item.payload, |Encode(item)|))
  {
    ItemAt(data, pos, item);
    HeadRead(data, pos, 3, item.head);
  }

  lemma ReadTstrDelimits(data: seq<Byte>, pos: nat) returns (item: Item)
    requires ReadTstr(data, pos).Ok?
    ensures ReadableText(item) && At(data, pos, Encode(item))
    ensures ReadTstr(data, pos) == Ok((item.payload, |Encode(item)|))
  {
    var h := HeadDelimits(data, pos);
    item := StrAt(data, pos, true, h);
  }

  /** Each typed reader succeeds on exactly the placed items it can read, with their value and length. */
  lemma TypedReadersExact(data: seq<Byte>, pos: nat, v: int, bs: seq<Byte>, n: nat)
    ensures ReadInt(data, pos) == Ok((v, n)) <==>
      exists item :: ReadableInt(item) && At(data, pos, Encode(item)) && IntValue(item) == v && |Encode(item)| == n
    ensures ReadBstr(data, pos) == Ok((bs, n)) <==>
      exists item :: ReadableBytes(item) && At(data, pos, Encode(item)) && item.payload == bs && |Encode(item)| == n
    ensures ReadTstr(data, pos) == Ok((bs, n)) <==>
      exists item :: ReadableText(item) && At(data, pos, Encode(item)) && item.payload == bs && |Encode(item)| == n
  {
    if ReadInt(data, pos).Ok? {
      var item := ReadIntDelimits(data, pos);
    }
    if ReadBstr(data, pos).Ok? {
      var item := ReadBstrDelimits(data, pos);
    }
    if ReadTstr(data, pos).Ok? {
      var item := ReadTstrDelimits(data, pos);
    }
    forall item | ReadableInt(item) && At(data, pos, Encode(item))
      ensures ReadInt(data, pos) == Ok((IntValue(item), |Encode(item)|))
    {
      ReadIntEncoded(data, pos, item);
    }
    forall item | ReadableBytes(item) && At(data, pos, Encode(item))
      ensures ReadBstr(data, pos) == Ok((item.payload, |Encode(item)|))
    {
      ReadBstrEncoded(data, pos, item);
    }
    forall item | ReadableText(item) && At(data, pos, Encode(item))
      ensures ReadTstr(data, pos) == Ok((item.payload, |Encode(item)|))
    {
      ReadTstrEncoded(data, pos, item);
    }
  }

  /** The typed readers and the skipper never disagree about where a value ends. */
  lemma ReadersAgreeWithSkip(data: seq<Byte>, pos: nat)
    ensures ReadInt(data, pos).Ok? ==> SkipValue(data, pos) == Ok(ReadInt(data, pos).value.1)
    ensures ReadBstr(data, pos).Ok? ==> SkipValue(data, pos) == Ok(ReadBstr(data, pos).value.1)
    ensures ReadTstr(data, pos).Ok? ==> SkipValue(data, pos) == Ok(ReadTstr(data, pos).value.1)
    ensures ReadMapLen(data, pos).Ok? ==> SkipHead(data, pos) == Ok(ReadMapLen(data, pos).value)
  {
    if ReadMapLen(data, pos).Ok? && data[pos] % 32 == 24 {
      var h := HeadDelimits(data, pos);
    }
  }

  /** A string head may promise more bytes than there are: the skipper then reports a length past the end. */
  lemma SkipMayLeaveTheBuffer()
    ensures SkipValue([0x45, 1], 0) == Ok(6)
    ensures ReadBstr([0x45, 1], 0) == Err(Overflow(6, 2))
  {
    assert SkipHead([0x45, 1], 0) == Ok((5, 1));
  }
}
