/**
 * What the skipper accepts past the end of the buffer: items cut off inside the string they end with,
 * and nothing else.
 */
module CborTruncation {
  import opened Results
  import opened Bytes
  import opened Cbor
  import opened CborItems

  /** The string payload an item ends with, looking through tags and last elements; 0 when it ends otherwise. */
  function Trailing(item: Item): (n: nat)
    requires ValidItem(item)
    ensures n <= |Body(item)|
    decreases item, 1
  {
    match item
    case Int(_, _) => 0
    case Str(_, _, payload) => |payload|
    case Array(_, items) => TrailingOfAll(items)
    case Map(_, items) => TrailingOfAll(items)
    case Tag(_, inner) => Trailing(inner)
    case Simple(_) => 0
  }

  function TrailingOfAll(items: seq<Item>): (n: nat)
    requires ValidItems(items)
    ensures n <= |EncodeAll(items)|
    decreases items, 2
  {
    if items == [] then 0
    else if |items| == 1 then Trailing(items[0])
    else TrailingOfAll(items[1..])
  }

  /** `part` starts at `pos` and runs past the end, and only its last `tail` bytes may be missing. */
  predicate Cut(data: seq<Byte>, pos: nat, part: seq<Byte>, tail: nat) {
    pos <= |data| < pos + |part| && data[pos..] == part[..|data| - pos] && pos + |part| <= |data| + tail
  }

  /** Cut off in `b`: then `a` is there. */
  lemma CutConcat(data: seq<Byte>, pos: nat, a: seq<Byte>, b: seq<Byte>, tail: nat)
    requires tail <= |b|
    ensures Cut(data, pos, a + b, tail) <==> At(data, pos, a) && Cut(data, pos + |a|, b, tail)
  {
    if Cut(data, pos, a + b, tail) {
      assert data[pos..pos + |a|] == data[pos..][..|a|] == (a + b)[..|a|] == a;
      assert data[pos + |a|..] == data[pos..][|a|..] == b[..|data| - pos - |a|];
    }
    if At(data, pos, a) && Cut(data, pos + |a|, b, tail) {
      assert data[pos..] == data[pos..pos + |a|] + data[pos + |a|..];
      assert (a + b)[..|data| - pos] == a + b[..|data| - pos - |a|];
    }
  }

  predicate CutItem(data: seq<Byte>, pos: nat, item: Item)
    requires ValidItem(item)
  {
    Cut(data, pos, Encode(item), Trailing(item))
  }

  lemma ItemCut(data: seq<Byte>, pos: nat, item: Item)
    requires ValidItem(item)
    ensures CutItem(data, pos, item) <==>
      At(data, pos, EncodeHead(Major(item), item.head)) && Cut(data, pos + 1 + item.head.width, Body(item), Trailing(item))
  {
    CutConcat(data, pos, EncodeHead(Major(item), item.head), Body(item), Trailing(item));
  }

  lemma ItemsCut(data: seq<Byte>, pos: nat, items: seq<Item>)
    requires ValidItems(items) && |items| > 1
    ensures Cut(data, pos, EncodeAll(items), TrailingOfAll(items)) <==>
      At(data, pos, Encode(items[0])) && Cut(data, pos + |Encode(items[0])|, EncodeAll(items[1..]), TrailingOfAll(items[1..]))
    ensures |EncodeAll(items)| == |Encode(items[0])| + |EncodeAll(items[1..])|
  {
    hide Encode, Body, ValidItem, At, Cut, Trailing;
    CutConcat(data, pos, Encode(items[0]), EncodeAll(items[1..]), TrailingOfAll(items[1..]));
  }

  lemma OneItem(items: seq<Item>)
    requires ValidItems(items) && |items| == 1
    ensures EncodeAll(items) == Encode(items[0]) && TrailingOfAll(items) == Trailing(items[0])
  {
    hide Encode, Trailing;
    assert items[1..] == [];
  }

  // -------------------------------------------------------------------------
  // A cut item is skipped as if it were complete
  // -------------------------------------------------------------------------

  lemma {:induction false} SkipCut(data: seq<Byte>, pos: nat, item: Item)
    requires ValidItem(item) && CutItem(data, pos, item)
    ensures SkipValue(data, pos) == Ok(|Encode(item)|)
    decreases item, 1
  {
    hide Cut, At, CutItem, Encode, Body, Trailing, EncodeHead, SkipBody, SkipHead;
    ItemCut(data, pos, item);
    HeadRead(data, pos, Major(item), item.head);
    SkipCutBody(data, pos + 1 + item.head.width, item);
  }

  lemma {:induction false} SkipCutBody(data: seq<Byte>, start: nat, item: Item)
    requires ValidItem(item) && Cut(data, start, Body(item), Trailing(item))
    ensures SkipBody(data, start, Major(item), item.head.arg) == Ok(|Body(item)|)
    decreases item, 0
  {
    match item
    case Array(_, items) => SkipCutAll(data, start, items);
    case Map(_, items) => SkipCutAll(data, start, items);
    case Tag(_, inner) => SkipCut(data, start, inner);
    case _ =>
  }

  lemma {:induction false} SkipCutAll(data: seq<Byte>, pos: nat, items: seq<Item>)
    requires ValidItems(items) && Cut(data, pos, EncodeAll(items), TrailingOfAll(items))
    ensures SkipMany(data, pos, |items|) == Ok(|EncodeAll(items)|)
    decreases items, 2
  {
    hide Encode, Body, ValidItem, SkipValue, SkipMany, Cut, Trailing, TrailingOfAll, EncodeAll;
    SomeItems(data, pos, items);
    if |items| == 1 {
      OneItem(items);
      SkipCut(data, pos, items[0]);
      LastSkipped(data, pos, |Encode(items[0])|);
    } else {
      ItemsCut(data, pos, items);
      SkipEncoded(data, pos, items[0]);
      SkipCutAll(data, pos + |Encode(items[0])|, items[1..]);
      SkipManyCons(data, pos, |items[1..]|, |Encode(items[0])|, |EncodeAll(items[1..])|);
    }
  }

  lemma LastSkipped(data: seq<Byte>, pos: nat, n: nat)
    ensures SkipValue(data, pos) == Ok(n) ==> SkipMany(data, pos, 1) == Ok(n)
  {
    hide SkipValue;
    assert SkipMany(data, pos + n, 0) == Ok(0);
  }

  // -------------------------------------------------------------------------
  // And nothing else leaves the buffer
  // -------------------------------------------------------------------------

  lemma {:induction false} SkipOverruns(data: seq<Byte>, pos: nat) returns (item: Item)
    requires SkipValue(data, pos).Ok? && pos + SkipValue(data, pos).value > |data|
    ensures ValidItem(item) && CutItem(data, pos, item) && |Encode(item)| == SkipValue(data, pos).value
    decreases Remaining(data, pos), 0, 0
  {
    hide Cut;
    var h := HeadDelimits(data, pos);
    HeadInside(data, pos, h);
    item := SkipBodyOverruns(data, pos + 1 + h.width, data[pos] / 32, h);
    ItemCut(data, pos, item);
  }

  lemma HeadInside(data: seq<Byte>, pos: nat, h: Head)
    requires pos < |data| && ValidHead(h) && At(data, pos, EncodeHead(data[pos] / 32, h))
    ensures pos + 1 + h.width <= |data|
  {
  }

  lemma {:induction false} SkipBodyOverruns(data: seq<Byte>, start: nat, major: nat, h: Head) returns (item: Item)
    requires major < 8 && ValidHead(h) && start <= |data| && SkipBody(data, start, major, h.arg).Ok?
    requires start + SkipBody(data, start, major, h.arg).value > |data|
    ensures ValidItem(item) && item.head == h && Major(item) == major && Cut(data, start, Body(item), Trailing(item))
    ensures |Body(item)| == SkipBody(data, start, major, h.arg).value
    decreases Remaining(data, start), 2, 0
  {
    match major {
      case 2 => var payload := Padded(data, start, h.arg); item := Str(false, h, payload);
      case 3 => var payload := Padded(data, start, h.arg); item := Str(true, h, payload);
      case 4 => var items := SkipManyOverruns(data, start, h.arg); item := Array(h, items);
      case 5 => var items := SkipManyOverruns(data, start, 2 * h.arg); item := Map(h, items);
      case 6 => var inner := SkipOverruns(data, start); item := Tag(h, inner);
      case _ => assert false;
    }
  }

  lemma Padded(data: seq<Byte>, start: nat, n: nat) returns (payload: seq<Byte>)
    requires start <= |data| < start + n
    ensures |payload| == n && Cut(data, start, payload, n)
  {
    payload := data[start..] + seq(start + n - |data|, _ => 0);
  }

  lemma {:induction false} SkipManyOverruns(data: seq<Byte>, pos: nat, count: nat) returns (items: seq<Item>)
    requires pos <= |data| && SkipMany(data, pos, count).Ok? && pos + SkipMany(data, pos, count).value > |data|
    ensures ValidItems(items) && |items| == count && Cut(data, pos, EncodeAll(items), TrailingOfAll(items))
    ensures |EncodeAll(items)| == SkipMany(data, pos, count).value
    decreases Remaining(data, pos), 1, count
  {
    hide SkipBody, Encode, Body, ValidItem, Cut, Trailing;
    SkipManyUncons(data, pos, count);
    var n := SkipValue(data, pos).value;
    if pos + n > |data| {
      NothingAfter(data, pos + n, count - 1);
      var last := SkipOverruns(data, pos);
      items := [last];
      OneItem(items);
    } else {
      var first := SkipDelimits(data, pos);
      var rest := SkipManyOverruns(data, pos + n, count - 1);
      items := [first] + rest;
      assert items[1..] == rest;
      SomeItems(data, pos + n, rest);
      ItemsCut(data, pos, items);
    }
  }

  lemma NothingAfter(data: seq<Byte>, pos: nat, count: nat)
    requires pos >= |data| && SkipMany(data, pos, count).Ok?
    ensures count == 0 && SkipMany(data, pos, count) == Ok(0)
  {
  }

  lemma SomeItems(data: seq<Byte>, pos: nat, items: seq<Item>)
    requires ValidItems(items) && Cut(data, pos, EncodeAll(items), TrailingOfAll(items))
    ensures items != []
  {
  }

  /**
   * The skipper reports a length past the end exactly for an item that is there up to some of the string
   * payload it ends with, and it reports that item's full length.
   */
  lemma SkipLeavesTheBufferIff(data: seq<Byte>, pos: nat, n: nat)
    ensures SkipValue(data, pos) == Ok(n) && pos + n > |data| <==>
      exists item :: ValidItem(item) && CutItem(data, pos, item) && |Encode(item)| == n
  {
    if SkipValue(data, pos) == Ok(n) && pos + n > |data| {
      var item := SkipOverruns(data, pos);
    }
    forall item | ValidItem(item) && CutItem(data, pos, item)
      ensures SkipValue(data, pos) == Ok(|Encode(item)|) && pos + |Encode(item)| > |data|
    {
      SkipCut(data, pos, item);
    }
  }
}
