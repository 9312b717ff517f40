/**
 * What the walkers of `Attestation` compute, against maps of `CborItems`: they return the fields of
 * any encodable map and, inside the buffer, accept nothing else. Together they undo the encoding of
 * a whole registration.
 */
module Registration {
  import opened Results
  import opened Bytes
  import opened Cbor
  import opened CborItems
  import opened Attestation

  datatype Label = Number(n: int) | Name(text: seq<Byte>)
  datatype Entry = Entry(key: Item, value: Item)

  predicate KeyItem(item: Item) {
    item.Int? || item.Str?
  }

  function LabelOf(item: Item): (l: Label)
    requires KeyItem(item)
  {
    if item.Int? then Number(IntValue(item)) else Name(item.payload)
  }

  predicate ValidEntries(entries: seq<Entry>) {
    forall e <- entries :: ValidItem(e.key) && KeyItem(e.key) && ValidItem(e.value)
  }

  /** The value of the last entry with a label: later duplicates win. */
  function Field(entries: seq<Entry>, tag: Label): (f: Option<Item>)
    requires ValidEntries(entries)
  {
    if entries == [] then None else
    var later := Field(entries[1..], tag);
    if later.Some? then later
    else if LabelOf(entries[0].key) == tag then Some(entries[0].value)
    else None
  }

  lemma {:induction false} FieldIsAnEntry(entries: seq<Entry>, tag: Label)
    requires ValidEntries(entries) && Field(entries, tag).Some?
    ensures exists e <- entries :: LabelOf(e.key) == tag && e.value == Field(entries, tag).value
  {
    if Field(entries[1..], tag).Some? {
      FieldIsAnEntry(entries[1..], tag);
    }
  }

  predicate DistinctLabels(entries: seq<Entry>)
    requires ValidEntries(entries)
  {
    forall i, j :: 0 <= i < j < |entries| ==> LabelOf(entries[i].key) != LabelOf(entries[j].key)
  }

  /** With distinct labels, an entry anywhere in the map is what its label finds. */
  lemma {:induction false} FieldOfEntry(entries: seq<Entry>, e: Entry)
    requires ValidEntries(entries) && DistinctLabels(entries) && e in entries
    ensures Field(entries, LabelOf(e.key)) == Some(e.value)
  {
    if e in entries[1..] {
      FieldOfEntry(entries[1..], e);
    } else {
      NoField(entries[1..], LabelOf(e.key));
    }
  }

  lemma {:induction false} NoField(entries: seq<Entry>, tag: Label)
    requires ValidEntries(entries)
    requires forall e <- entries :: LabelOf(e.key) != tag
    ensures Field(entries, tag) == None
  {
    if entries != [] {
      NoField(entries[1..], tag);
    }
  }

  function EncodeEntry(e: Entry): (bs: seq<Byte>)
    requires ValidItem(e.key) && ValidItem(e.value)
  {
    Encode(e.key) + Encode(e.value)
  }

  function EncodeEntries(entries: seq<Entry>): (bs: seq<Byte>)
    requires ValidEntries(entries)
  {
    if entries == [] then [] else EncodeEntry(entries[0]) + EncodeEntries(entries[1..])
  }

  /** A definite-length map whose head is in the forms `cbor_read_map_len` supports. */
  predicate ValidMap(h: Head, entries: seq<Entry>) {
    ValidHead(h) && h.width <= 1 && h.arg == |entries| && ValidEntries(entries)
  }

  function EncodeMap(h: Head, entries: seq<Entry>): (bs: seq<Byte>)
    requires ValidMap(h, entries)
    ensures |bs| >= 1
  {
    EncodeHead(5, h) + EncodeEntries(entries)
  }

  lemma EntryAt(data: seq<Byte>, pos: nat, e: Entry)
    requires ValidItem(e.key) && ValidItem(e.value)
    ensures At(data, pos, EncodeEntry(e)) <==>
      At(data, pos, Encode(e.key)) && At(data, pos + |Encode(e.key)|, Encode(e.value))
    ensures |EncodeEntry(e)| == |Encode(e.key)| + |Encode(e.value)|
  {
    hide Encode, ValidItem, At;
    AtConcat(data, pos, Encode(e.key), Encode(e.value));
  }

  lemma EntriesAt(data: seq<Byte>, pos: nat, entries: seq<Entry>)
    requires ValidEntries(entries) && entries != []
    ensures At(data, pos, EncodeEntries(entries)) <==>
      At(data, pos, EncodeEntry(entries[0])) && At(data, pos + |EncodeEntry(entries[0])|, EncodeEntries(entries[1..]))
  {
    hide EncodeEntry, At;
    AtConcat(data, pos, EncodeEntry(entries[0]), EncodeEntries(entries[1..]));
  }

  lemma MapLenEncoded(data: seq<Byte>, h: Head, entries: seq<Entry>)
    requires ValidMap(h, entries) && At(data, 0, EncodeMap(h, entries))
    ensures data != [] && ReadMapLen(data, 0) == Ok((|entries|, 1 + h.width))
    ensures At(data, 1 + h.width, EncodeEntries(entries))
  {
    hide SkipHead, EncodeHead, EncodeEntries, FromBigEndian, Pow256;
    AtConcat(data, 0, EncodeHead(5, h), EncodeEntries(entries));
    HeadRead(data, 0, 5, h);
  }

  lemma EndsInside(data: seq<Byte>, h: Head, entries: seq<Entry>)
    requires ValidMap(h, entries) && At(data, 0, EncodeMap(h, entries))
    ensures |EncodeMap(h, entries)| <= |data|
  {
    hide EncodeMap;
  }

  lemma MapLenDelimits(data: seq<Byte>) returns (h: Head)
    requires ReadMapLen(data, 0).Ok?
    ensures ValidHead(h) && h.width <= 1 && At(data, 0, EncodeHead(5, h))
    ensures ReadMapLen(data, 0) == Ok((h.arg, 1 + h.width))
  {
    h := HeadDelimits(data, 0);
    ReadersAgreeWithSkip(data, 0);
  }

  // -------------------------------------------------------------------------
  // COSE_Key (section 7.1.1 of RFC 9053)
  // -------------------------------------------------------------------------

  /** An entry the COSE walker can read: integer key, and byte strings under the coordinate labels. */
  predicate CoseReadable(e: Entry) {
    ReadableInt(e.key) && ValidItem(e.value) &&
    (IntValue(e.key) in {X_LABEL, Y_LABEL} ==> ReadableBytes(e.value))
  }

  predicate CoseReadableAll(entries: seq<Entry>) {
    ValidEntries(entries) && forall e <- entries :: CoseReadable(e)
  }

  function BytesUnder(entries: seq<Entry>, tag: Label, otherwise: Option<seq<Byte>>): (b: Option<seq<Byte>>)
    requires ValidEntries(entries)
  {
    match Field(entries, tag)
    case Some(Str(_, _, payload)) => Some(payload)
    case _ => otherwise
  }

  lemma NothingUnder(tag: Label, otherwise: Option<seq<Byte>>)
    ensures ValidEntries([]) && BytesUnder([], tag, otherwise) == otherwise && EncodeEntries([]) == []
  {
  }

  /** The first entry decides only what the later ones leave open. */
  lemma BytesUnderStart(entries: seq<Entry>, tag: Label, otherwise: Option<seq<Byte>>)
    requires ValidEntries(entries) && entries != []
    requires Field(entries[1..], tag).Some? ==> Field(entries[1..], tag).value.Str?
    requires LabelOf(entries[0].key) == tag ==> entries[0].value.Str?
    ensures BytesUnder(entries, tag, otherwise) ==
      BytesUnder(entries[1..], tag, if LabelOf(entries[0].key) == tag then Some(entries[0].value.payload) else otherwise)
  {
  }

  lemma CoseFieldReadable(entries: seq<Entry>)
    requires CoseReadableAll(entries)
    ensures forall n <- {X_LABEL, Y_LABEL} :: Field(entries, Number(n)).Some? ==> Field(entries, Number(n)).value.Str?
  {
    forall n <- {X_LABEL, Y_LABEL} | Field(entries, Number(n)).Some?
      ensures Field(entries, Number(n)).value.Str?
    {
      FieldIsAnEntry(entries, Number(n));
    }
  }

  lemma CoseEntryEncoded(data: seq<Byte>, w: CoseWalk, e: Entry)
    requires CoseReadable(e) && At(data, w.pos, EncodeEntry(e))
    ensures CoseEntry(data, w) == Ok(CoseWalk(
      if IntValue(e.key) == X_LABEL then Some(e.value.payload) else w.x,
      if IntValue(e.key) == Y_LABEL then Some(e.value.payload) else w.y,
      w.pos + |EncodeEntry(e)|))
  {
    hide ReadInt, ReadBstr, SkipValue, Encode, EncodeEntry;
    EntryAt(data, w.pos, e);
    ReadIntEncoded(data, w.pos, e.key);
    var pos := w.pos + |Encode(e.key)|;
    if IntValue(e.key) in {X_LABEL, Y_LABEL} {
      ReadBstrEncoded(data, pos, e.value);
    } else {
      SkipEncoded(data, pos, e.value);
    }
  }

  /** Walking placed entries leaves the last coordinate of each label, at the end of the entries. */
  lemma {:induction false} CoseEntriesEncoded(data: seq<Byte>, w: CoseWalk, entries: seq<Entry>)
    requires CoseReadableAll(entries) && At(data, w.pos, EncodeEntries(entries))
    ensures CoseEntries(data, w, |entries|) == Ok(CoseWalk(
      BytesUnder(entries, Number(X_LABEL), w.x), BytesUnder(entries, Number(Y_LABEL), w.y),
      w.pos + |EncodeEntries(entries)|))
    decreases |entries|
  {
    hide CoseEntry, EncodeEntry, At, BytesUnder;
    if entries == [] {
      NothingUnder(Number(X_LABEL), w.x);
      NothingUnder(Number(Y_LABEL), w.y);
    } else {
      EntriesAt(data, w.pos, entries);
      CoseEntryEncoded(data, w, entries[0]);
      CoseFieldReadable(entries[1..]);
      BytesUnderStart(entries, Number(X_LABEL), w.x);
      BytesUnderStart(entries, Number(Y_LABEL), w.y);
      CoseEntriesEncoded(data, CoseEntry(data, w).value, entries[1..]);
    }
  }

  lemma CoseEntryDelimits(data: seq<Byte>, w: CoseWalk) returns (e: Entry)
    requires CoseEntry(data, w).Ok? && CoseEntry(data, w).value.pos <= |data|
    ensures CoseReadable(e) && At(data, w.pos, EncodeEntry(e))
    ensures CoseEntry(data, w).value.pos == w.pos + |EncodeEntry(e)|
  {
    hide ReadInt, ReadBstr, SkipValue, Encode;
    var key := ReadIntDelimits(data, w.pos);
    var pos := w.pos + |Encode(key)|;
    var value;
    if IntValue(key) in {X_LABEL, Y_LABEL} {
      value := ReadBstrDelimits(data, pos);
    } else {
      value := SkipDelimits(data, pos);
    }
    e := Entry(key, value);
    EntryAt(data, w.pos, e);
  }

  lemma CoseEntryAdvances(data: seq<Byte>, w: CoseWalk)
    requires CoseEntry(data, w).Ok?
    ensures w.pos <= CoseEntry(data, w).value.pos
  {
    hide ReadInt, ReadBstr, SkipValue;
  }

  lemma {:induction false} CoseEntriesAdvance(data: seq<Byte>, w: CoseWalk, count: nat)
    requires CoseEntries(data, w, count).Ok?
    ensures w.pos <= CoseEntries(data, w, count).value.pos
    decreases count
  {
    hide CoseEntry;
    if count > 0 {
      CoseEntryAdvances(data, w);
      CoseEntriesAdvance(data, CoseEntry(data, w).value, count - 1);
    }
  }

  lemma {:induction false} CoseEntriesDelimit(data: seq<Byte>, w: CoseWalk, count: nat) returns (entries: seq<Entry>)
    requires CoseEntries(data, w, count).Ok? && CoseEntries(data, w, count).value.pos <= |data|
    ensures CoseReadableAll(entries) && |entries| == count && At(data, w.pos, EncodeEntries(entries))
    decreases count
  {
    hide CoseEntry, EncodeEntry;
    entries := [];
    CoseEntriesAdvance(data, w, count);
    if count > 0 {
      var next := CoseEntry(data, w).value;
      CoseEntriesAdvance(data, next, count - 1);
      var first := CoseEntryDelimits(data, w);
      var rest := CoseEntriesDelimit(data, next, count - 1);
      entries := [first] + rest;
      EntriesAt(data, w.pos, entries);
    }
  }

  /** The walk of any readable map. */
  lemma CoseMapEncoded(data: seq<Byte>, h: Head, entries: seq<Entry>)
    requires ValidMap(h, entries) && CoseReadableAll(entries) && At(data, 0, EncodeMap(h, entries))
    ensures CoseMap(data) == Ok(CoseWalk(
      BytesUnder(entries, Number(X_LABEL), None), BytesUnder(entries, Number(Y_LABEL), None),
      |EncodeMap(h, entries)|))
  {
    hide CoseEntries, EncodeEntries, BytesUnder, At, EncodeHead, ReadMapLen;
    MapLenEncoded(data, h, entries);
    CoseEntriesEncoded(data, CoseWalk(None, None, 1 + h.width), entries);
  }

  ghost predicate IsCoseMap(data: seq<Byte>, w: CoseWalk, h: Head, entries: seq<Entry>) {
    ValidMap(h, entries) && CoseReadableAll(entries) && At(data, 0, EncodeMap(h, entries)) &&
    w.pos == |EncodeMap(h, entries)| &&
    w.x == BytesUnder(entries, Number(X_LABEL), None) && w.y == BytesUnder(entries, Number(Y_LABEL), None)
  }

  lemma CoseMapDelimits(data: seq<Byte>, w: CoseWalk) returns (h: Head, entries: seq<Entry>)
    requires CoseMap(data) == Ok(w) && w.pos <= |data|
    ensures IsCoseMap(data, w, h, entries)
  {
    hide CoseEntries, EncodeEntries, EncodeHead, At, BytesUnder;
    h := MapLenDelimits(data);
    entries := CoseEntriesDelimit(data, CoseWalk(None, None, 1 + h.width), h.arg);
    AtConcat(data, 0, EncodeHead(5, h), EncodeEntries(entries));
    CoseMapEncoded(data, h, entries);
  }

  /** A walk that ends inside the buffer is the walk of exactly such a map. */
  lemma CoseMapExact(data: seq<Byte>, w: CoseWalk)
    ensures CoseMap(data) == Ok(w) && w.pos <= |data| <==> exists h, entries :: IsCoseMap(data, w, h, entries)
  {
    hide CoseEntries, EncodeMap, At;
    if CoseMap(data) == Ok(w) && w.pos <= |data| {
      var h, entries := CoseMapDelimits(data, w);
      assert IsCoseMap(data, w, h, entries);
    }
    forall h, entries | IsCoseMap(data, w, h, entries)
      ensures CoseMap(data) == Ok(w) && w.pos <= |data|
    {
      CoseMapEncoded(data, h, entries);
      EndsInside(data, h, entries);
    }
  }

  /** Outside the buffer the walk still succeeds: a last value that is cut short goes unnoticed. */
  lemma TruncatedLastValueIsAccepted()
    ensures CoseMap([0xA3, 0x21, 0x40, 0x22, 0x40, 0x01, 0x45]) == Ok(CoseWalk(Some([]), Some([]), 12))
  {
    hide ReadInt, ReadBstr, SkipValue, CoseEntries;
    var data: seq<Byte> := [0xA3, 0x21, 0x40, 0x22, 0x40, 0x01, 0x45];
    var w0 := CoseWalk(None, None, 1);
    var w1 := CoseWalk(Some([]), None, 3);
    var w2 := CoseWalk(Some([]), Some([]), 5);
    SmallLabel(data, 1);
    EmptyBytes(data, 2);
    SmallLabel(data, 3);
    EmptyBytes(data, 4);
    SmallLabel(data, 5);
    SkipFive(data, 6);
    ThreeEntries(data, w0, w1, w2, w2.(pos := 12));
  }

  lemma SmallLabel(data: seq<Byte>, pos: nat)
    requires pos < |data| && data[pos] / 32 <= 1 && data[pos] % 32 < 24
    ensures var info: int := data[pos] % 32; ReadInt(data, pos) == Ok((if data[pos] / 32 == 0 then info else -1 - info, 1))
  {
  }

  lemma EmptyBytes(data: seq<Byte>, pos: nat)
    requires pos < |data| && data[pos] == 0x40
    ensures ReadBstr(data, pos) == Ok(([], 1))
  {
    assert data[pos + 1..pos + 1] == [];
  }

  lemma SkipFive(data: seq<Byte>, pos: nat)
    requires pos < |data| && data[pos] == 0x45
    ensures SkipValue(data, pos) == Ok(6)
  {
    assert SkipHead(data, pos) == Ok((5, 1));
  }

  lemma ThreeEntries(data: seq<Byte>, w0: CoseWalk, w1: CoseWalk, w2: CoseWalk, w3: CoseWalk)
    requires CoseEntry(data, w0) == Ok(w1) && CoseEntry(data, w1) == Ok(w2) && CoseEntry(data, w2) == Ok(w3)
    ensures CoseEntries(data, w0, 3) == Ok(w3)
  {
    hide CoseEntry;
    assert CoseEntries(data, w2, 1) == Ok(w3);
    assert CoseEntries(data, w1, 2) == CoseEntries(data, w2, 1);
  }

  // -------------------------------------------------------------------------
  // Attestation parsed (section 6.5 of WebAuthn Level 2)
  // -------------------------------------------------------------------------

  predicate AttestationReadable(e: Entry) {
    ReadableText(e.key) && ValidItem(e.value) &&
    (e.key.payload == FMT ==> ReadableText(e.value)) &&
    (e.key.payload == AUTH_DATA ==> ReadableBytes(e.value))
  }

  predicate AttestationReadableAll(entries: seq<Entry>) {
    ValidEntries(entries) && forall e <- entries :: AttestationReadable(e)
  }

  lemma AttestationFieldReadable(entries: seq<Entry>)
    requires AttestationReadableAll(entries)
    ensures forall t <- {FMT, AUTH_DATA} :: Field(entries, Name(t)).Some? ==> Field(entries, Name(t)).value.Str?
  {
    forall t <- {FMT, AUTH_DATA} | Field(entries, Name(t)).Some?
      ensures Field(entries, Name(t)).value.Str?
    {
      FieldIsAnEntry(entries, Name(t));
    }
  }

  lemma KeysDiffer()
    ensures FMT != AUTH_DATA
  {
    assert |FMT| != |AUTH_DATA|;
  }

  lemma AttestationEntryEncoded(data: seq<Byte>, w: AttestationWalk, e: Entry)
    requires AttestationReadable(e) && At(data, w.pos, EncodeEntry(e))
    ensures AttestationEntry(data, w) == Ok(AttestationWalk(
      if e.key.payload == FMT then Some(e.value.payload) else w.fmt,
      if e.key.payload == AUTH_DATA then Some(e.value.payload) else w.authData,
      w.pos + |EncodeEntry(e)|))
  {
    KeysDiffer();
    hide ReadTstr, ReadBstr, SkipValue, Encode, EncodeEntry, FMT, AUTH_DATA;
    EntryAt(data, w.pos, e);
    ReadTstrEncoded(data, w.pos, e.key);
    var pos := w.pos + |Encode(e.key)|;
    if e.key.payload == FMT {
      ReadTstrEncoded(data, pos, e.value);
    } else if e.key.payload == AUTH_DATA {
      ReadBstrEncoded(data, pos, e.value);
    } else {
      SkipEncoded(data, pos, e.value);
    }
  }

  lemma {:induction false} AttestationEntriesEncoded(data: seq<Byte>, w: AttestationWalk, entries: seq<Entry>)
    requires AttestationReadableAll(entries) && At(data, w.pos, EncodeEntries(entries))
    ensures AttestationEntries(data, w, |entries|) == Ok(AttestationWalk(
      BytesUnder(entries, Name(FMT), w.fmt), BytesUnder(entries, Name(AUTH_DATA), w.authData),
      w.pos + |EncodeEntries(entries)|))
    decreases |entries|
  {
    KeysDiffer();
    hide AttestationEntry, EncodeEntry, At, BytesUnder, FMT, AUTH_DATA;
    if entries == [] {
      NothingUnder(Name(FMT), w.fmt);
      NothingUnder(Name(AUTH_DATA), w.authData);
    } else {
      EntriesAt(data, w.pos, entries);
      AttestationEntryEncoded(data, w, entries[0]);
      AttestationFieldReadable(entries[1..]);
      BytesUnderStart(entries, Name(FMT), w.fmt);
      BytesUnderStart(entries, Name(AUTH_DATA), w.authData);
      AttestationEntriesEncoded(data, AttestationEntry(data, w).value, entries[1..]);
    }
  }

  lemma AttestationEntryDelimits(data: seq<Byte>, w: AttestationWalk) returns (e: Entry)
    requires AttestationEntry(data, w).Ok? && AttestationEntry(data, w).value.pos <= |data|
    ensures AttestationReadable(e) && At(data, w.pos, EncodeEntry(e))
    ensures AttestationEntry(data, w).value.pos == w.pos + |EncodeEntry(e)|
  {
    KeysDiffer();
    hide ReadTstr, ReadBstr, SkipValue, Encode, FMT, AUTH_DATA;
    var key := ReadTstrDelimits(data, w.pos);
    var pos := w.pos + |Encode(key)|;
    var value;
    if key.payload == FMT {
      value := ReadTstrDelimits(data, pos);
    } else if key.payload == AUTH_DATA {
      value := ReadBstrDelimits(data, pos);
    } else {
      value := SkipDelimits(data, pos);
    }
    e := Entry(key, value);
    EntryAt(data, w.pos, e);
  }

  lemma AttestationEntryAdvances(data: seq<Byte>, w: AttestationWalk)
    requires AttestationEntry(data, w).Ok?
    ensures w.pos <= AttestationEntry(data, w).value.pos
  {
    hide ReadTstr, ReadBstr, SkipValue, FMT, AUTH_DATA;
  }

  lemma {:induction false} AttestationEntriesAdvance(data: seq<Byte>, w: AttestationWalk, count: nat)
    requires AttestationEntries(data, w, count).Ok?
    ensures w.pos <= AttestationEntries(data, w, count).value.pos
    decreases count
  {
    hide AttestationEntry;
    if count > 0 {
      AttestationEntryAdvances(data, w);
      AttestationEntriesAdvance(data, AttestationEntry(data, w).value, count - 1);
    }
  }

  lemma {:induction false} AttestationEntriesDelimit(data: seq<Byte>, w: AttestationWalk, count: nat)
    returns (entries: seq<Entry>)
    requires AttestationEntries(data, w, count).Ok? && AttestationEntries(data, w, count).value.pos <= |data|
    ensures AttestationReadableAll(entries) && |entries| == count && At(data, w.pos, EncodeEntries(entries))
    decreases count
  {
    hide AttestationEntry, EncodeEntry;
    entries := [];
    AttestationEntriesAdvance(data, w, count);
    if count > 0 {
      var next := AttestationEntry(data, w).value;
      AttestationEntriesAdvance(data, next, count - 1);
      var first := AttestationEntryDelimits(data, w);
      var rest := AttestationEntriesDelimit(data, next, count - 1);
      entries := [first] + rest;
      EntriesAt(data, w.pos, entries);
    }
  }

  lemma AttestationMapEncoded(data: seq<Byte>, h: Head, entries: seq<Entry>)
    requires ValidMap(h, entries) && AttestationReadableAll(entries) && At(data, 0, EncodeMap(h, entries))
    ensures AttestationMap(data) == Ok(AttestationWalk(
      BytesUnder(entries, Name(FMT), None), BytesUnder(entries, Name(AUTH_DATA), None),
      |EncodeMap(h, entries)|))
  {
    hide AttestationEntries, EncodeEntries, BytesUnder, At, EncodeHead, ReadMapLen;
    MapLenEncoded(data, h, entries);
    AttestationEntriesEncoded(data, AttestationWalk(None, None, 1 + h.width), entries);
  }

  ghost predicate IsAttestationMap(data: seq<Byte>, w: AttestationWalk, h: Head, entries: seq<Entry>) {
    ValidMap(h, entries) && AttestationReadableAll(entries) && At(data, 0, EncodeMap(h, entries)) &&
    w.pos == |EncodeMap(h, entries)| &&
    w.fmt == BytesUnder(entries, Name(FMT), None) && w.authData == BytesUnder(entries, Name(AUTH_DATA), None)
  }

  lemma AttestationMapDelimits(data: seq<Byte>, w: AttestationWalk) returns (h: Head, entries: seq<Entry>)
    requires AttestationMap(data) == Ok(w) && w.pos <= |data|
    ensures IsAttestationMap(data, w, h, entries)
  {
    hide AttestationEntries, EncodeEntries, EncodeHead, At, BytesUnder;
    h := MapLenDelimits(data);
    entries := AttestationEntriesDelimit(data, AttestationWalk(None, None, 1 + h.width), h.arg);
    AtConcat(data, 0, EncodeHead(5, h), EncodeEntries(entries));
    AttestationMapEncoded(data, h, entries);
  }

  lemma AttestationMapExact(data: seq<Byte>, w: AttestationWalk)
    ensures AttestationMap(data) == Ok(w) && w.pos <= |data| <==>
      exists h, entries :: IsAttestationMap(data, w, h, entries)
  {
    hide AttestationEntries, EncodeMap, At;
    if AttestationMap(data) == Ok(w) && w.pos <= |data| {
      var h, entries := AttestationMapDelimits(data, w);
      assert IsAttestationMap(data, w, h, entries);
    }
    forall h, entries | IsAttestationMap(data, w, h, entries)
      ensures AttestationMap(data) == Ok(w) && w.pos <= |data|
    {
      AttestationMapEncoded(data, h, entries);
      EndsInside(data, h, entries);
    }
  }

  // -------------------------------------------------------------------------
  // Authenticator data and the whole registration
  // -------------------------------------------------------------------------

  /** rpIdHash, flags, sign count, AAGUID, id length, id, COSE key and whatever follows it. */
  function EncodeAuthData(rpIdHash: seq<Byte>, flags: Byte, signCount: seq<Byte>, aaguid: seq<Byte>,
                          credentialId: seq<Byte>, coseKey: seq<Byte>): (bs: seq<Byte>)
    requires |credentialId| < Pow256(2)
  {
    rpIdHash + [flags] + signCount + aaguid + ToBigEndian(|credentialId|, 2) + credentialId + coseKey
  }

  lemma AuthDataRoundTrip(rpIdHash: seq<Byte>, flags: Byte, signCount: seq<Byte>, aaguid: seq<Byte>,
                          credentialId: seq<Byte>, coseKey: seq<Byte>)
    requires |rpIdHash| == 32 && |signCount| == 4 && |aaguid| == 16
    requires |credentialId| < Pow256(2) && coseKey != [] && flags / 0x40 % 2 == 1
    ensures ParseAttestedCredential(EncodeAuthData(rpIdHash, flags, signCount, aaguid, credentialId, coseKey)) ==
      Ok(AttestedCredential(credentialId, coseKey))
  {
    hide FromBigEndian, ToBigEndian, Pow256;
    var fixed, idLen := rpIdHash + [flags] + signCount + aaguid, ToBigEndian(|credentialId|, 2);
    var authData := EncodeAuthData(rpIdHash, flags, signCount, aaguid, credentialId, coseKey);
    assert authData == fixed + idLen + credentialId + coseKey;
    FourParts(fixed, idLen, credentialId, coseKey);
    assert authData[32] == fixed[32] == flags;
    BigEndianRoundTrip(|credentialId|, 2);
  }

  lemma FourParts(a: seq<Byte>, b: seq<Byte>, c: seq<Byte>, d: seq<Byte>)
    ensures var whole := a + b + c + d;
      whole[..|a|] == a && whole[|a|..|a + b|] == b && whole[|a + b|..|a + b| + |c|] == c && whole[|a + b| + |c|..] == d
  {
  }

  /** A map that carries one value under a label, among any other entries in any order. */
  predicate Carries(entries: seq<Entry>, tag: Label, value: seq<Byte>) {
    ValidEntries(entries) && DistinctLabels(entries) &&
    exists e <- entries :: LabelOf(e.key) == tag && e.value.Str? && e.value.payload == value
  }

  lemma CarriedBytes(entries: seq<Entry>, tag: Label, value: seq<Byte>)
    requires Carries(entries, tag, value)
    ensures BytesUnder(entries, tag, None) == Some(value)
  {
    var e :| e in entries && LabelOf(e.key) == tag && e.value.Str? && e.value.payload == value;
    FieldOfEntry(entries, e);
  }

  /** What the three parsers return in sequence. */
  predicate ParsesTo(attestation: seq<Byte>, fmt: seq<Byte>, credentialId: seq<Byte>, x: seq<Byte>, y: seq<Byte>) {
    var parsed := Attested(attestation);
    parsed.Ok? && parsed.value.fmt == fmt &&
    var credential := ParseAttestedCredential(parsed.value.authData);
    credential.Ok? && credential.value.credentialId == credentialId && CoseCoords(credential.value.coseKey) == Ok((x, y))
  }

  /**
   * Registration parsing undoes encoding, end to end: whatever the other map entries, their order,
   * their nesting, and the bytes after each map, the three parsers return fmt, credential id, x and y.
   */
  lemma RegistrationRoundTrip(
    attHead: Head, att: seq<Entry>, attRest: seq<Byte>, fmt: seq<Byte>,
    rpIdHash: seq<Byte>, flags: Byte, signCount: seq<Byte>, aaguid: seq<Byte>, credentialId: seq<Byte>,
    coseHead: Head, cose: seq<Entry>, coseRest: seq<Byte>, x: seq<Byte>, y: seq<Byte>)
    requires ValidMap(coseHead, cose) && CoseReadableAll(cose)
    requires Carries(cose, Number(X_LABEL), x) && Carries(cose, Number(Y_LABEL), y)
    requires |rpIdHash| == 32 && |signCount| == 4 && |aaguid| == 16 && flags / 0x40 % 2 == 1
    requires |credentialId| < Pow256(2)
    requires ValidMap(attHead, att) && AttestationReadableAll(att) && Carries(att, Name(FMT), fmt)
    requires Carries(att, Name(AUTH_DATA), EncodeAuthData(rpIdHash, flags, signCount, aaguid, credentialId,
                                                          EncodeMap(coseHead, cose) + coseRest))
    ensures ParsesTo(EncodeMap(attHead, att) + attRest, fmt, credentialId, x, y)
  {
    hide FMT, AUTH_DATA, EncodeMap, EncodeAuthData, BytesUnder, Carries, FromBigEndian, ParseAttestedCredential;
    var coseKey := EncodeMap(coseHead, cose) + coseRest;
    var data := EncodeMap(attHead, att) + attRest;
    AttestationMapEncoded(data, attHead, att);
    CarriedBytes(att, Name(FMT), fmt);
    CarriedBytes(att, Name(AUTH_DATA), EncodeAuthData(rpIdHash, flags, signCount, aaguid, credentialId, coseKey));
    AuthDataRoundTrip(rpIdHash, flags, signCount, aaguid, credentialId, coseKey);
    CoseMapEncoded(coseKey, coseHead, cose);
    CarriedBytes(cose, Number(X_LABEL), x);
    CarriedBytes(cose, Number(Y_LABEL), y);
  }

  // -------------------------------------------------------------------------
  // The registrations authenticators send
  // -------------------------------------------------------------------------

  const ATT_STMT: seq<Byte> := [0x61, 0x74, 0x74, 0x53, 0x74, 0x6d, 0x74]

  /** The shortest head for an argument below 2^16. */
  function ShortHead(n: nat): (h: Head)
    requires n < 0x1_0000
    ensures ValidHead(h) && h.arg == n && h.width <= 2
  {
    assert Pow256(1) == 256 && Pow256(2) == 0x1_0000;
    if n < 24 then Head(0, n) else if n < 256 then Head(1, n) else Head(2, n)
  }

  function Bstr(bs: seq<Byte>): (item: Item)
    requires |bs| < 0x1_0000
    ensures ReadableBytes(item) && item.payload == bs
  {
    Str(false, ShortHead(|bs|), bs)
  }

  function Tstr(bs: seq<Byte>): (item: Item)
    requires |bs| < 0x1_0000 && Utf8(bs)
    ensures ReadableText(item) && item.payload == bs
  {
    Str(true, ShortHead(|bs|), bs)
  }

  function Small(n: int): (item: Item)
    requires -24 <= n < 24
    ensures ReadableInt(item) && IntValue(item) == n && ValidItem(item)
  {
    if n < 0 then Int(true, Head(0, -1 - n)) else Int(false, Head(0, n))
  }

  lemma {:induction false} AsciiIsUtf8(bs: seq<Byte>, i: nat)
    requires forall b <- bs :: b < 0x80
    ensures Utf8From(bs, i)
    decreases |bs| - i
  {
    if i < |bs| {
      assert bs[i] in bs;
      AsciiIsUtf8(bs, i + 1);
    }
  }

  /** An ES256 key: type, algorithm, curve, then the two coordinates. */
  function Es256Key(x: seq<Byte>, y: seq<Byte>): (entries: seq<Entry>)
    requires |x| == 32 && |y| == 32
  {
    [Entry(Small(1), Small(2)), Entry(Small(3), Small(-7)), Entry(Small(-1), Small(1)),
     Entry(Small(X_LABEL), Bstr(x)), Entry(Small(Y_LABEL), Bstr(y))]
  }

  lemma Es256KeyIsReadable(x: seq<Byte>, y: seq<Byte>)
    requires |x| == 32 && |y| == 32
    ensures ValidMap(Head(0, 5), Es256Key(x, y)) && CoseReadableAll(Es256Key(x, y))
    ensures Carries(Es256Key(x, y), Number(X_LABEL), x) && Carries(Es256Key(x, y), Number(Y_LABEL), y)
    ensures |EncodeMap(Head(0, 5), Es256Key(x, y))| == 77
  {
    hide EncodeEntries;
    var es := Es256Key(x, y);
    assert es[3] in es && es[4] in es;
    Es256KeyLength(es);
  }

  lemma Es256KeyLength(es: seq<Entry>)
    requires ValidEntries(es) && |es| == 5
    requires |EncodeEntry(es[0])| == 2 && |EncodeEntry(es[1])| == 2 && |EncodeEntry(es[2])| == 2
    requires |EncodeEntry(es[3])| == 35 && |EncodeEntry(es[4])| == 35
    ensures |EncodeEntries(es)| == 76
  {
    hide EncodeEntry, ValidItem, KeyItem;
    EntriesLength(es);
    EntriesLength(es[1..]);
    EntriesLength(es[2..]);
    EntriesLength(es[3..]);
    EntriesLength(es[4..]);
  }

  lemma EntriesLength(entries: seq<Entry>)
    requires ValidEntries(entries) && entries != []
    ensures ValidEntries(entries[1..]) && |EncodeEntries(entries)| == |EncodeEntry(entries[0])| + |EncodeEntries(entries[1..])|
  {
  }

  /** A format, an empty statement, and the authenticator data. */
  function PlainAttestation(fmt: seq<Byte>, authData: seq<Byte>): (entries: seq<Entry>)
    requires |fmt| < 0x1_0000 && Utf8(fmt) && |authData| < 0x1_0000
  {
    NamesAreUtf8();
    [Entry(Tstr(FMT), Tstr(fmt)), Entry(Tstr(ATT_STMT), Map(Head(0, 0), [])), Entry(Tstr(AUTH_DATA), Bstr(authData))]
  }

  lemma NamesAreUtf8()
    ensures Utf8(FMT) && Utf8(ATT_STMT) && Utf8(AUTH_DATA)
    ensures |FMT| == 3 && |ATT_STMT| == 7 && |AUTH_DATA| == 8
  {
    AsciiIsUtf8(FMT, 0);
    AsciiIsUtf8(ATT_STMT, 0);
    AsciiIsUtf8(AUTH_DATA, 0);
  }

  lemma PlainAttestationIsReadable(fmt: seq<Byte>, authData: seq<Byte>)
    requires |fmt| < 0x1_0000 && Utf8(fmt) && |authData| < 0x1_0000
    ensures var es := PlainAttestation(fmt, authData);
      ValidMap(Head(0, 3), es) && AttestationReadableAll(es) && Carries(es, Name(FMT), fmt) && Carries(es, Name(AUTH_DATA), authData)
  {
    NamesAreUtf8();
    hide FMT, ATT_STMT, AUTH_DATA, Utf8, Tstr, Bstr;
    var es := PlainAttestation(fmt, authData);
    assert ValidItem(Map(Head(0, 0), []));
    assert LabelOf(es[0].key) == Name(FMT) && LabelOf(es[1].key) == Name(ATT_STMT) && LabelOf(es[2].key) == Name(AUTH_DATA);
    assert es[0] in es && es[2] in es;
  }

  function UsualKey(x: seq<Byte>, y: seq<Byte>): (bs: seq<Byte>)
    requires |x| == 32 && |y| == 32
    ensures |bs| == 77
  {
    Es256KeyIsReadable(x, y);
    EncodeMap(Head(0, 5), Es256Key(x, y))
  }

  function UsualAuthData(rpIdHash: seq<Byte>, aaguid: seq<Byte>, credentialId: seq<Byte>,
      key: seq<Byte>): (bs: seq<Byte>)
    requires |rpIdHash| == 32 && |aaguid| == 16 && |credentialId| <= 0xFF00 && |key| == 77
    ensures |bs| == 132 + |credentialId|
  {
    assert Pow256(2) == 0x1_0000;
    EncodeAuthData(rpIdHash, 0x45, [0, 0, 0, 0], aaguid, credentialId, key)
  }

  function UsualAttestation(fmt: seq<Byte>, authData: seq<Byte>): seq<Byte>
    requires |fmt| < 0x1_0000 && Utf8(fmt) && |authData| < 0x1_0000
  {
    PlainAttestationIsReadable(fmt, authData);
    EncodeMap(Head(0, 3), PlainAttestation(fmt, authData))
  }

  /** The round trip for registrations in the form the repository's own encoders build. */
  lemma UsualRegistrationRoundTrip(rpIdHash: seq<Byte>, aaguid: seq<Byte>, credentialId: seq<Byte>, fmt: seq<Byte>,
      x: seq<Byte>, y: seq<Byte>)
    requires |rpIdHash| == 32 && |aaguid| == 16 && |x| == 32 && |y| == 32
    requires |credentialId| <= 0xFF00 && |fmt| < 0x1_0000 && Utf8(fmt)
    ensures ParsesTo(UsualAttestation(fmt, UsualAuthData(rpIdHash, aaguid, credentialId, UsualKey(x, y))), fmt, credentialId, x, y)
  {
    hide EncodeMap, EncodeAuthData, PlainAttestation, Es256Key, Attested, ParseAttestedCredential, CoseCoords, Carries, AttestationReadableAll, CoseReadableAll, ValidMap, Utf8, FMT, AUTH_DATA;
    assert Pow256(2) == 0x1_0000;
    var key := UsualKey(x, y);
    var authData := UsualAuthData(rpIdHash, aaguid, credentialId, key);
    Es256KeyIsReadable(x, y);
    PlainAttestationIsReadable(fmt, authData);
    assert key + [] == key && UsualAttestation(fmt, authData) + [] == UsualAttestation(fmt, authData);
    RegistrationRoundTrip(Head(0, 3), PlainAttestation(fmt, authData), [], fmt, rpIdHash, 0x45, [0, 0, 0, 0], aaguid, credentialId,
      Head(0, 5), Es256Key(x, y), [], x, y);
  }
}
