/**
 * When the walkers of `Attestation` accept a map that is not all there: with `Registration`, this is
 * everything they accept.
 */
module RegistrationTruncation {
  import opened Results
  import opened Bytes
  import opened Cbor
  import opened CborItems
  import opened CborTruncation
  import opened Attestation
  import opened Registration

  // -------------------------------------------------------------------------
  // Entries cut off at the end
  // -------------------------------------------------------------------------

  lemma EntryCut(data: seq<Byte>, pos: nat, e: Entry)
    requires ValidItem(e.key) && ValidItem(e.value)
    ensures Cut(data, pos, EncodeEntry(e), Trailing(e.value)) <==>
      At(data, pos, Encode(e.key)) && CutItem(data, pos + |Encode(e.key)|, e.value)
    ensures |EncodeEntry(e)| == |Encode(e.key)| + |Encode(e.value)|
  {
    hide Encode, ValidItem, Cut, Trailing, At;
    CutConcat(data, pos, Encode(e.key), Encode(e.value), Trailing(e.value));
  }

  lemma EntriesCut(data: seq<Byte>, pos: nat, entries: seq<Entry>, tail: nat)
    requires ValidEntries(entries) && |entries| > 1 && tail <= |EncodeEntries(entries[1..])|
    ensures Cut(data, pos, EncodeEntries(entries), tail) <==>
      At(data, pos, EncodeEntry(entries[0])) && Cut(data, pos + |EncodeEntry(entries[0])|, EncodeEntries(entries[1..]), tail)
    ensures |EncodeEntries(entries)| == |EncodeEntry(entries[0])| + |EncodeEntries(entries[1..])|
  {
    hide EncodeEntry, At, Cut;
    CutConcat(data, pos, EncodeEntry(entries[0]), EncodeEntries(entries[1..]), tail);
  }

  lemma OneEntry(entries: seq<Entry>)
    requires ValidEntries(entries) && |entries| == 1
    ensures EncodeEntries(entries) == EncodeEntry(entries[0]) && entries[1..] == []
  {
    hide EncodeEntry;
    assert entries[1..] == [];
  }

  /** Something can only be missing where there is something. */
  lemma SomeEntries(data: seq<Byte>, pos: nat, entries: seq<Entry>, tail: nat)
    requires ValidEntries(entries) && Cut(data, pos, EncodeEntries(entries), tail)
    ensures entries != [] && tail > 0
  {
  }

  lemma CutIsShort(data: seq<Byte>, part: seq<Byte>, tail: nat)
    requires Cut(data, 0, part, tail)
    ensures |data| < |part|
  {
  }

  lemma {:induction false} LastEntryShort(entries: seq<Entry>)
    requires ValidEntries(entries) && entries != []
    ensures |Encode(entries[|entries| - 1].value)| <= |EncodeEntries(entries)|
  {
    hide Encode;
    if |entries| > 1 {
      LastEntryShort(entries[1..]);
    }
  }

  lemma MapCut(data: seq<Byte>, h: Head, entries: seq<Entry>, tail: nat)
    requires ValidMap(h, entries) && tail <= |EncodeEntries(entries)|
    ensures Cut(data, 0, EncodeMap(h, entries), tail) <==>
      At(data, 0, EncodeHead(5, h)) && Cut(data, 1 + h.width, EncodeEntries(entries), tail)
    ensures At(data, 0, EncodeHead(5, h)) ==> data != [] && ReadMapLen(data, 0) == Ok((|entries|, 1 + h.width))
  {
    hide EncodeEntries, Cut, SkipHead, EncodeHead, FromBigEndian, Pow256;
    CutConcat(data, 0, EncodeHead(5, h), EncodeEntries(entries), tail);
    if At(data, 0, EncodeHead(5, h)) {
      HeadRead(data, 0, 5, h);
    }
  }

  lemma HeadFits(data: seq<Byte>, h: Head)
    requires ValidHead(h) && At(data, 0, EncodeHead(5, h))
    ensures 1 + h.width <= |data|
  {
  }

  /** A string a walker needs is read in full or not at all. */
  lemma NeededFits(data: seq<Byte>, pos: nat)
    ensures ReadBstr(data, pos).Ok? ==> pos + ReadBstr(data, pos).value.1 <= |data|
    ensures ReadTstr(data, pos).Ok? ==> pos + ReadTstr(data, pos).value.1 <= |data|
  {
    hide Utf8;
  }

  // -------------------------------------------------------------------------
  // COSE_Key
  // -------------------------------------------------------------------------

  predicate CoseSkips(e: Entry)
    requires ValidItem(e.key) && KeyItem(e.key)
  {
    LabelOf(e.key) !in {Number(X_LABEL), Number(Y_LABEL)}
  }

  /** What may be missing of a map: the payload its last entry ends with, if that entry is one the walker skips. */
  function CoseTail(entries: seq<Entry>): (n: nat)
    requires ValidEntries(entries)
    ensures entries != [] ==> n <= |Encode(entries[|entries| - 1].value)|
  {
    if entries != [] && CoseSkips(entries[|entries| - 1]) then Trailing(entries[|entries| - 1].value) else 0
  }

  lemma CoseEntryCut(data: seq<Byte>, w: CoseWalk, e: Entry)
    requires CoseReadable(e) && CoseSkips(e) && Cut(data, w.pos, EncodeEntry(e), Trailing(e.value))
    ensures CoseEntry(data, w) == Ok(w.(pos := w.pos + |EncodeEntry(e)|))
  {
    hide ReadInt, ReadBstr, SkipValue, Encode, EncodeEntry, Cut, Trailing;
    EntryCut(data, w.pos, e);
    ReadIntEncoded(data, w.pos, e.key);
    SkipCut(data, w.pos + |Encode(e.key)|, e.value);
  }

  lemma CoseEntryOverruns(data: seq<Byte>, w: CoseWalk) returns (e: Entry)
    requires CoseEntry(data, w).Ok? && CoseEntry(data, w).value.pos > |data|
    ensures CoseReadable(e) && CoseSkips(e) && Cut(data, w.pos, EncodeEntry(e), Trailing(e.value))
    ensures CoseEntry(data, w) == Ok(w.(pos := w.pos + |EncodeEntry(e)|))
  {
    hide ReadInt, ReadBstr, SkipValue, Encode, EncodeEntry, Cut, Trailing;
    var key := ReadIntDelimits(data, w.pos);
    var pos := w.pos + |Encode(key)|;
    NeededFits(data, pos);
    var value := SkipOverruns(data, pos);
    e := Entry(key, value);
    EntryCut(data, w.pos, e);
  }

  lemma {:induction false} CoseEntriesCut(data: seq<Byte>, w: CoseWalk, entries: seq<Entry>)
    requires CoseReadableAll(entries) && Cut(data, w.pos, EncodeEntries(entries), CoseTail(entries))
    ensures CoseEntries(data, w, |entries|) == Ok(CoseWalk(
      BytesUnder(entries, Number(X_LABEL), w.x), BytesUnder(entries, Number(Y_LABEL), w.y),
      w.pos + |EncodeEntries(entries)|))
    decreases |entries|
  {
    hide CoseEntry, EncodeEntry, Cut, Trailing, BytesUnder, Encode;
    SomeEntries(data, w.pos, entries, CoseTail(entries));
    var first, rest := entries[0], entries[1..];
    assert first in entries;
    CoseFieldReadable(rest);
    BytesUnderStart(entries, Number(X_LABEL), w.x);
    BytesUnderStart(entries, Number(Y_LABEL), w.y);
    if rest == [] {
      OneEntry(entries);
      NothingUnder(Number(X_LABEL), w.x);
      NothingUnder(Number(Y_LABEL), w.y);
      CoseEntryCut(data, w, first);
    } else {
      assert rest[|rest| - 1] == entries[|entries| - 1];
      LastEntryShort(rest);
      EntriesCut(data, w.pos, entries, CoseTail(entries));
      CoseEntryEncoded(data, w, first);
      CoseEntriesCut(data, CoseEntry(data, w).value, rest);
    }
  }

  lemma {:induction false} CoseEntriesOverrun(data: seq<Byte>, w: CoseWalk, count: nat) returns (entries: seq<Entry>)
    requires CoseEntries(data, w, count).Ok? && w.pos <= |data| < CoseEntries(data, w, count).value.pos
    ensures CoseReadableAll(entries) && |entries| == count && Cut(data, w.pos, EncodeEntries(entries), CoseTail(entries))
    decreases count
  {
    hide CoseEntry, EncodeEntry, Cut, Trailing, Encode;
    var next := CoseEntry(data, w).value;
    if next.pos > |data| {
      CoseNothingAfter(data, next, count - 1);
      var e := CoseEntryOverruns(data, w);
      entries := [e];
      OneEntry(entries);
    } else {
      var first := CoseEntryDelimits(data, w);
      var rest := CoseEntriesOverrun(data, next, count - 1);
      entries := [first] + rest;
      assert entries[1..] == rest;
      SomeEntries(data, next.pos, rest, CoseTail(rest));
      assert entries[|entries| - 1] == rest[|rest| - 1];
      LastEntryShort(rest);
      EntriesCut(data, w.pos, entries, CoseTail(entries));
    }
  }

  lemma CoseNothingAfter(data: seq<Byte>, w: CoseWalk, count: nat)
    requires w.pos >= |data| && CoseEntries(data, w, count).Ok?
    ensures count == 0
  {
  }

  ghost predicate IsCutCoseMap(data: seq<Byte>, w: CoseWalk, h: Head, entries: seq<Entry>) {
    ValidMap(h, entries) && CoseReadableAll(entries) && entries != [] &&
    Cut(data, 0, EncodeMap(h, entries), CoseTail(entries)) && w.pos == |EncodeMap(h, entries)| &&
    w.x == BytesUnder(entries, Number(X_LABEL), None) && w.y == BytesUnder(entries, Number(Y_LABEL), None)
  }

  lemma CoseMapCut(data: seq<Byte>, h: Head, entries: seq<Entry>)
    requires ValidMap(h, entries) && CoseReadableAll(entries) && entries != []
    requires Cut(data, 0, EncodeMap(h, entries), CoseTail(entries))
    ensures CoseMap(data) == Ok(CoseWalk(
      BytesUnder(entries, Number(X_LABEL), None), BytesUnder(entries, Number(Y_LABEL), None),
      |EncodeMap(h, entries)|))
  {
    hide CoseEntries, EncodeEntries, BytesUnder, Cut, EncodeHead, ReadMapLen, CoseTail, CoseReadableAll;
    LastEntryShort(entries);
    MapCut(data, h, entries, CoseTail(entries));
    CoseEntriesCut(data, CoseWalk(None, None, 1 + h.width), entries);
  }

  /**
   * A COSE walk succeeds past the end of the buffer exactly on a proper prefix of an encoded readable map
   * whose missing bytes all lie in the string that ends its last entry, an entry the walk skips.
   */
  lemma CoseMapOverrunsIff(data: seq<Byte>, w: CoseWalk)
    ensures CoseMap(data) == Ok(w) && w.pos > |data| <==> exists h, entries :: IsCutCoseMap(data, w, h, entries)
  {
    hide Cut, EncodeMap, CoseTail, CoseEntries;
    if CoseMap(data) == Ok(w) && w.pos > |data| {
      var h, entries := CoseMapOverruns(data, w);
      assert IsCutCoseMap(data, w, h, entries);
    }
    forall h, entries | IsCutCoseMap(data, w, h, entries)
      ensures CoseMap(data) == Ok(w) && w.pos > |data|
    {
      CoseMapCut(data, h, entries);
      CutIsShort(data, EncodeMap(h, entries), CoseTail(entries));
    }
  }

  lemma CoseMapOverruns(data: seq<Byte>, w: CoseWalk) returns (h: Head, entries: seq<Entry>)
    requires CoseMap(data) == Ok(w) && w.pos > |data|
    ensures IsCutCoseMap(data, w, h, entries)
  {
    hide CoseEntries, EncodeEntries, BytesUnder, Cut, EncodeHead, CoseTail;
    h := MapLenDelimits(data);
    HeadFits(data, h);
    var start := CoseWalk(None, None, 1 + h.width);
    entries := CoseEntriesOverrun(data, start, h.arg);
    SomeEntries(data, 1 + h.width, entries, CoseTail(entries));
    LastEntryShort(entries);
    MapCut(data, h, entries, CoseTail(entries));
    CoseMapCut(data, h, entries);
  }

  // -------------------------------------------------------------------------
  // Attestation object
  // -------------------------------------------------------------------------

  predicate AttestationSkips(e: Entry)
    requires ValidItem(e.key) && KeyItem(e.key)
  {
    LabelOf(e.key) !in {Name(FMT), Name(AUTH_DATA)}
  }

  /** What may be missing of a map: the payload its last entry ends with, if that entry is one the walker skips. */
  function AttestationTail(entries: seq<Entry>): (n: nat)
    requires ValidEntries(entries)
    ensures entries != [] ==> n <= |Encode(entries[|entries| - 1].value)|
  {
    if entries != [] && AttestationSkips(entries[|entries| - 1]) then Trailing(entries[|entries| - 1].value) else 0
  }

  lemma AttestationEntryCut(data: seq<Byte>, w: AttestationWalk, e: Entry)
    requires AttestationReadable(e) && AttestationSkips(e) && Cut(data, w.pos, EncodeEntry(e), Trailing(e.value))
    ensures AttestationEntry(data, w) == Ok(w.(pos := w.pos + |EncodeEntry(e)|))
  {
    KeysDiffer();
    hide ReadTstr, ReadBstr, SkipValue, Encode, EncodeEntry, Cut, Trailing, FMT, AUTH_DATA;
    EntryCut(data, w.pos, e);
    ReadTstrEncoded(data, w.pos, e.key);
    SkipCut(data, w.pos + |Encode(e.key)|, e.value);
  }

  lemma AttestationEntryOverruns(data: seq<Byte>, w: AttestationWalk) returns (e: Entry)
    requires AttestationEntry(data, w).Ok? && AttestationEntry(data, w).value.pos > |data|
    ensures AttestationReadable(e) && AttestationSkips(e) && Cut(data, w.pos, EncodeEntry(e), Trailing(e.value))
    ensures AttestationEntry(data, w) == Ok(w.(pos := w.pos + |EncodeEntry(e)|))
  {
    KeysDiffer();
    hide ReadTstr, ReadBstr, SkipValue, Encode, EncodeEntry, Cut, Trailing, FMT, AUTH_DATA;
    var key := ReadTstrDelimits(data, w.pos);
    var pos := w.pos + |Encode(key)|;
    NeededFits(data, pos);
    var value := SkipOverruns(data, pos);
    e := Entry(key, value);
    EntryCut(data, w.pos, e);
  }

  lemma {:induction false} AttestationEntriesCut(data: seq<Byte>, w: AttestationWalk, entries: seq<Entry>)
    requires AttestationReadableAll(entries) && Cut(data, w.pos, EncodeEntries(entries), AttestationTail(entries))
    ensures AttestationEntries(data, w, |entries|) == Ok(AttestationWalk(
      BytesUnder(entries, Name(FMT), w.fmt), BytesUnder(entries, Name(AUTH_DATA), w.authData),
      w.pos + |EncodeEntries(entries)|))
    decreases |entries|
  {
    hide AttestationEntry, EncodeEntry, Cut, Trailing, BytesUnder, Encode, FMT, AUTH_DATA;
    SomeEntries(data, w.pos, entries, AttestationTail(entries));
    var first, rest := entries[0], entries[1..];
    assert first in entries;
    AttestationFieldReadable(rest);
    BytesUnderStart(entries, Name(FMT), w.fmt);
    BytesUnderStart(entries, Name(AUTH_DATA), w.authData);
    if rest == [] {
      OneEntry(entries);
      NothingUnder(Name(FMT), w.fmt);
      NothingUnder(Name(AUTH_DATA), w.authData);
      AttestationEntryCut(data, w, first);
    } else {
      assert rest[|rest| - 1] == entries[|entries| - 1];
      LastEntryShort(rest);
      EntriesCut(data, w.pos, entries, AttestationTail(entries));
      AttestationEntryEncoded(data, w, first);
      AttestationEntriesCut(data, AttestationEntry(data, w).value, rest);
    }
  }

  lemma {:induction false} AttestationEntriesOverrun(data: seq<Byte>, w: AttestationWalk, count: nat)
      returns (entries: seq<Entry>)
    requires AttestationEntries(data, w, count).Ok? && w.pos <= |data| < AttestationEntries(data, w, count).value.pos
    ensures AttestationReadableAll(entries) && |entries| == count && Cut(data, w.pos, EncodeEntries(entries), AttestationTail(entries))
    decreases count
  {
    hide AttestationEntry, EncodeEntry, Cut, Trailing, Encode, FMT, AUTH_DATA;
    var next := AttestationEntry(data, w).value;
    if next.pos > |data| {
      AttestationNothingAfter(data, next, count - 1);
      var e := AttestationEntryOverruns(data, w);
      entries := [e];
      OneEntry(entries);
    } else {
      var first := AttestationEntryDelimits(data, w);
      var rest := AttestationEntriesOverrun(data, next, count - 1);
      entries := [first] + rest;
      assert entries[1..] == rest;
      SomeEntries(data, next.pos, rest, AttestationTail(rest));
      assert entries[|entries| - 1] == rest[|rest| - 1];
      LastEntryShort(rest);
      EntriesCut(data, w.pos, entries, AttestationTail(entries));
    }
  }

  lemma AttestationNothingAfter(data: seq<Byte>, w: AttestationWalk, count: nat)
    requires w.pos >= |data| && AttestationEntries(data, w, count).Ok?
    ensures count == 0
  {
  }

  ghost predicate IsCutAttestationMap(data: seq<Byte>, w: AttestationWalk, h: Head, entries: seq<Entry>) {
    ValidMap(h, entries) && AttestationReadableAll(entries) && entries != [] &&
    Cut(data, 0, EncodeMap(h, entries), AttestationTail(entries)) && w.pos == |EncodeMap(h, entries)| &&
    w.fmt == BytesUnder(entries, Name(FMT), None) && w.authData == BytesUnder(entries, Name(AUTH_DATA), None)
  }

  lemma AttestationMapCut(data: seq<Byte>, h: Head, entries: seq<Entry>)
    requires ValidMap(h, entries) && AttestationReadableAll(entries) && entries != []
    requires Cut(data, 0, EncodeMap(h, entries), AttestationTail(entries))
    ensures AttestationMap(data) == Ok(AttestationWalk(
      BytesUnder(entries, Name(FMT), None), BytesUnder(entries, Name(AUTH_DATA), None),
      |EncodeMap(h, entries)|))
  {
    hide AttestationEntries, EncodeEntries, BytesUnder, Cut, EncodeHead, ReadMapLen, AttestationTail, AttestationReadableAll;
    LastEntryShort(entries);
    MapCut(data, h, entries, AttestationTail(entries));
    AttestationEntriesCut(data, AttestationWalk(None, None, 1 + h.width), entries);
  }

  /**
   * An attestation walk succeeds past the end of the buffer exactly on a proper prefix of an encoded
   * text-keyed map whose missing bytes all lie in the string that ends its last entry, one it skips.
   */
  lemma AttestationMapOverrunsIff(data: seq<Byte>, w: AttestationWalk)
    ensures AttestationMap(data) == Ok(w) && w.pos > |data| <==> exists h, entries :: IsCutAttestationMap(data, w, h, entries)
  {
    hide Cut, EncodeMap, AttestationTail, AttestationEntries;
    if AttestationMap(data) == Ok(w) && w.pos > |data| {
      var h, entries := AttestationMapOverruns(data, w);
      assert IsCutAttestationMap(data, w, h, entries);
    }
    forall h, entries | IsCutAttestationMap(data, w, h, entries)
      ensures AttestationMap(data) == Ok(w) && w.pos > |data|
    {
      AttestationMapCut(data, h, entries);
      CutIsShort(data, EncodeMap(h, entries), AttestationTail(entries));
    }
  }

  lemma AttestationMapOverruns(data: seq<Byte>, w: AttestationWalk) returns (h: Head, entries: seq<Entry>)
    requires AttestationMap(data) == Ok(w) && w.pos > |data|
    ensures IsCutAttestationMap(data, w, h, entries)
  {
    hide AttestationEntries, EncodeEntries, BytesUnder, Cut, EncodeHead, AttestationTail;
    h := MapLenDelimits(data);
    HeadFits(data, h);
    var start := AttestationWalk(None, None, 1 + h.width);
    entries := AttestationEntriesOverrun(data, start, h.arg);
    SomeEntries(data, 1 + h.width, entries, AttestationTail(entries));
    LastEntryShort(entries);
    MapCut(data, h, entries, AttestationTail(entries));
    AttestationMapCut(data, h, entries);
  }
}
