/**
 * Registrations byte by byte: the ones the repository's encoders build, as literal bytes, and what the
 * three parsers answer on them and on the malformed inputs next to them.
 */
module RegistrationBytes {
  import opened Results
  import opened Bytes
  import opened Cbor
  import opened CborItems
  import opened Attestation
  import opened Registration

  // -------------------------------------------------------------------------
  // An ES256 key
  // -------------------------------------------------------------------------

  /** `build_test_cose_key`. */
  function KeyBytes(x: seq<Byte>, y: seq<Byte>): seq<Byte> {
    [0xA5, 0x01, 0x02, 0x03, 0x26, 0x20, 0x01, 0x21, 0x58, 0x20] + x + [0x22, 0x58, 0x20] + y
  }

  lemma SmallBytes(n: int)
    requires -24 <= n < 24
    ensures Encode(Small(n)) == [if n >= 0 then n else 0x20 + (-1 - n)]
  {
  }

  lemma BytesOf32(bs: seq<Byte>)
    requires |bs| == 32
    ensures Encode(Bstr(bs)) == [0x58, 0x20] + bs
  {
    OneByte(32);
  }

  lemma OneByte(n: nat)
    requires n < 256
    ensures Pow256(1) == 256 && ToBigEndian(n, 1) == [n]
  {
    assert ToBigEndian(n / 256, 0) == [];
  }

  lemma TwoBytes(n: nat)
    requires n < 0x1_0000
    ensures Pow256(2) == 0x1_0000 && ToBigEndian(n, 2) == [n / 256, n % 256]
  {
    OneByte(n / 256);
    assert Pow256(2) == 256 * Pow256(1);
  }

  lemma {:induction false} FiveEntries(es: seq<Entry>, a: Entry, b: Entry, c: Entry, d: Entry, e: Entry)
    requires es == [a, b, c, d, e] && ValidEntries(es)
    ensures EncodeEntries(es) == EncodeEntry(a) + (EncodeEntry(b) + (EncodeEntry(c) + (EncodeEntry(d) + EncodeEntry(e))))
  {
    hide EncodeEntry, ValidItem, KeyItem;
    assert a in es && b in es && c in es && d in es && e in es;
    assert es[1..] == [b, c, d, e] && es[2..] == [c, d, e] && es[3..] == [d, e] && es[4..] == [e];
    EntriesStart(es);
    EntriesStart(es[1..]);
    EntriesStart(es[2..]);
    EntriesStart(es[3..]);
    EntriesStart(es[4..]);
  }

  lemma EntriesStart(es: seq<Entry>)
    requires es != [] && ValidEntries(es)
    ensures ValidEntries(es[1..]) && EncodeEntries(es) == EncodeEntry(es[0]) + EncodeEntries(es[1..])
    ensures |es| == 1 ==> EncodeEntries(es) == EncodeEntry(es[0])
  {
  }

  lemma UsualKeyIs(x: seq<Byte>, y: seq<Byte>)
    requires |x| == 32 && |y| == 32
    ensures UsualKey(x, y) == KeyBytes(x, y)
  {
    hide EncodeEntries, Encode, Small, Bstr;
    var es := Es256Key(x, y);
    Es256KeyIsReadable(x, y);
    FiveEntries(es, es[0], es[1], es[2], es[3], es[4]);
    SmallBytes(1);
    SmallBytes(2);
    SmallBytes(3);
    SmallBytes(-7);
    SmallBytes(-1);
    SmallBytes(-2);
    SmallBytes(-3);
    BytesOf32(x);
    BytesOf32(y);
  }

  /** Every such key gives back x, then y. */
  lemma KeyBytesReadBack(x: seq<Byte>, y: seq<Byte>)
    requires |x| == 32 && |y| == 32
    ensures UsualKey(x, y) == KeyBytes(x, y) && CoseCoords(KeyBytes(x, y)) == Ok((x, y))
  {
    hide CoseEntries, EncodeMap, BytesUnder, Carries, Es256Key;
    UsualKeyIs(x, y);
    Es256KeyIsReadable(x, y);
    CoseMapEncoded(KeyBytes(x, y), Head(0, 5), Es256Key(x, y));
    CarriedBytes(Es256Key(x, y), Number(-2), x);
    CarriedBytes(Es256Key(x, y), Number(-3), y);
  }

  /** Of any readable key, the last byte string labelled -2 is x, the last labelled -3 is y, and x is missed first. */
  lemma KeyAnswer(data: seq<Byte>, h: Head, entries: seq<Entry>)
    requires ValidMap(h, entries) && CoseReadableAll(entries) && At(data, 0, EncodeMap(h, entries))
    ensures var (x, y) := (Field(entries, Number(-2)), Field(entries, Number(-3)));
      (x.None? ==> CoseCoords(data) == Err(MissingX)) &&
      (x.Some? && y.None? ==> CoseCoords(data) == Err(MissingY)) &&
      (x.Some? && y.Some? ==> x.value.Str? && y.value.Str? && CoseCoords(data) == Ok((x.value.payload, y.value.payload)))
  {
    hide CoseEntries, EncodeMap, ReadMapLen, At;
    CoseMapEncoded(data, h, entries);
    CoseFieldReadable(entries);
  }

  /** The malformed keys of the repository's tests. */
  lemma KeyRefusals(x: seq<Byte>, y: seq<Byte>)
    requires |x| == 32 && |y| == 32
    ensures CoseCoords([]) == Err(Empty) && CoseCoords([0x00]) == Err(Malformed(WrongMajor(0)))
    ensures CoseCoords([0xA1, 0x21, 0x58, 0x20] + x) == Err(MissingY)
    ensures CoseCoords([0xA1, 0x22, 0x58, 0x20] + y) == Err(MissingX)
  {
    hide CoseCoords, CoseMap, EncodeMap;
    NoKey();
    var ex, ey := Entry(Small(-2), Bstr(x)), Entry(Small(-3), Bstr(y));
    OneEntryBytes(ex, x);
    OneEntryBytes(ey, y);
    KeyAnswer([0xA1, 0x21, 0x58, 0x20] + x, Head(0, 1), [ex]);
    KeyAnswer([0xA1, 0x22, 0x58, 0x20] + y, Head(0, 1), [ey]);
  }

  /** A head that announces entries, with nothing after it, is cut off at a key. */
  lemma NothingAfterTheHead(n: nat)
    requires 0 < n < 24
    ensures CoseCoords([0xA0 + n]) == Err(TruncatedAtKey) && Attested([0xA0 + n]) == Err(TruncatedAtKey)
    ensures Attested([]) == Err(Empty) && Attested([0x00]) == Err(Malformed(WrongMajor(0)))
  {
    var data: seq<Byte> := [0xA0 + n];
    assert ReadMapLen(data, 0) == Ok((n, 1));
    assert CoseEntry(data, CoseWalk(None, None, 1)) == Err(TruncatedAtKey);
    assert AttestationEntry(data, AttestationWalk(None, None, 1)) == Err(TruncatedAtKey);
  }

  lemma NoKey()
    ensures CoseCoords([]) == Err(Empty) && CoseCoords([0x00]) == Err(Malformed(WrongMajor(0)))
  {
  }

  lemma OneEntryBytes(e: Entry, bs: seq<Byte>)
    requires |bs| == 32 && e.key in {Small(-2), Small(-3)} && e.value == Bstr(bs)
    ensures ValidMap(Head(0, 1), [e]) && CoseReadableAll([e])
    ensures At([0xA1, if e.key == Small(-2) then 0x21 else 0x22, 0x58, 0x20] + bs, 0, EncodeMap(Head(0, 1), [e]))
  {
    SmallBytes(-2);
    SmallBytes(-3);
    BytesOf32(bs);
    hide Encode, Small, Bstr;
    EntriesStart([e]);
    assert EncodeMap(Head(0, 1), [e]) == [0xA1, if e.key == Small(-2) then 0x21 else 0x22, 0x58, 0x20] + bs;
  }

  // -------------------------------------------------------------------------
  // Authenticator data
  // -------------------------------------------------------------------------

  /** 32 bytes of rpIdHash, flags, 4 of sign count and 16 of AAGUID, id length, id, and a key that is not empty. */
  ghost predicate IsAuthData(data: seq<Byte>, fixed: seq<Byte>, high: Byte, low: Byte, id: seq<Byte>, key: seq<Byte>) {
    |fixed| == 53 && fixed[32] / 64 % 2 == 1 && |id| == 256 * high + low && key != [] &&
    data == fixed + [high, low] + id + key
  }

  lemma TwoByteNumber(high: Byte, low: Byte)
    ensures FromBigEndian([high, low]) == 256 * high + low
  {
    assert [high, low][..1] == [high] && [high][..0] == [];
  }

  /** Exactly such data is accepted, with that id and that key. */
  lemma CredentialIff(data: seq<Byte>, id: seq<Byte>, key: seq<Byte>)
    ensures ParseAttestedCredential(data) == Ok(AttestedCredential(id, key)) <==>
      exists fixed, high, low :: IsAuthData(data, fixed, high, low, id, key)
  {
    hide FromBigEndian;
    if ParseAttestedCredential(data) == Ok(AttestedCredential(id, key)) {
      assert data[53..55] == [data[53], data[54]];
      TwoByteNumber(data[53], data[54]);
      assert IsAuthData(data, data[..53], data[53], data[54], id, key);
    }
    forall fixed, high, low | IsAuthData(data, fixed, high, low, id, key)
      ensures ParseAttestedCredential(data) == Ok(AttestedCredential(id, key))
    {
      FourParts(fixed, [high, low], id, key);
      TwoByteNumber(high, low);
      assert data[32] == fixed[32];
    }
  }

  /** And the rest is refused for the first part that is missing. */
  lemma CredentialRefusals(data: seq<Byte>)
    ensures ParseAttestedCredential(data) == Err(TooShort) <==> |data| < 37
    ensures ParseAttestedCredential(data) == Err(NoAttestedCredential) <==> |data| >= 37 && data[32] / 64 % 2 == 0
    ensures ParseAttestedCredential(data) == Err(TruncatedAtAaguid) <==> 37 <= |data| < 53 && data[32] / 64 % 2 == 1
    ensures ParseAttestedCredential(data) == Err(TruncatedAtIdLength) <==> 53 <= |data| < 55 && data[32] / 64 % 2 == 1
    ensures ParseAttestedCredential(data) == Err(TruncatedAtId) <==>
      |data| >= 55 && data[32] / 64 % 2 == 1 && |data| < 55 + 256 * data[53] as int + data[54] as int
    ensures ParseAttestedCredential(data) == Err(TruncatedAtKeyBytes) <==>
      |data| >= 55 && data[32] / 64 % 2 == 1 && |data| == 55 + 256 * data[53] as int + data[54] as int
  {
    hide FromBigEndian;
    if |data| >= 55 {
      assert data[53..55] == [data[53], data[54]];
      TwoByteNumber(data[53], data[54]);
    }
  }

  /** `build_auth_data_with_credential`, for any AAGUID. */
  function AuthDataBytes(rpIdHash: seq<Byte>, aaguid: seq<Byte>, id: seq<Byte>, key: seq<Byte>): seq<Byte>
    requires |id| < 0x1_0000
  {
    rpIdHash + [0x45, 0, 0, 0, 0] + aaguid + [|id| / 256, |id| % 256] + id + key
  }

  // -------------------------------------------------------------------------
  // Attestation objects
  // -------------------------------------------------------------------------

  /** The head of a string of n bytes: text from 0x60 on, bytes from 0x40 on. */
  function StringHead(base: Byte, n: nat): seq<Byte>
    requires base in {0x40, 0x60} && n < 0x1_0000
  {
    if n < 24 then [base + n] else if n < 256 then [base + 24, n] else [base + 25, n / 256, n % 256]
  }

  /** `build_test_attestation_object`: "fmt", "attStmt" with an empty map, "authData". */
  function AttestationBytes(fmt: seq<Byte>, authData: seq<Byte>): seq<Byte>
    requires |fmt| < 0x1_0000 && |authData| < 0x1_0000
  {
    [0xA3] +
    [0x63, 'f' as int, 'm' as int, 't' as int] + StringHead(0x60, |fmt|) + fmt +
    [0x67, 'a' as int, 't' as int, 't' as int, 'S' as int, 't' as int, 'm' as int, 't' as int] + [0xA0] +
    [0x68, 'a' as int, 'u' as int, 't' as int, 'h' as int, 'D' as int, 'a' as int, 't' as int, 'a' as int] +
    StringHead(0x40, |authData|) + authData
  }

  lemma StringBytes(text: bool, bs: seq<Byte>)
    requires |bs| < 0x1_0000
    ensures var item := Str(text, ShortHead(|bs|), bs);
      ValidItem(item) && Encode(item) == StringHead(if text then 0x60 else 0x40, |bs|) + bs
  {
    if |bs| < 256 {
      OneByte(|bs|);
    }
    TwoBytes(|bs|);
    hide ToBigEndian, Pow256;
  }

  lemma ThreeEntriesBytes(es: seq<Entry>, a: Entry, b: Entry, c: Entry)
    requires es == [a, b, c] && ValidEntries(es)
    ensures EncodeEntries(es) == EncodeEntry(a) + (EncodeEntry(b) + EncodeEntry(c))
  {
    hide EncodeEntry, ValidItem, KeyItem;
    assert a in es && b in es && c in es;
    assert es[1..] == [b, c] && es[2..] == [c];
    EntriesStart(es);
    EntriesStart(es[1..]);
    EntriesStart(es[2..]);
  }

  lemma EmptyMapBytes()
    ensures ValidItem(Map(Head(0, 0), [])) && Encode(Map(Head(0, 0), [])) == [0xA0]
  {
  }

  lemma NameBytes()
    ensures Utf8(FMT) && Utf8(ATT_STMT) && Utf8(AUTH_DATA) && |FMT| == 3 && |ATT_STMT| == 7 && |AUTH_DATA| == 8
    ensures Encode(Tstr(FMT)) == [0x63, 'f' as int, 'm' as int, 't' as int]
    ensures Encode(Tstr(ATT_STMT)) ==
      [0x67, 'a' as int, 't' as int, 't' as int, 'S' as int, 't' as int, 'm' as int, 't' as int]
    ensures Encode(Tstr(AUTH_DATA)) ==
      [0x68, 'a' as int, 'u' as int, 't' as int, 'h' as int, 'D' as int, 'a' as int, 't' as int, 'a' as int]
  {
    hide Encode, ShortHead, Utf8;
    NamesAreUtf8();
    StringBytes(true, FMT);
    StringBytes(true, ATT_STMT);
    StringBytes(true, AUTH_DATA);
  }

  lemma UsualAttestationIs(fmt: seq<Byte>, authData: seq<Byte>)
    requires |fmt| < 0x1_0000 && Utf8(fmt) && |authData| < 0x1_0000
    ensures UsualAttestation(fmt, authData) == AttestationBytes(fmt, authData)
  {
    hide EncodeEntries, Encode, ShortHead, Utf8, FMT, ATT_STMT, AUTH_DATA, StringHead;
    NameBytes();
    PlainAttestationIsReadable(fmt, authData);
    var es := PlainAttestation(fmt, authData);
    ThreeEntriesBytes(es, es[0], es[1], es[2]);
    StringBytes(true, fmt);
    EmptyMapBytes();
    StringBytes(false, authData);
  }

  /**
   * The repository's own registrations, as literal bytes, go through the three parsers: format and
   * authenticator data, then credential id and key, then x and y.
   */
  lemma RegistrationBytesReadBack(rpIdHash: seq<Byte>, aaguid: seq<Byte>, id: seq<Byte>, fmt: seq<Byte>, x: seq<Byte>,
      y: seq<Byte>)
    requires |rpIdHash| == 32 && |aaguid| == 16 && |x| == 32 && |y| == 32
    requires |id| <= 0xFF00 && |fmt| < 0x1_0000 && Utf8(fmt)
    ensures var key := KeyBytes(x, y);
      var authData := AuthDataBytes(rpIdHash, aaguid, id, key);
      Attested(AttestationBytes(fmt, authData)) == Ok(AttestationObject(fmt, authData)) &&
      ParseAttestedCredential(authData) == Ok(AttestedCredential(id, key)) &&
      CoseCoords(key) == Ok((x, y))
  {
    hide Attested, ParseAttestedCredential, CoseCoords, KeyBytes, Utf8, PlainAttestation, EncodeMap, Carries;
    KeyBytesReadBack(x, y);
    var key := KeyBytes(x, y);
    KeyLength(x, y);
    var authData := AuthDataBytes(rpIdHash, aaguid, id, key);
    CredentialIff(authData, id, key);
    var fixed := rpIdHash + [0x45, 0, 0, 0, 0] + aaguid;
    assert fixed[32] == 0x45;
    assert IsAuthData(authData, fixed, |id| / 256, |id| % 256, id, key);
    UsualAttestationIs(fmt, authData);
    AttestationReadBack(fmt, authData);
  }

  /** Of any readable attestation map, the last value named "fmt" and the last named "authData", in this order of refusal. */
  lemma AttestationAnswer(data: seq<Byte>, h: Head, entries: seq<Entry>)
    requires ValidMap(h, entries) && AttestationReadableAll(entries) && At(data, 0, EncodeMap(h, entries))
    ensures var fmt := Field(entries, Name(['f' as int, 'm' as int, 't' as int]));
      var authData := Field(entries, Name(['a' as int, 'u' as int, 't' as int, 'h' as int, 'D' as int, 'a' as int, 't' as int, 'a' as int]));
      (fmt.None? ==> Attested(data) == Err(MissingFmt)) &&
      (fmt.Some? && authData.None? ==> Attested(data) == Err(MissingAuthData)) &&
      (fmt.Some? && authData.Some? ==>
        fmt.value.Str? && authData.value.Str? &&
        Attested(data) == Ok(AttestationObject(fmt.value.payload, authData.value.payload)))
  {
    hide AttestationEntries, EncodeMap, ReadMapLen, At;
    AttestationMapEncoded(data, h, entries);
    AttestationFieldReadable(entries);
    NamesAre();
  }

  lemma NamesAre()
    ensures FMT == ['f' as int, 'm' as int, 't' as int]
    ensures AUTH_DATA == ['a' as int, 'u' as int, 't' as int, 'h' as int, 'D' as int, 'a' as int, 't' as int, 'a' as int]
  {
  }

  lemma KeyLength(x: seq<Byte>, y: seq<Byte>)
    requires |x| == 32 && |y| == 32
    ensures |KeyBytes(x, y)| == 77
  {
  }

  lemma AttestationReadBack(fmt: seq<Byte>, authData: seq<Byte>)
    requires |fmt| < 0x1_0000 && Utf8(fmt) && |authData| < 0x1_0000
    ensures Attested(AttestationBytes(fmt, authData)) == Ok(AttestationObject(fmt, authData))
  {
    hide AttestationEntries, EncodeMap, BytesUnder, Carries, PlainAttestation, Utf8, AttestationBytes, FMT, AUTH_DATA;
    UsualAttestationIs(fmt, authData);
    PlainAttestationIsReadable(fmt, authData);
    var es := PlainAttestation(fmt, authData);
    AttestationMapEncoded(AttestationBytes(fmt, authData), Head(0, 3), es);
    CarriedBytes(es, Name(FMT), fmt);
    CarriedBytes(es, Name(AUTH_DATA), authData);
  }
}
