/** The two CBOR map walkers of `webauthn.rs` and the authenticator-data parser between them. */
module Attestation {
  import opened Results
  import opened Bytes
  import opened Cbor

  datatype ParseError =
    | Empty
    | Malformed(cause: CborError)
    | TruncatedAtKey
    | MissingX
    | MissingY
    | MissingFmt
    | MissingAuthData
    | TooShort
    | NoAttestedCredential
    | TruncatedAtAaguid
    | TruncatedAtIdLength
    | TruncatedAtId
    | TruncatedAtKeyBytes

  type Parse<+T> = Result<T, ParseError>

  function Lift<T>(r: Read<T>): (p: Parse<T>) {
    if r.Ok? then Ok(r.value) else Err(Malformed(r.error))
  }

  // -------------------------------------------------------------------------
  // COSE_Key
  // -------------------------------------------------------------------------

  const X_LABEL := -2
  const Y_LABEL := -3

  /** The walk's state: the coordinates met so far and the current offset. */
  datatype CoseWalk = CoseWalk(x: Option<seq<Byte>>, y: Option<seq<Byte>>, pos: nat)

  /** One round of the loop: a key and its value. */
  function CoseEntry(data: seq<Byte>, w: CoseWalk): (r: Parse<CoseWalk>) {
    if w.pos >= |data| then Err(TruncatedAtKey) else
    var (key, keyLen) :- Lift(ReadInt(data, w.pos));
    var pos := w.pos + keyLen;
    if key == X_LABEL || key == Y_LABEL then
      var (bs, n) :- Lift(ReadBstr(data, pos));
      Ok(if key == X_LABEL then CoseWalk(Some(bs), w.y, pos + n) else CoseWalk(w.x, Some(bs), pos + n))
    else
      var n :- Lift(SkipValue(data, pos));
      Ok(w.(pos := pos + n))
  }

  function CoseEntries(data: seq<Byte>, w: CoseWalk, count: nat): (r: Parse<CoseWalk>)
    decreases count
  {
    if count == 0 then Ok(w) else
    var next :- CoseEntry(data, w);
    CoseEntries(data, next, count - 1)
  }

  /** The whole walk, with the offset where it stopped. */
  function CoseMap(data: seq<Byte>): (r: Parse<CoseWalk>) {
    if data == [] then Err(Empty) else
    var header :- Lift(ReadMapLen(data, 0));
    CoseEntries(data, CoseWalk(None, None, header.1), header.0)
  }

  /** What `extract_cose_ec2_coords` returns. */
  function CoseCoords(data: seq<Byte>): (r: Parse<(seq<Byte>, seq<Byte>)>) {
    var w :- CoseMap(data);
    if w.x.None? then Err(MissingX)
    else if w.y.None? then Err(MissingY)
    else Ok((w.x.value, w.y.value))
  }

  method ExtractCoseEc2Coords(data: seq<Byte>) returns (r: Parse<(seq<Byte>, seq<Byte>)>)
    ensures r == CoseCoords(data)
  {
    if data == [] {
      return Err(Empty);
    }
    var header := ReadMapLen(data, 0);
    if header.Err? {
      return Err(Malformed(header.error));
    }
    var walked := WalkCose(data, header.value.0, CoseWalk(None, None, header.value.1));
    if walked.Err? {
      return Err(walked.error);
    }
    var w := walked.value;
    if w.x.None? {
      return Err(MissingX);
    }
    if w.y.None? {
      return Err(MissingY);
    }
    return Ok((w.x.value, w.y.value));
  }

  /** Its loop. */
  method WalkCose(data: seq<Byte>, mapLen: nat, start: CoseWalk) returns (r: Parse<CoseWalk>)
    ensures r == CoseEntries(data, start, mapLen)
  {
    hide CoseEntry;
    var w := start;
    for i := 0 to mapLen
      invariant CoseEntries(data, start, mapLen) == CoseEntries(data, w, mapLen - i)
    {
      var next := ReadCoseEntry(data, w);
      if next.Err? {
        return Err(next.error);
      }
      w := next.value;
    }
    return Ok(w);
  }

  /** The body of that loop. */
  method ReadCoseEntry(data: seq<Byte>, w: CoseWalk) returns (r: Parse<CoseWalk>)
    ensures r == CoseEntry(data, w)
  {
    hide ReadInt, ReadBstr, SkipValue;
    if w.pos >= |data| {
      return Err(TruncatedAtKey);
    }
    var key := ReadInt(data, w.pos);
    if key.Err? {
      return Err(Malformed(key.error));
    }
    var pos := w.pos + key.value.1;
    if key.value.0 == X_LABEL || key.value.0 == Y_LABEL {
      var bstr := ReadBstr(data, pos);
      if bstr.Err? {
        return Err(Malformed(bstr.error));
      }
      pos := pos + bstr.value.1;
      if key.value.0 == X_LABEL {
        return Ok(CoseWalk(Some(bstr.value.0), w.y, pos));
      } else {
        return Ok(CoseWalk(w.x, Some(bstr.value.0), pos));
      }
    } else {
      var skipped := CborSkipValue(data, pos);
      if skipped.Err? {
        return Err(Malformed(skipped.error));
      }
      return Ok(w.(pos := pos + skipped.value));
    }
  }

  // -------------------------------------------------------------------------
  // Attestation object
  // -------------------------------------------------------------------------

  /** The keys "fmt" and "authData". */
  const FMT: seq<Byte> := [0x66, 0x6d, 0x74]
  const AUTH_DATA: seq<Byte> := [0x61, 0x75, 0x74, 0x68, 0x44, 0x61, 0x74, 0x61]

  datatype AttestationWalk = AttestationWalk(fmt: Option<seq<Byte>>, authData: Option<seq<Byte>>, pos: nat)
  datatype AttestationObject = AttestationObject(fmt: seq<Byte>, authData: seq<Byte>)

  function AttestationEntry(data: seq<Byte>, w: AttestationWalk): (r: Parse<AttestationWalk>) {
    if w.pos >= |data| then Err(TruncatedAtKey) else
    var (key, keyLen) :- Lift(ReadTstr(data, w.pos));
    var pos := w.pos + keyLen;
    if key == FMT then
      var (val, n) :- Lift(ReadTstr(data, pos));
      Ok(AttestationWalk(Some(val), w.authData, pos + n))
    else if key == AUTH_DATA then
      var (val, n) :- Lift(ReadBstr(data, pos));
      Ok(AttestationWalk(w.fmt, Some(val), pos + n))
    else
      var n :- Lift(SkipValue(data, pos));
      Ok(w.(pos := pos + n))
  }

  function AttestationEntries(data: seq<Byte>, w: AttestationWalk, count: nat): (r: Parse<AttestationWalk>)
    decreases count
  {
    if count == 0 then Ok(w) else
    var next :- AttestationEntry(data, w);
    AttestationEntries(data, next, count - 1)
  }

  function AttestationMap(data: seq<Byte>): (r: Parse<AttestationWalk>) {
    if data == [] then Err(Empty) else
    var header :- Lift(ReadMapLen(data, 0));
    AttestationEntries(data, AttestationWalk(None, None, header.1), header.0)
  }

  /** What `parse_attestation_object` returns. */
  function Attested(data: seq<Byte>): (r: Parse<AttestationObject>) {
    var w :- AttestationMap(data);
    if w.fmt.None? then Err(MissingFmt)
    else if w.authData.None? then Err(MissingAuthData)
    else Ok(AttestationObject(w.fmt.value, w.authData.value))
  }

  method ParseAttestationObject(data: seq<Byte>) returns (r: Parse<AttestationObject>)
    ensures r == Attested(data)
  {
    if data == [] {
      return Err(Empty);
    }
    var header := ReadMapLen(data, 0);
    if header.Err? {
      return Err(Malformed(header.error));
    }
    var walked := WalkAttestation(data, header.value.0, AttestationWalk(None, None, header.value.1));
    if walked.Err? {
      return Err(walked.error);
    }
    var w := walked.value;
    if w.fmt.None? {
      return Err(MissingFmt);
    }
    if w.authData.None? {
      return Err(MissingAuthData);
    }
    return Ok(AttestationObject(w.fmt.value, w.authData.value));
  }

  /** Its loop. */
  method WalkAttestation(data: seq<Byte>, mapLen: nat, start: AttestationWalk) returns (r: Parse<AttestationWalk>)
    ensures r == AttestationEntries(data, start, mapLen)
  {
    hide AttestationEntry;
    var w := start;
    for i := 0 to mapLen
      invariant AttestationEntries(data, start, mapLen) == AttestationEntries(data, w, mapLen - i)
    {
      var next := ReadAttestationEntry(data, w);
      if next.Err? {
        return Err(next.error);
      }
      w := next.value;
    }
    return Ok(w);
  }

  /** The body of that loop. */
  method ReadAttestationEntry(data: seq<Byte>, w: AttestationWalk) returns (r: Parse<AttestationWalk>)
    ensures r == AttestationEntry(data, w)
  {
    hide ReadTstr, ReadBstr, SkipValue;
    if w.pos >= |data| {
      return Err(TruncatedAtKey);
    }
    var key := ReadTstr(data, w.pos);
    if key.Err? {
      return Err(Malformed(key.error));
    }
    var pos := w.pos + key.value.1;
    if key.value.0 == FMT {
      var val := ReadTstr(data, pos);
      if val.Err? {
        return Err(Malformed(val.error));
      }
      return Ok(AttestationWalk(Some(val.value.0), w.authData, pos + val.value.1));
    } else if key.value.0 == AUTH_DATA {
      var val := ReadBstr(data, pos);
      if val.Err? {
        return Err(Malformed(val.error));
      }
      return Ok(AttestationWalk(w.fmt, Some(val.value.0), pos + val.value.1));
    } else {
      var skipped := CborSkipValue(data, pos);
      if skipped.Err? {
        return Err(Malformed(skipped.error));
      }
      return Ok(w.(pos := pos + skipped.value));
    }
  }

  // -------------------------------------------------------------------------
  // Authenticator data
  // -------------------------------------------------------------------------

  datatype AttestedCredential = AttestedCredential(credentialId: seq<Byte>, coseKey: seq<Byte>)

  /** `parse_attested_credential`: 37 fixed bytes, AAGUID, id length, id, and the rest is the key. */
  function ParseAttestedCredential(authData: seq<Byte>): (r: Parse<AttestedCredential>) {
    if |authData| < 37 then Err(TooShort)
    else if authData[32] / 0x40 % 2 == 0 then Err(NoAttestedCredential)
    else if 37 + 16 > |authData| then Err(TruncatedAtAaguid)
    else if 53 + 2 > |authData| then Err(TruncatedAtIdLength)
    else
      var idLen := FromBigEndian(authData[53..55]);
      if 55 + idLen > |authData| then Err(TruncatedAtId)
      else if 55 + idLen >= |authData| then Err(TruncatedAtKeyBytes)
      else Ok(AttestedCredential(authData[55..55 + idLen], authData[55 + idLen..]))
  }
}
