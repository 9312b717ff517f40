/** The revocable device-key registry (`devices.rs`). */
module Devices {
  import opened Results
  import opened Texts

  // -------------------------------------------------------------------------
  // Proof of possession
  // -------------------------------------------------------------------------

  /** A Nostr event; `authentic` is the answer of `verify_event_strict`. */
  datatype NostrEvent = NostrEvent(pubkey: string, kind: nat, tags: seq<seq<string>>, authentic: bool)

  const DEVICE_LINK_PROOF_KIND := 27236
  const DEVICE_PROOF_MAX_WINDOW_SECS := 300
  const U64_MAX := 0xFFFF_FFFF_FFFF_FFFF

  /** The second element of the first tag that carries this name. */
  function ProofTag(tags: seq<seq<string>>, name: string): (v: Option<string>) {
    if tags == [] then None
    else if tags[0] != [] && tags[0][0] == name then
      if |tags[0]| > 1 then Some(tags[0][1]) else None
    else ProofTag(tags[1..], name)
  }

  function Digits(s: string): (v: Option<nat>) {
    if s == [] then Some(0) else
    var last := s[|s| - 1];
    var front := Digits(s[..|s| - 1]);
    if front.None? || last < '0' || last > '9' then None
    else Some(10 * front.value + (last as int - '0' as int))
  }

  /** `str::parse::<u64>`: an optional plus sign, at least one digit, no overflow. */
  function ParseU64(s: string): (v: Option<nat>) {
    var digits := if s != [] && s[0] == '+' then s[1..] else s;
    var n := Digits(digits);
    if digits == [] || n.None? || n.value > U64_MAX then None else n
  }

  datatype ProofError = WrongAuthor | WrongKind | NoOwnerTag | WrongOwner | BadExpiry | ProofExpired | ExpiryTooFar | BadSignature

  /** `None` accepts the proof. */
  function VerifyDeviceProof(proof: NostrEvent, device: string, owner: string, now: nat): (r: Option<ProofError>) {
    if Lower(proof.pubkey) != device then Some(WrongAuthor)
    else if proof.kind != DEVICE_LINK_PROOF_KIND then Some(WrongKind)
    else
      var ownerTag := ProofTag(proof.tags, "owner");
      if ownerTag.None? then Some(NoOwnerTag)
      else if Lower(ownerTag.value) != owner then Some(WrongOwner)
      else
        var expTag := ProofTag(proof.tags, "exp");
        var exp := if expTag.None? then None else ParseU64(expTag.value);
        if exp.None? then Some(BadExpiry)
        else if exp.value <= now then Some(ProofExpired)
        else if exp.value > now + DEVICE_PROOF_MAX_WINDOW_SECS then Some(ExpiryTooFar)
        else if !proof.authentic then Some(BadSignature)
        else None
  }

  /** One proof links one device to one owner, and only within one short window. */
  lemma ProofBindsOneLink(proof: NostrEvent, device: string, owner: string, now: nat, device': string, owner': string,
      now': nat)
    requires VerifyDeviceProof(proof, device, owner, now).None?
    requires VerifyDeviceProof(proof, device', owner', now').None?
    ensures proof.authentic && device == Lower(proof.pubkey)
    ensures device == device' && owner == owner'
    ensures -DEVICE_PROOF_MAX_WINDOW_SECS < now - now' < DEVICE_PROOF_MAX_WINDOW_SECS
  {
  }

  /** The first tag of this name has this value. */
  ghost predicate FirstTag(tags: seq<seq<string>>, name: string, value: string) {
    exists i :: 0 <= i < |tags| && |tags[i]| >= 2 && tags[i][0] == name && tags[i][1] == value &&
      forall j :: 0 <= j < i ==> tags[j] == [] || tags[j][0] != name
  }

  lemma {:induction false} ProofTagIff(tags: seq<seq<string>>, name: string, value: string)
    ensures ProofTag(tags, name) == Some(value) <==> FirstTag(tags, name, value)
  {
    if tags == [] {
    } else if tags[0] != [] && tags[0][0] == name {
      if FirstTag(tags, name, value) {
        var i :| 0 <= i < |tags| && |tags[i]| >= 2 && tags[i][0] == name && tags[i][1] == value &&
          forall j :: 0 <= j < i ==> tags[j] == [] || tags[j][0] != name;
        assert i == 0;
      }
    } else {
      ProofTagIff(tags[1..], name, value);
      if FirstTag(tags[1..], name, value) {
        var i :| 0 <= i < |tags[1..]| && |tags[1..][i]| >= 2 && tags[1..][i][0] == name && tags[1..][i][1] == value &&
          forall j :: 0 <= j < i ==> tags[1..][j] == [] || tags[1..][j][0] != name;
        assert tags[i + 1] == tags[1..][i];
        assert forall j :: 0 < j < i + 1 ==> tags[j] == tags[1..][j - 1];
      }
      if FirstTag(tags, name, value) {
        var i :| 0 <= i < |tags| && |tags[i]| >= 2 && tags[i][0] == name && tags[i][1] == value &&
          forall j :: 0 <= j < i ==> tags[j] == [] || tags[j][0] != name;
        assert tags[1..][i - 1] == tags[i];
        assert forall j :: 0 <= j < i - 1 ==> tags[1..][j] == tags[j + 1];
      }
    }
  }

  /** Accepted exactly: kind 27236, by the device, owner tag for the owner, unexpired and within 300 seconds, authentic. */
  lemma ProofIff(proof: NostrEvent, device: string, owner: string, now: nat)
    ensures VerifyDeviceProof(proof, device, owner, now).None? <==>
      && Lower(proof.pubkey) == device && proof.kind == 27236 && proof.authentic
      && (exists v :: FirstTag(proof.tags, "owner", v) && Lower(v) == owner)
      && (exists v :: FirstTag(proof.tags, "exp", v) && ParseU64(v).Some? && now < ParseU64(v).value <= now + 300)
  {
    hide FirstTag, ProofTag, ParseU64, Lower;
    if v :| FirstTag(proof.tags, "owner", v) && Lower(v) == owner {
      ProofTagIff(proof.tags, "owner", v);
    }
    if v :| FirstTag(proof.tags, "exp", v) && ParseU64(v).Some? && now < ParseU64(v).value <= now + 300 {
      ProofTagIff(proof.tags, "exp", v);
    }
    if VerifyDeviceProof(proof, device, owner, now).None? {
      var o, e := ProofTag(proof.tags, "owner"), ProofTag(proof.tags, "exp");
      ProofTagIff(proof.tags, "owner", o.value);
      ProofTagIff(proof.tags, "exp", e.value);
    }
  }

  /** A number is what its decimal digits say, with or without a plus sign, up to 2^64 - 1. */
  lemma {:induction false} DigitsOfDecimal(n: nat)
    ensures Digits(Decimal(n)) == Some(n)
  {
    if n >= 10 {
      DigitsOfDecimal(n / 10);
      var s := Decimal(n);
      assert s[..|s| - 1] == Decimal(n / 10);
    }
  }

  lemma ParseU64OfDecimal(n: nat)
    ensures ParseU64(Decimal(n)) == ParseU64("+" + Decimal(n)) == if n <= 18446744073709551615 then Some(n) else None
  {
    DigitsOfDecimal(n);
    assert ("+" + Decimal(n))[1..] == Decimal(n);
    assert Decimal(n)[0] in Decimal(n);
  }

  lemma {:induction false} DigitsOnly(s: string)
    ensures Digits(s).Some? <==> forall c <- s :: '0' <= c <= '9'
  {
    if s != [] {
      var front, last := s[..|s| - 1], s[|s| - 1];
      DigitsOnly(front);
      assert s == front + [last];
      assert last in s && forall c <- front :: c in s;
      assert Digits(s).Some? <==> Digits(front).Some? && '0' <= last <= '9';
    }
  }

  lemma ParseU64Refuses(s: string)
    requires s == "" || s == "+" || exists c <- s[1..] :: c < '0' || c > '9'
    ensures ParseU64(s) == None
  {
    DigitsOnly(s);
    if s != "" {
      DigitsOnly(s[1..]);
      assert forall c <- s[1..] :: c in s;
    }
  }

  // -------------------------------------------------------------------------
  // The table and its two writes
  // -------------------------------------------------------------------------

  datatype Row = Row(owner: string, caption: Option<string>, createdAt: int, revoked: bool)

  type Table = map<string, Row>

  function Owners(t: Table): (o: set<string>) {
    set d | d in t :: t[d].owner
  }

  /** `DEVICE_REGISTER_SQL`, and whether a row changed. */
  function Upsert(t: Table, device: string, owner: string, caption: Option<string>, now: int): (r: (Table, bool)) {
    if device !in t then (t[device := Row(owner, caption, now, false)], true)
    else if t[device].owner == owner && !t[device].revoked then (t[device := t[device].(caption := caption)], true)
    else (t, false)
  }

  function RevokeRow(t: Table, device: string, owner: string): (r: (Table, bool)) {
    if device in t && t[device].owner == owner then (t[device := t[device].(revoked := true)], true) else (t, false)
  }

  /** Bindings are for ever: a row keeps its owner and creation time, and stays revoked. */
  predicate Binds(t: Table, t': Table) {
    forall d <- t :: d in t' && t'[d].owner == t[d].owner && t'[d].createdAt == t[d].createdAt &&
                     (t[d].revoked ==> t'[d].revoked)
  }

  // -------------------------------------------------------------------------
  // Handlers, one at a time
  // -------------------------------------------------------------------------

  datatype Reply = Registered | IsPrincipal | TakenOrRevoked | RevokedReply | DeviceNotFound | BadProof(error: ProofError)

  /** `handle_register` past its proof; `listed` is the admin and whitelist part of the principal check. */
  function RegisterOp(t: Table, device: string, owner: string, caption: Option<string>, now: int,
      listed: bool): (r: (Table, Reply)) {
    if listed || device in Owners(t) then (t, IsPrincipal) else
    var (t', changed) := Upsert(t, device, owner, caption, now);
    (t', if changed then Registered else TakenOrRevoked)
  }

  class DeviceRegistry {
    var rows: Table

    constructor ()
      ensures rows == map[]
    {
      rows := map[];
    }

    /** `handle_register` for the NIP-98 author `author` (device key already in lower case). */
    method HandleRegister(device: string, author: string, caption: Option<string>, proof: NostrEvent, now: nat,
                          admins: set<string>, whitelist: set<string>) returns (reply: Reply)
      modifies this
      ensures var refused := VerifyDeviceProof(proof, device, Lower(author), now);
        if refused.Some? then rows == old(rows) && reply == BadProof(refused.value)
        else (rows, reply) == RegisterOp(old(rows), device, author, caption, now, device in admins || device in whitelist)
    {
      var verdict := VerifyDeviceProof(proof, device, Lower(author), now);
      if verdict.Some? {
        return BadProof(verdict.value);
      }
      if device in admins {
        return IsPrincipal;
      }
      if device in whitelist {
        return IsPrincipal;
      }
      if exists d <- rows :: rows[d].owner == device {
        return IsPrincipal;
      }
      if device !in rows {
        rows := rows[device := Row(author, caption, now, false)];
        return Registered;
      }
      if rows[device].owner == author && !rows[device].revoked {
        rows := rows[device := rows[device].(caption := caption)];
        return Registered;
      }
      return TakenOrRevoked;
    }

    method HandleRevoke(device: string, author: string) returns (reply: Reply)
      modifies this
      ensures (rows, reply == RevokedReply) == RevokeRow(old(rows), device, author)
      ensures var owns := device in old(rows) && old(rows)[device].owner == author;
        rows == (if owns then old(rows)[device := old(rows)[device].(revoked := true)] else old(rows)) &&
        reply == if owns then RevokedReply else DeviceNotFound
    {
      if device in rows && rows[device].owner == author {
        rows := rows[device := rows[device].(revoked := true)];
        return RevokedReply;
      }
      return DeviceNotFound;
    }
  }

  /** A registration is written for a device that is no principal, and is new or the same owner's and not revoked. */
  lemma RegistrationWritesIff(t: Table, device: string, owner: string, caption: Option<string>, now: int, listed: bool)
    ensures var (t', reply) := RegisterOp(t, device, owner, caption, now, listed);
      && (reply == IsPrincipal <==> listed || exists d :: d in t && t[d].owner == device)
      && (reply == Registered <==>
        && !listed && (forall d :: d in t ==> t[d].owner != device)
        && (device in t ==> t[device].owner == owner && !t[device].revoked))
      && reply in {IsPrincipal, Registered, TakenOrRevoked}
      && (reply != Registered ==> t' == t)
      && (reply == Registered ==>
        && t'.Keys == t.Keys + {device} && (forall d :: d in t && d != device ==> t'[d] == t[d])
        && t'[device] == Row(owner, caption, if device in t then t[device].createdAt else now, false))
  {
  }

  // -------------------------------------------------------------------------
  // Operations
  // -------------------------------------------------------------------------

  datatype Op =
    | Register(device: string, owner: string, caption: Option<string>, now: int, listed: bool)
    | Revoke(device: string, owner: string)

  function Apply(t: Table, op: Op): (t': Table) {
    match op
    case Register(device, owner, caption, now, listed) => RegisterOp(t, device, owner, caption, now, listed).0
    case Revoke(device, owner) => RevokeRow(t, device, owner).0
  }

  ghost predicate Run(tables: seq<Table>, ops: seq<Op>) {
    |tables| == |ops| + 1 && tables[0] == map[] &&
    forall i :: 0 <= i < |ops| ==> tables[i + 1] == Apply(tables[i], ops[i])
  }

  lemma {:induction false} RevocationStays(tables: seq<Table>, ops: seq<Op>, i: nat, j: nat, device: string)
    requires Run(tables, ops) && i <= j < |tables| && device in tables[i] && tables[i][device].revoked
    ensures device in tables[j] && tables[j][device].revoked && tables[j][device].owner == tables[i][device].owner
    decreases j
  {
    if i < j {
      RevocationStays(tables, ops, i, j - 1, device);
    }
  }

  /**
   * Once its owner has revoked a device it is revoked in every later table, and registering it again is
   * refused, to the owner and to everyone else, and changes nothing.
   */
  lemma RevokedForGood(tables: seq<Table>, ops: seq<Op>, i: nat, j: nat, device: string)
    requires Run(tables, ops) && i < j < |tables| && device in tables[i]
    requires ops[i] == Revoke(device, tables[i][device].owner)
    ensures device in tables[j] && tables[j][device].revoked && tables[j][device].owner == tables[i][device].owner
    ensures forall owner, caption, now ::
      RegisterOp(tables[j], device, owner, caption, now, false) ==
        (tables[j], if device in Owners(tables[j]) then IsPrincipal else TakenOrRevoked)
  {
    assert tables[i + 1][device].revoked;
    RevocationStays(tables, ops, i + 1, j, device);
  }

  // -------------------------------------------------------------------------
  // Owner links
  // -------------------------------------------------------------------------

  /** The links as stored: to the owner in the spelling its NIP-98 token had. */
  function Links(t: Table): (l: map<string, string>)
    ensures l.Keys == t.Keys
  {
    map d | d in t :: t[d].owner
  }

  /** The links between keys: a key is its lower-case spelling, and device keys are stored in it. */
  function KeyLinks(t: Table): (l: map<string, string>)
    ensures l.Keys == t.Keys
  {
    map d | d in t :: Lower(t[d].owner)
  }

  function KeyOwners(t: Table): (o: set<string>) {
    set d | d in t :: Lower(t[d].owner)
  }

  /** Where `n` links lead; a key without a row stays put. */
  function Follow(l: map<string, string>, key: string, n: nat): (k: string)
    decreases n
  {
    if n == 0 || key !in l then key else Follow(l, l[key], n - 1)
  }

  /** The chain is over: no row, or a row that names itself. */
  predicate Ends(l: map<string, string>, key: string) {
    key !in l || l[key] == key
  }

  /** No device is reached again from itself unless its row names itself. */
  ghost predicate Acyclic(l: map<string, string>) {
    forall key, n: nat :: n >= 1 && key in l && Follow(l, key, n) == key ==> l[key] == key
  }

  /** Every chain ends within as many links as there are devices. */
  ghost predicate ChainsEnd(l: map<string, string>) {
    forall key :: ChainEnds(l, key)
  }

  ghost predicate ChainEnds(l: map<string, string>, key: string) {
    exists n: nat :: n <= |l| && Ends(l, Follow(l, key, n))
  }

  /** Devices ranked so that every link but a self-link goes strictly down. */
  ghost predicate Ranked(l: map<string, string>, rank: map<string, nat>) {
    rank.Keys == l.Keys &&
    forall d <- l :: rank[d] < |l| && (l[d] in l && l[d] != d ==> rank[l[d]] < rank[d])
  }

  /** A new device that owns nothing yet goes on top. */
  lemma RankOnTop(l: map<string, string>, device: string, owner: string, rank: map<string, nat>)
    returns (rank': map<string, nat>)
    requires Ranked(l, rank) && device !in l && device !in l.Values
    ensures Ranked(l[device := owner], rank')
  {
    rank' := rank[device := |l|];
    assert l[device := owner].Keys == l.Keys + {device};
    assert |l[device := owner]| == |l.Keys + {device}| == |l| + 1;
    forall d | d in l ensures l[d] != device {
      assert l[d] in l.Values;
    }
  }

  lemma {:induction false} RankedChainEnds(l: map<string, string>, rank: map<string, nat>, key: string) returns (n: nat)
    requires Ranked(l, rank)
    ensures n <= (if key in l then rank[key] + 1 else 0) && Ends(l, Follow(l, key, n))
    decreases if key in l then rank[key] + 1 else 0
  {
    if Ends(l, key) {
      n := 0;
    } else {
      n := RankedChainEnds(l, rank, l[key]);
      n := n + 1;
    }
  }

  lemma {:induction false} RankFalls(l: map<string, string>, rank: map<string, nat>, key: string, n: nat)
    requires Ranked(l, rank) && key in l && n >= 1 && !Ends(l, key) && Follow(l, key, n) in l
    ensures rank[Follow(l, key, n)] < rank[key]
    decreases n
  {
    var owner := l[key];
    if n > 1 && owner in l && l[owner] != owner {
      RankFalls(l, rank, owner, n - 1);
    } else if n > 1 && owner in l {
      SelfLinkStays(l, owner, n - 1);
    }
  }

  lemma {:induction false} SelfLinkStays(l: map<string, string>, key: string, n: nat)
    requires key in l && l[key] == key
    ensures Follow(l, key, n) == key
  {
    if n > 0 {
      SelfLinkStays(l, key, n - 1);
    }
  }

  lemma RankedIsAcyclic(l: map<string, string>, rank: map<string, nat>)
    requires Ranked(l, rank)
    ensures Acyclic(l) && ChainsEnd(l)
  {
    forall key
      ensures ChainEnds(l, key)
    {
      var n := RankedChainEnds(l, rank, key);
    }
    forall key, n: nat | n >= 1 && key in l && Follow(l, key, n) == key
      ensures l[key] == key
    {
      if l[key] != key {
        RankFalls(l, rank, key, n);
      }
    }
  }

  // -------------------------------------------------------------------------
  // The link that closes a cycle
  // -------------------------------------------------------------------------

  lemma {:induction false} FollowOn(l: map<string, string>, key: string, m: nat, n: nat)
    ensures Follow(l, key, m + n) == Follow(l, Follow(l, key, m), n)
    decreases m
  {
    if m == 0 {
    } else if key !in l {
      StaysPut(l, key, n);
    } else {
      FollowOn(l, l[key], m - 1, n);
    }
  }

  lemma StaysPut(l: map<string, string>, key: string, n: nat)
    requires key !in l
    ensures Follow(l, key, n) == key
  {
  }

  /** Until it reaches the new device, a chain goes the way it went before. */
  lemma {:induction false} SameUntil(l: map<string, string>, device: string, owner: string, key: string, n: nat)
    requires device !in l && forall m: nat :: m < n ==> Follow(l, key, m) != device
    ensures Follow(l[device := owner], key, n) == Follow(l, key, n)
    decreases n
  {
    if n > 0 {
      assert Follow(l, key, 0) == key;
      if key in l {
        forall m: nat | m < n - 1
          ensures Follow(l, l[key], m) != device
        {
          assert Follow(l, key, m + 1) == Follow(l, l[key], m);
        }
        SameUntil(l, device, owner, l[key], n - 1);
      }
    }
  }

  lemma {:induction false} FirstVisit(l: map<string, string>, key: string, device: string, n: nat) returns (m: nat)
    requires Follow(l, key, n) == device
    ensures m <= n && Follow(l, key, m) == device && forall k: nat :: k < m ==> Follow(l, key, k) != device
  {
    m := 0;
    while Follow(l, key, m) != device
      invariant m <= n && forall k: nat :: k < m ==> Follow(l, key, k) != device
      decreases n - m
    {
      m := m + 1;
    }
  }

  ghost predicate Reaches(l: map<string, string>, key: string, device: string) {
    exists n: nat :: Follow(l, key, n) == device
  }

  lemma ReachingOwnerCloses(l: map<string, string>, device: string, owner: string)
    requires device !in l && owner != device && Reaches(l, owner, device)
    ensures !Acyclic(l[device := owner])
  {
    var n: nat :| Follow(l, owner, n) == device;
    var m := FirstVisit(l, owner, device, n);
    SameUntil(l, device, owner, owner, m);
    assert Follow(l[device := owner], device, m + 1) == device;
  }

  lemma SelfLinkKeepsAcyclic(l: map<string, string>, device: string)
    requires device !in l && Acyclic(l)
    ensures Acyclic(l[device := device])
  {
    var l' := l[device := device];
    forall key, n: nat | n >= 1 && key in l' && Follow(l', key, n) == key
      ensures l'[key] == key
    {
      SameWithSelfLink(l, device, key, n);
    }
  }

  lemma {:induction false} SameWithSelfLink(l: map<string, string>, device: string, key: string, n: nat)
    requires device !in l
    ensures Follow(l[device := device], key, n) == Follow(l, key, n)
    decreases n
  {
    if n > 0 {
      if key == device {
        SelfLinkStays(l[device := device], device, n);
      } else if key in l {
        SameWithSelfLink(l, device, l[key], n - 1);
      }
    }
  }

  lemma UnreachedOwnerKeepsAcyclic(l: map<string, string>, device: string, owner: string)
    requires device !in l && Acyclic(l) && !Reaches(l, owner, device)
    ensures Acyclic(l[device := owner])
  {
    var l' := l[device := owner];
    forall key, n: nat | n >= 1 && key in l' && Follow(l', key, n) == key
      ensures l'[key] == key
    {
      if key == device {
        SameUntil(l, device, owner, owner, n - 1);
      } else if Reaches(l, key, device) {
        // The chain meets the device, so from there it is the owner's and cannot return.
        var k: nat :| Follow(l, key, k) == device;
        var m := FirstVisit(l, key, device, k);
        ReturnsThroughOwner(l, device, owner, key, m, n);
      } else {
        SameUntil(l, device, owner, key, n);
      }
    }
  }

  lemma ReturnsThroughOwner(l: map<string, string>, device: string, owner: string, key: string, m: nat, n: nat)
    requires device !in l && key != device && n >= 1 && Follow(l[device := owner], key, n) == key
    requires Follow(l, key, m) == device && forall k: nat :: k < m ==> Follow(l, key, k) != device
    ensures Reaches(l, owner, device) || l[device := owner][key] == key
  {
    var l' := l[device := owner];
    SameUntil(l, device, owner, key, m);
    if n <= m {
      // Back at the key before meeting the device: then it would never meet it.
      SameUntil(l, device, owner, key, n);
      var r := RoundAgain(l, key, n, m);
    } else {
      FollowOn(l', key, m, n - m);
      assert Follow(l', device, n - m) == Follow(l', owner, n - m - 1) == key;
      if !Reaches(l, owner, device) {
        SameUntil(l, device, owner, owner, n - m - 1);
        FollowOn(l, owner, n - m - 1, m);
      }
    }
  }

  /** A key that comes back to itself after n links has seen everything it ever sees within n. */
  lemma {:induction false} RoundAgain(l: map<string, string>, key: string, n: nat, m: nat) returns (r: nat)
    requires n >= 1 && Follow(l, key, n) == key
    ensures r < n && Follow(l, key, r) == Follow(l, key, m)
    decreases m
  {
    if m < n {
      r := m;
    } else {
      FollowOn(l, key, n, m - n);
      r := RoundAgain(l, key, n, m - n);
    }
  }

  /** A new link makes a cycle exactly when its owner is another key whose chain leads to the device. */
  lemma NewLinkClosesCycleIff(l: map<string, string>, device: string, owner: string)
    requires device !in l && Acyclic(l)
    ensures !Acyclic(l[device := owner]) <==> owner != device && Reaches(l, owner, device)
  {
    if owner == device {
      SelfLinkKeepsAcyclic(l, device);
    } else if Reaches(l, owner, device) {
      ReachingOwnerCloses(l, device, owner);
    } else {
      UnreachedOwnerKeepsAcyclic(l, device, owner);
    }
  }

  /** Links are never taken away, so a cycle stays. */
  lemma CycleStays(l: map<string, string>, device: string, owner: string)
    requires device !in l && !Acyclic(l)
    ensures !Acyclic(l[device := owner])
  {
    var key, n: nat :| n >= 1 && key in l && Follow(l, key, n) == key && l[key] != key;
    forall m: nat | m < n
      ensures Follow(l, key, m) != device
    {
      FollowOn(l, key, m, n - m);
      StaysPut(l, device, n - m);
    }
    SameUntil(l, device, owner, key, n);
    assert l[device := owner][key] != key;
  }

  // -------------------------------------------------------------------------
  // Registrations one at a time
  // -------------------------------------------------------------------------

  /** The operation that adds a row, and only that one, adds a link. */
  predicate Adds(t: Table, op: Op) {
    op.Register? && !op.listed && op.device !in Owners(t) && op.device !in t
  }

  lemma OpLinks(t: Table, op: Op)
    ensures var t' := Apply(t, op);
      if Adds(t, op) then
        Links(t') == Links(t)[op.device := op.owner] && KeyLinks(t') == KeyLinks(t)[op.device := Lower(op.owner)]
      else Links(t') == Links(t) && KeyLinks(t') == KeyLinks(t)
  {
    hide Links, KeyLinks;
    if Adds(t, op) {
      RowAdded(t, op.device, Row(op.owner, op.caption, op.now, false));
    } else {
      SameLinks(t, Apply(t, op));
    }
  }

  lemma RowAdded(t: Table, device: string, row: Row)
    requires device !in t
    ensures Links(t[device := row]) == Links(t)[device := row.owner]
    ensures KeyLinks(t[device := row]) == KeyLinks(t)[device := Lower(row.owner)]
  {
    hide Lower;
  }

  lemma SameLinks(t: Table, t': Table)
    requires t'.Keys == t.Keys && forall d <- t :: t'[d].owner == t[d].owner
    ensures Links(t') == Links(t) && KeyLinks(t') == KeyLinks(t)
  {
    hide Lower;
  }

  lemma {:induction false} RunRanked(tables: seq<Table>, ops: seq<Op>, i: nat) returns (rank: map<string, nat>)
    requires Run(tables, ops) && i < |tables|
    ensures Ranked(Links(tables[i]), rank)
  {
    if i == 0 {
      rank := map[];
    } else {
      rank := RunRanked(tables, ops, i - 1);
      var t, op := tables[i - 1], ops[i - 1];
      OpLinks(t, op);
      if Adds(t, op) {
        OwnersAreValues(t);
        rank := RankOnTop(Links(t), op.device, op.owner, rank);
      }
    }
  }

  lemma OwnersAreValues(t: Table)
    ensures Links(t).Values == Owners(t) && KeyLinks(t).Values == KeyOwners(t)
  {
    forall o | o in Owners(t) ensures o in Links(t).Values {
      var d :| d in t && t[d].owner == o;
      assert Links(t)[d] == o;
    }
    forall o | o in KeyOwners(t) ensures o in KeyLinks(t).Values {
      var d :| d in t && Lower(t[d].owner) == o;
      assert KeyLinks(t)[d] == o;
    }
  }

  /**
   * In every reachable table, every chain of stored owners ends within as many links as there are
   * devices, and no device is reached again from itself unless its row names itself.
   */
  lemma OwnershipIsAcyclic(tables: seq<Table>, ops: seq<Op>, i: nat)
    requires Run(tables, ops) && i < |tables|
    ensures Acyclic(Links(tables[i])) && ChainsEnd(Links(tables[i]))
  {
    var rank := RunRanked(tables, ops, i);
    RankedIsAcyclic(Links(tables[i]), rank);
  }

  /** A principal is never demoted: a stored owner that is not a device does not become one. */
  lemma {:induction false} OwnersStayPrincipals(tables: seq<Table>, ops: seq<Op>, i: nat, j: nat, owner: string)
    requires Run(tables, ops) && i <= j < |tables| && owner in Owners(tables[i]) && owner !in tables[i]
    ensures owner in Owners(tables[j]) && owner !in tables[j]
    decreases j
  {
    if i < j {
      OwnersStayPrincipals(tables, ops, i, j - 1, owner);
      var d :| d in tables[j - 1] && tables[j - 1][d].owner == owner;
      assert d in tables[j] && tables[j][d].owner == owner;
    }
  }

  // -------------------------------------------------------------------------
  // The same for keys, whatever their spelling
  // -------------------------------------------------------------------------

  /** Every author so far authenticated in lower case. */
  predicate LowerAuthors(ops: seq<Op>) {
    forall op <- ops :: op.Register? ==> op.owner == Lower(op.owner)
  }

  lemma {:induction false} OwnersAreLower(tables: seq<Table>, ops: seq<Op>, i: nat)
    requires Run(tables, ops) && i < |tables| && LowerAuthors(ops[..i])
    ensures KeyLinks(tables[i]) == Links(tables[i]) && KeyOwners(tables[i]) == Owners(tables[i])
  {
    if i > 0 {
      assert ops[..i] == ops[..i - 1] + [ops[i - 1]];
      OwnersAreLower(tables, ops, i - 1);
      OpLinks(tables[i - 1], ops[i - 1]);
    }
    OwnersAreValues(tables[i]);
  }

  /** While authors authenticate in lower case, ownership is acyclic between keys. */
  lemma KeyOwnershipIsAcyclic(tables: seq<Table>, ops: seq<Op>, i: nat)
    requires Run(tables, ops) && i < |tables| && LowerAuthors(ops[..i])
    ensures Acyclic(KeyLinks(tables[i])) && ChainsEnd(KeyLinks(tables[i]))
  {
    OwnersAreLower(tables, ops, i);
    OwnershipIsAcyclic(tables, ops, i);
  }

  /** And a key that owns a device and is none stays so. */
  lemma KeyOwnersStayPrincipals(tables: seq<Table>, ops: seq<Op>, i: nat, j: nat, key: string)
    requires Run(tables, ops) && i <= j < |tables| && LowerAuthors(ops[..j])
    requires key in KeyOwners(tables[i]) && key !in tables[i]
    ensures key in KeyOwners(tables[j]) && key !in tables[j]
  {
    assert forall op <- ops[..i] :: op in ops[..j];
    OwnersAreLower(tables, ops, i);
    OwnersAreLower(tables, ops, j);
    OwnersStayPrincipals(tables, ops, i, j, key);
  }

  /**
   * The owner probe compares the device with the spellings on record. So an operation closes a cycle of
   * keys exactly when it adds a link to another key that leads to the device, and then the device owns
   * something under capitals only.
   */
  lemma KeyCycleIff(t: Table, op: Op)
    requires Acyclic(KeyLinks(t))
    ensures !Acyclic(KeyLinks(Apply(t, op))) <==> ClosesKeyCycle(t, op)
    ensures !Acyclic(KeyLinks(Apply(t, op))) ==> op.device in KeyOwners(t) && op.device !in Owners(t)
  {
    hide Acyclic, Reaches;
    OpLinks(t, op);
    if Adds(t, op) {
      NewLinkClosesCycleIff(KeyLinks(t), op.device, Lower(op.owner));
      if Reaches(KeyLinks(t), Lower(op.owner), op.device) && Lower(op.owner) != op.device {
        ReachedIsOwned(KeyLinks(t), Lower(op.owner), op.device);
        OwnersAreValues(t);
      }
    }
  }

  ghost predicate ClosesKeyCycle(t: Table, op: Op) {
    Adds(t, op) && Lower(op.owner) != op.device && Reaches(KeyLinks(t), Lower(op.owner), op.device)
  }

  /** So over any run: ownership between keys is acyclic exactly when no operation so far closed a cycle. */
  lemma {:induction false} KeysAreAcyclicIff(tables: seq<Table>, ops: seq<Op>, i: nat)
    requires Run(tables, ops) && i < |tables|
    ensures Acyclic(KeyLinks(tables[i])) <==> forall k :: 0 <= k < i ==> !ClosesKeyCycle(tables[k], ops[k])
  {
    hide Apply, ClosesKeyCycle, Acyclic, KeyLinks, Adds;
    if i == 0 {
      NothingAcyclic();
    } else {
      KeysAreAcyclicIff(tables, ops, i - 1);
      var t, op := tables[i - 1], ops[i - 1];
      if Acyclic(KeyLinks(t)) {
        KeyCycleIff(t, op);
      } else {
        OpLinks(t, op);
        if Adds(t, op) {
          AddsNewKey(t, op);
          CycleStays(KeyLinks(t), op.device, Lower(op.owner));
        }
      }
    }
  }

  lemma AddsNewKey(t: Table, op: Op)
    requires Adds(t, op)
    ensures op.device !in KeyLinks(t)
  {
  }

  lemma NothingAcyclic()
    ensures Acyclic(KeyLinks(map[]))
  {
  }

  lemma ReachedIsOwned(l: map<string, string>, key: string, device: string)
    requires Reaches(l, key, device) && key != device
    ensures device in l.Values
  {
    var n: nat :| Follow(l, key, n) == device;
    LandsOnOwner(l, key, n);
  }

  lemma {:induction false} LandsOnOwner(l: map<string, string>, key: string, n: nat)
    ensures Follow(l, key, n) == key || Follow(l, key, n) in l.Values
    decreases n
  {
    if n > 0 && key in l {
      LandsOnOwner(l, l[key], n - 1);
    }
  }

  /** And it makes a device of a key that owns one exactly when no row spells that key in lower case. */
  lemma DemotionIff(t: Table, op: Op, key: string)
    requires key in KeyOwners(t) && key !in t
    ensures key in Apply(t, op) <==> op.Register? && op.device == key && !op.listed && key !in Owners(t)
  {
  }

  /**
   * That happens, one registration at a time: a key that authenticates in capitals links c, then c's own
   * key in capitals links the first. Each then owns the other, and the first owner has become a device.
   */
  lemma CapitalsMakeACycle(a: string, capitalA: string, c: string, capitalC: string, now: int)
    requires Lower(capitalA) == a != capitalA && Lower(capitalC) == c != capitalC && a != c
    ensures var ops := [Register(c, capitalA, None, now, false), Register(a, capitalC, None, now, false)];
      var first := Apply(map[], ops[0]);
      var second := Apply(first, ops[1]);
      Run([map[], first, second], ops) &&
      a in KeyOwners(first) && a !in first && a in second &&
      Follow(KeyLinks(second), a, 1) == c && Follow(KeyLinks(second), c, 1) == a && !Acyclic(KeyLinks(second))
  {
    hide Lower, ChainsEnd, Reaches;
    var ops := [Register(c, capitalA, None, now, false), Register(a, capitalC, None, now, false)];
    var first := map[c := Row(capitalA, None, now, false)];
    assert Owners(map[]) == {};
    assert Apply(map[], ops[0]) == first;
    var second := first[a := Row(capitalC, None, now, false)];
    assert Apply(first, ops[1]) == second;
    var l := KeyLinks(second);
    assert l[a] == c && l[c] == a;
    TwoRound(l, a, c);
  }

  // -------------------------------------------------------------------------
  // Handlers interleaved statement by statement
  // -------------------------------------------------------------------------

  /** A registration, by the statement it runs next: the owner probe, then the upsert. */
  datatype Handler =
    | Probing(device: string, owner: string, caption: Option<string>, now: int)
    | Writing(device: string, owner: string, caption: Option<string>, now: int)
    | Revoking(device: string, owner: string)
    | Answered(reply: Reply)

  datatype State = State(table: Table, handlers: map<nat, Handler>)

  /** `listed` as above; `seen` is false when the probe fails, which the handler reads as "no". */
  datatype Event =
    | Arrive(h: nat, request: Handler)
    | Probe(h: nat, listed: bool, seen: bool)
    | Write(h: nat)

  predicate Enabled(s: State, e: Event) {
    match e
    case Arrive(h, request) => h !in s.handlers && (request.Probing? || request.Revoking?)
    case Probe(h, _, _) => h in s.handlers && s.handlers[h].Probing?
    case Write(h) => h in s.handlers && (s.handlers[h].Writing? || s.handlers[h].Revoking?)
  }

  function Next(s: State, e: Event): (s': State)
    requires Enabled(s, e)
  {
    match e
    case Arrive(h, request) => s.(handlers := s.handlers[h := request])
    case Probe(h, listed, seen) =>
      var Probing(device, owner, caption, now) := s.handlers[h];
      s.(handlers := s.handlers[h :=
        if listed || (seen && device in Owners(s.table)) then Answered(IsPrincipal)
        else Writing(device, owner, caption, now)])
    case Write(h) =>
      match s.handlers[h]
      case Writing(device, owner, caption, now) =>
        var (t, changed) := Upsert(s.table, device, owner, caption, now);
        State(t, s.handlers[h := Answered(if changed then Registered else TakenOrRevoked)])
      case Revoking(device, owner) =>
        var (t, changed) := RevokeRow(s.table, device, owner);
        State(t, s.handlers[h := Answered(if changed then RevokedReply else DeviceNotFound)])
  }

  ghost predicate Interleaved(states: seq<State>, events: seq<Event>) {
    |states| == |events| + 1 && states[0] == State(map[], map[]) &&
    forall i :: 0 <= i < |events| ==> Enabled(states[i], events[i]) && states[i + 1] == Next(states[i], events[i])
  }

  /** Whatever interleaves and whatever probe fails, bindings and revocations are permanent. */
  lemma {:induction false} BindingsArePermanent(states: seq<State>, events: seq<Event>, i: nat, j: nat)
    requires Interleaved(states, events) && i <= j < |states|
    ensures Binds(states[i].table, states[j].table)
    ensures forall d <- states[i].table :: var (row, later) := (states[i].table[d], states[j].table);
      d in later && later[d].owner == row.owner && later[d].createdAt == row.createdAt && (row.revoked ==> later[d].revoked)
    decreases j
  {
    hide Next, Enabled;
    if i < j {
      BindingsArePermanent(states, events, i, j - 1);
      StepBinds(states[j - 1], events[j - 1]);
    }
  }

  lemma StepBinds(s: State, e: Event)
    requires Enabled(s, e)
    ensures Binds(s.table, Next(s, e).table)
  {
  }

  /**
   * Interleaved too: a revocation's write on a row of its owner leaves it revoked in every later state, and
   * then a registration's write changes nothing and says so.
   */
  lemma RevocationsLast(states: seq<State>, events: seq<Event>, i: nat, j: nat)
    requires Interleaved(states, events) && i < j < |states| && events[i].Write?
    requires var x := states[i].handlers[events[i].h];
      x.Revoking? && x.device in states[i].table && states[i].table[x.device].owner == x.owner
    ensures var x := states[i].handlers[events[i].h];
      && x.device in states[j].table && states[j].table[x.device].revoked
      && states[i + 1].handlers[events[i].h] == Answered(RevokedReply)
      && forall h :: Enabled(states[j], Write(h)) && states[j].handlers[h].Writing? && states[j].handlers[h].device == x.device ==>
        Next(states[j], Write(h)) == states[j].(handlers := states[j].handlers[h := Answered(TakenOrRevoked)])
  {
    BindingsArePermanent(states, events, i + 1, j);
  }

  /** A probe and its write with nothing between them are one `RegisterOp`. */
  lemma ProbeThenWriteIsAtomic(s: State, h: nat, listed: bool)
    requires Enabled(s, Probe(h, listed, true))
    ensures var Probing(device, owner, caption, now) := s.handlers[h];
      var probed := Next(s, Probe(h, listed, true));
      var (t, reply) := RegisterOp(s.table, device, owner, caption, now, listed);
      if probed.handlers[h].Answered? then (probed.table, probed.handlers[h].reply) == (t, reply)
      else Enabled(probed, Write(h)) &&
           (Next(probed, Write(h)).table, Next(probed, Write(h)).handlers[h]) == (t, Answered(reply))
  {
  }

  // -------------------------------------------------------------------------
  // Acyclicity at single-statement interleaving
  // -------------------------------------------------------------------------

  /** The write that adds a row. */
  predicate WriteAdds(s: State, e: Event)
    requires Enabled(s, e)
  {
    e.Write? && s.handlers[e.h].Writing? && s.handlers[e.h].device !in s.table
  }

  lemma StepLinks(s: State, e: Event)
    requires Enabled(s, e)
    ensures var t' := Next(s, e).table;
      if WriteAdds(s, e) then
        var x := s.handlers[e.h];
        Links(t') == Links(s.table)[x.device := x.owner] && KeyLinks(t') == KeyLinks(s.table)[x.device := Lower(x.owner)]
      else Links(t') == Links(s.table) && KeyLinks(t') == KeyLinks(s.table)
  {
    hide Links, KeyLinks;
    if WriteAdds(s, e) {
      var x := s.handlers[e.h];
      RowAdded(s.table, x.device, Row(x.owner, x.caption, x.now, false));
    } else {
      SameLinks(s.table, Next(s, e).table);
    }
  }

  /** No added device owns anything, in any spelling, at the moment its row is written. */
  predicate WritesOnTop(s: State, e: Event)
    requires Enabled(s, e)
  {
    WriteAdds(s, e) ==> s.handlers[e.h].device !in KeyOwners(s.table)
  }

  lemma {:induction false} InterleavedRanked(states: seq<State>, events: seq<Event>, i: nat)
      returns (rank: map<string, nat>)
    requires Interleaved(states, events) && i < |states|
    requires forall k :: 0 <= k < i ==> WritesOnTop(states[k], events[k])
    ensures Ranked(KeyLinks(states[i].table), rank)
  {
    hide Next, Enabled, Ranked, WriteAdds;
    if i == 0 {
      rank := map[];
      NothingRanked();
    } else {
      rank := InterleavedRanked(states, events, i - 1);
      var s, e := states[i - 1], events[i - 1];
      StepLinks(s, e);
      if WriteAdds(s, e) {
        var x := WriterOf(s, e);
        OwnersAreValues(s.table);
        rank := RankOnTop(KeyLinks(s.table), x.device, Lower(x.owner), rank);
      }
    }
  }

  lemma NothingRanked()
    ensures Ranked(KeyLinks(map[]), map[])
  {
  }

  lemma WriterOf(s: State, e: Event) returns (x: Handler)
    requires Enabled(s, e) && WriteAdds(s, e)
    ensures e.Write? && e.h in s.handlers && x == s.handlers[e.h] && x.Writing? && x.device !in s.table
  {
    x := s.handlers[e.h];
  }

  /**
   * Whatever interleaves, ownership between keys stays acyclic as long as no row is written for a device
   * that owns another at that moment.
   */
  lemma InterleavedKeysStayAcyclic(states: seq<State>, events: seq<Event>, i: nat)
    requires Interleaved(states, events) && i < |states|
    requires forall k :: 0 <= k < i ==> WritesOnTop(states[k], events[k])
    ensures Acyclic(KeyLinks(states[i].table)) && ChainsEnd(KeyLinks(states[i].table))
  {
    var rank := InterleavedRanked(states, events, i);
    RankedIsAcyclic(KeyLinks(states[i].table), rank);
  }

  /** A single statement closes a cycle exactly when it writes a link to another key that leads to the device. */
  lemma StatementClosesCycleIff(s: State, e: Event)
    requires Enabled(s, e) && Acyclic(KeyLinks(s.table))
    ensures !Acyclic(KeyLinks(Next(s, e).table)) <==> ClosesCycle(s, e)
  {
    hide Next, Acyclic, Reaches;
    StepLinks(s, e);
    if WriteAdds(s, e) {
      var x := s.handlers[e.h];
      NewLinkClosesCycleIff(KeyLinks(s.table), x.device, Lower(x.owner));
    }
  }

  ghost predicate ClosesCycle(s: State, e: Event)
    requires Enabled(s, e)
  {
    WriteAdds(s, e) && Lower(s.handlers[e.h].owner) != s.handlers[e.h].device &&
    Reaches(KeyLinks(s.table), Lower(s.handlers[e.h].owner), s.handlers[e.h].device)
  }

  /** And over any interleaving ownership between keys is acyclic exactly when no statement so far did. */
  lemma {:induction false} InterleavedKeysAreAcyclicIff(states: seq<State>, events: seq<Event>, i: nat)
    requires Interleaved(states, events) && i < |states|
    ensures Acyclic(KeyLinks(states[i].table)) <==> forall k :: 0 <= k < i ==> !ClosesCycle(states[k], events[k])
  {
    hide Next, Enabled, ClosesCycle, Acyclic, KeyLinks, WriteAdds;
    if i == 0 {
      NothingAcyclic();
    } else {
      InterleavedKeysAreAcyclicIff(states, events, i - 1);
      var s, e := states[i - 1], events[i - 1];
      if Acyclic(KeyLinks(s.table)) {
        StatementClosesCycleIff(s, e);
      } else {
        StepLinks(s, e);
        if WriteAdds(s, e) {
          var x := WriterOf(s, e);
          assert x.device !in KeyLinks(s.table);
          CycleStays(KeyLinks(s.table), x.device, Lower(x.owner));
        }
      }
    }
  }

  /**
   * Such a write is reachable: two registrations that each make the other's owner a device both pass
   * their probe before either writes, and the two keys then own each other.
   */
  lemma InterleavedProbesMakeACycle(a: string, b: string, now: int) returns (states: seq<State>, events: seq<Event>)
    requires a != b
    ensures Interleaved(states, events) && |states| == 7
    ensures var t := states[6].table;
      a in t && b in t && t[a].owner == b && t[b].owner == a && Follow(Links(t), a, 2) == a
  {
    hide Takes, Interleaved, Last, Follow;
    var pa, pb := Probing(a, b, None, now), Probing(b, a, None, now);
    var wa, wb := Writing(a, b, None, now), Writing(b, a, None, now);
    var none, one := map[], map[a := Row(b, None, now, false)];
    RaceProbes(pa, pb, wa, wb);
    RaceWrites(wa, wb);
    states, events := [State(none, map[])], [];
    NothingYet();
    states, events := Extended(states, events, Arrive(1, pa), State(none, map[1 := pa]));
    states, events := Extended(states, events, Arrive(2, pb), State(none, map[1 := pa, 2 := pb]));
    states, events := Extended(states, events, Probe(1, false, true), State(none, map[1 := wa, 2 := pb]));
    states, events := Extended(states, events, Probe(2, false, true), State(none, map[1 := wa, 2 := wb]));
    states, events := Extended(states, events, Write(1), State(one, map[1 := Answered(Registered), 2 := wb]));
    states, events := Extended(states, events, Write(2),
      State(one[b := Row(a, None, now, false)], map[1 := Answered(Registered), 2 := Answered(Registered)]));
    TwoRound(Links(states[6].table), a, b);
  }

  ghost predicate Takes(s: State, e: Event, s': State) {
    Enabled(s, e) && Next(s, e) == s'
  }

  function Last(states: seq<State>): State
    requires states != []
  {
    states[|states| - 1]
  }

  lemma NothingYet()
    ensures Interleaved([State(map[], map[])], []) && Last([State(map[], map[])]) == State(map[], map[])
  {
  }

  lemma Extended(states: seq<State>, events: seq<Event>, e: Event, s: State) returns (states': seq<State>,
      events': seq<Event>)
    requires Interleaved(states, events) && |states| > 0 && Takes(Last(states), e, s)
    ensures states' == states + [s] && events' == events + [e] && Interleaved(states', events') && Last(states') == s
  {
    hide Next, Enabled;
    states', events' := states + [s], events + [e];
  }

  lemma RaceProbes(pa: Handler, pb: Handler, wa: Handler, wb: Handler)
    requires pa.Probing? && pb.Probing?
    requires wa == Writing(pa.device, pa.owner, pa.caption, pa.now) && wb == Writing(pb.device, pb.owner, pb.caption, pb.now)
    ensures Takes(State(map[], map[]), Arrive(1, pa), State(map[], map[1 := pa]))
    ensures Takes(State(map[], map[1 := pa]), Arrive(2, pb), State(map[], map[1 := pa, 2 := pb]))
    ensures Takes(State(map[], map[1 := pa, 2 := pb]), Probe(1, false, true), State(map[], map[1 := wa, 2 := pb]))
    ensures Takes(State(map[], map[1 := wa, 2 := pb]), Probe(2, false, true), State(map[], map[1 := wa, 2 := wb]))
  {
    assert Owners(map[]) == {};
  }

  lemma RaceWrites(wa: Handler, wb: Handler)
    requires wa.Writing? && wb.Writing? && wa.device != wb.device
    ensures var one := map[wa.device := Row(wa.owner, wa.caption, wa.now, false)];
      && Takes(State(map[], map[1 := wa, 2 := wb]), Write(1), State(one, map[1 := Answered(Registered), 2 := wb]))
      && Takes(State(one, map[1 := Answered(Registered), 2 := wb]), Write(2),
           State(one[wb.device := Row(wb.owner, wb.caption, wb.now, false)], map[1 := Answered(Registered), 2 := Answered(Registered)]))
  {
  }

  lemma TwoRound(l: map<string, string>, a: string, b: string)
    requires a in l && b in l && l[a] == b && l[b] == a
    ensures Follow(l, a, 1) == b && Follow(l, b, 1) == a && Follow(l, a, 2) == a
  {
    assert Follow(l, b, 1) == Follow(l, a, 0) == a && Follow(l, a, 1) == Follow(l, b, 0) == b;
  }

  /** And the exception is real: a key that is no principal yet can be linked to itself. */
  lemma SelfLinkIsPossible(key: string, now: int)
    ensures var t := Apply(map[], Register(key, key, None, now, false));
      key in t && t[key].owner == key
  {
  }
}
