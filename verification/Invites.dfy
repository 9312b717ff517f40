/**
 * Invite redemption and revocation as a concurrent protocol (`invites.rs`): every SQL statement is one
 * atomic step, every handler a small program, and any number of handlers interleave.
 */
module Invites {
  import opened Results

  // -------------------------------------------------------------------------
  // Tables and statements
  // -------------------------------------------------------------------------

  datatype Invite = Invite(
    code: string, issuedBy: string, maxUses: int, uses: int, expiresAt: int, revokedAt: Option<int>)

  datatype Db = Db(
    invites: map<string, Invite>,
    redemptions: set<(string, string)>,  // (invitation id, pubkey), the primary key
    members: map<string, string>)        // pubkey -> joined_via_invite_id

  datatype Standing = Revoked | Expired | Used | Active

  function Classify(row: Invite, now: int): (r: Standing) {
    if row.revokedAt.Some? then Revoked
    else if row.expiresAt <= now then Expired
    else if row.uses >= row.maxUses then Used
    else Active
  }

  /** The guarded increment: the new table, and whether a row changed. */
  function IncrementUses(db: Db, id: string, now: int): (r: (Db, bool)) {
    if id in db.invites && db.invites[id].uses < db.invites[id].maxUses &&
       db.invites[id].revokedAt.None? && db.invites[id].expiresAt > now
    then (db.(invites := db.invites[id := db.invites[id].(uses := db.invites[id].uses + 1)]), true)
    else (db, false)
  }

  /** The redemption insert; a primary-key conflict leaves the table as it was. */
  function InsertRedemption(db: Db, id: string, pubkey: string): (r: Db) {
    db.(redemptions := db.redemptions + {(id, pubkey)})
  }

  function UpsertMember(db: Db, id: string, pubkey: string): (r: Db) {
    db.(members := db.members[pubkey := id])
  }

  /** `UPDATE invitations SET revoked_at = now WHERE id = key`. */
  function SetRevoked(db: Db, key: string, now: int): (r: Db) {
    if key in db.invites
    then db.(invites := db.invites[key := db.invites[key].(revokedAt := Some(now))])
    else db
  }

  // -------------------------------------------------------------------------
  // Handlers
  // -------------------------------------------------------------------------

  datatype Outcome =
    | NotFound | Refused(standing: Standing) | OwnInvite | AlreadyRedeemed | Failed
    | Redeemed(id: string)
    | NotAuthorised | AlreadyRevoked | RevokedNow(id: string)

  /**
   * A handler, by the statement it runs next. `handle_redeem` and `consume_for_registration` run the
   * same statements, so both are `Redeeming`.
   */
  datatype Handler =
    | Redeeming(code: string, pubkey: string)
    | Loaded(id: string, pubkey: string, now: int)
    | Cleared(id: string, pubkey: string, now: int)
    | Spent(id: string, pubkey: string)
    | Recorded(id: string, pubkey: string)
    | Revoking(key: string, caller: string)
    | RevokeLoaded(key: string, id: string, now: int)
    | Finished(outcome: Outcome)

  /** `lost` counts, per invite, the uses that left no redemption row of their own (a history variable). */
  datatype State = State(db: Db, handlers: map<nat, Handler>, lost: map<string, nat>)

  /**
   * `ok` is false when a statement fails; `found` is the row a SELECT returns. A SELECT that fails is read as
   * "no such invite" and only ends its handler, so it has no event of its own.
   */
  datatype Event =
    | Create(id: string, invite: Invite)
    | Arrive(h: nat, request: Handler)
    | Load(h: nat, found: Option<string>, now: int)
    | Count(h: nat, ok: bool)
    | Increment(h: nat, ok: bool)
    | Record(h: nat, ok: bool)
    | Enrol(h: nat, ok: bool)
    | RevokeLoad(h: nat, found: Option<string>, now: int, admin: bool)
    | RevokeWrite(h: nat, ok: bool)

  const ID_LENGTH := 8
  const CODE_LENGTH := 16

  predicate Enabled(s: State, e: Event) {
    match e
    case Create(id, row) =>
      id !in s.db.invites && |id| == ID_LENGTH && |row.code| == CODE_LENGTH &&
      (forall i <- s.db.invites :: s.db.invites[i].code != row.code) &&
      1 <= row.maxUses <= 100 && row.uses == 0 && row.revokedAt.None?
    case Arrive(h, request) => h !in s.handlers && (request.Redeeming? || request.Revoking?)
    case Load(h, found, _) =>
      h in s.handlers && s.handlers[h].Redeeming? && Selects(s.db, s.handlers[h].code, false, found)
    case Count(h, _) => h in s.handlers && s.handlers[h].Loaded?
    case Increment(h, _) => h in s.handlers && s.handlers[h].Cleared?
    case Record(h, _) => h in s.handlers && s.handlers[h].Spent?
    case Enrol(h, _) => h in s.handlers && s.handlers[h].Recorded?
    case RevokeLoad(h, found, _, _) =>
      h in s.handlers && s.handlers[h].Revoking? && Selects(s.db, s.handlers[h].key, true, found)
    case RevokeWrite(h, _) => h in s.handlers && s.handlers[h].RevokeLoaded?
  }

  /** `found` is a row whose code (or id, if asked) is `key`, and none only when there is none. */
  predicate Selects(db: Db, key: string, byId: bool, found: Option<string>) {
    match found
    case Some(id) => id in db.invites && (db.invites[id].code == key || (byId && id == key))
    case None => forall id <- db.invites :: db.invites[id].code != key && !(byId && id == key)
  }

  function AfterLoad(db: Db, pubkey: string, found: Option<string>, now: int): (r: Handler)
    requires found.Some? ==> found.value in db.invites
  {
    if found.None? then Finished(NotFound) else
    var row := db.invites[found.value];
    if Classify(row, now) != Active then Finished(Refused(Classify(row, now)))
    else if row.issuedBy == pubkey then Finished(OwnInvite)
    else Loaded(found.value, pubkey, now)
  }

  function AfterRevokeLoad(db: Db, key: string, caller: string, admin: bool, found: Option<string>,
      now: int): (r: Handler)
    requires found.Some? ==> found.value in db.invites
  {
    if found.None? then Finished(NotFound) else
    var row := db.invites[found.value];
    if row.issuedBy != caller && !admin then Finished(NotAuthorised)
    else if row.revokedAt.Some? then Finished(AlreadyRevoked)
    else RevokeLoaded(key, found.value, now)
  }

  function Next(s: State, e: Event): (s': State)
    requires Enabled(s, e)
  {
    match e
    case Create(id, row) => s.(db := s.db.(invites := s.db.invites[id := row]))
    case Arrive(h, request) => s.(handlers := s.handlers[h := request])
    case Load(h, found, now) =>
      s.(handlers := s.handlers[h := AfterLoad(s.db, s.handlers[h].pubkey, found, now)])
    case Count(h, ok) =>
      var Loaded(id, pubkey, now) := s.handlers[h];
      // A failed COUNT reads as zero.
      s.(handlers := s.handlers[h :=
        if ok && (id, pubkey) in s.db.redemptions then Finished(AlreadyRedeemed) else Cleared(id, pubkey, now)])
    case Increment(h, ok) =>
      var Cleared(id, pubkey, now) := s.handlers[h];
      var (db, changed) := if ok then IncrementUses(s.db, id, now) else (s.db, false);
      State(db, s.handlers[h :=
        if changed then Spent(id, pubkey) else Finished(if ok then Refused(Used) else Failed)], s.lost)
    case Record(h, ok) =>
      var Spent(id, pubkey) := s.handlers[h];
      var db := if ok then InsertRedemption(s.db, id, pubkey) else s.db;
      State(db, s.handlers[h := Recorded(id, pubkey)],
            if db.redemptions == s.db.redemptions then s.lost[id := Lost(s, id) + 1] else s.lost)
    case Enrol(h, ok) =>
      var Recorded(id, pubkey) := s.handlers[h];
      State(if ok then UpsertMember(s.db, id, pubkey) else s.db, s.handlers[h := Finished(Redeemed(id))], s.lost)
    case RevokeLoad(h, found, now, admin) =>
      var Revoking(key, caller) := s.handlers[h];
      s.(handlers := s.handlers[h := AfterRevokeLoad(s.db, key, caller, admin, found, now)])
    case RevokeWrite(h, ok) =>
      var RevokeLoaded(key, id, now) := s.handlers[h];
      State(if ok then SetRevoked(s.db, key, now) else s.db,
            s.handlers[h := Finished(if ok then RevokedNow(id) else Failed)], s.lost)
  }

  // -------------------------------------------------------------------------
  // Counting
  // -------------------------------------------------------------------------

  function Lost(s: State, id: string): (n: nat) {
    if id in s.lost then s.lost[id] else 0
  }

  function RedeemersOf(db: Db, id: string): (rs: set<(string, string)>) {
    set r | r in db.redemptions && r.0 == id
  }

  /** A handler that has raised the invite's use count. */
  predicate Granted(x: Handler, id: string) {
    (x.Spent? && x.id == id) || (x.Recorded? && x.id == id) || x == Finished(Redeemed(id))
  }

  function GrantedHandlers(s: State, id: string): (hs: set<nat>) {
    set h | h in s.handlers && Granted(s.handlers[h], id)
  }

  /** Handlers between the increment and the redemption insert. */
  function PendingHandlers(s: State, id: string): (hs: set<nat>) {
    set h | h in s.handlers && s.handlers[h].Spent? && s.handlers[h].id == id
  }

  /** What is known of one handler in every reachable state. */
  predicate HandlerOk(db: Db, x: Handler) {
    ((x.Loaded? || x.Cleared? || x.Spent? || x.Recorded?) ==>
       x.id in db.invites && db.invites[x.id].issuedBy != x.pubkey) &&
    (x.RevokeLoaded? ==> x.id in db.invites && (x.key == x.id || x.key == db.invites[x.id].code))
  }

  predicate RowOk(s: State, id: string)
    requires id in s.db.invites
  {
    var row := s.db.invites[id];
    |id| == ID_LENGTH && |row.code| == CODE_LENGTH &&
    0 <= row.uses <= row.maxUses &&
    row.uses == |GrantedHandlers(s, id)| &&
    row.uses == |RedeemersOf(s.db, id)| + |PendingHandlers(s, id)| + Lost(s, id)
  }

  ghost predicate Inv(s: State) {
    (forall id <- s.db.invites :: RowOk(s, id)) &&
    (forall h <- s.handlers :: HandlerOk(s.db, s.handlers[h])) &&
    (forall r <- s.db.redemptions :: r.0 in s.db.invites && s.db.invites[r.0].issuedBy != r.1) &&
    (forall h, id :: h in s.handlers && Granted(s.handlers[h], id) ==> id in s.db.invites) &&
    (forall id <- s.lost :: id in s.db.invites) &&
    (forall i, j :: i in s.db.invites && j in s.db.invites && s.db.invites[i].code == s.db.invites[j].code ==> i == j)
  }

  const EMPTY := State(Db(map[], {}, map[]), map[], map[])
}
