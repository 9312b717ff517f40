/** What every run of the invite protocol keeps. */
module InviteSafety {
  import opened Results
  import opened Invites
  import opened Texts

  // -------------------------------------------------------------------------
  // One step
  // -------------------------------------------------------------------------

  /** The handler an event runs. */
  function Actor(e: Event): (h: nat)
    requires !e.Create?
  {
    e.h
  }

  /** Replacing one handler moves it into or out of the counted sets, and moves nothing else. */
  lemma CountsFollowHandler(s: State, s': State, h: nat, x: Handler, id: string)
    requires s'.handlers == s.handlers[h := x]
    ensures GrantedHandlers(s', id) ==
      if Granted(x, id) then GrantedHandlers(s, id) + {h} else GrantedHandlers(s, id) - {h}
    ensures PendingHandlers(s', id) ==
      if x.Spent? && x.id == id then PendingHandlers(s, id) + {h} else PendingHandlers(s, id) - {h}
  {
  }

  lemma RedeemersFollowInsert(db: Db, id: string, pubkey: string, other: string)
    ensures RedeemersOf(InsertRedemption(db, id, pubkey), other) ==
      if id == other then RedeemersOf(db, other) + {(id, pubkey)} else RedeemersOf(db, other)
  {
  }

  lemma NewInviteIsUncounted(s: State, id: string)
    requires Inv(s) && id !in s.db.invites
    ensures GrantedHandlers(s, id) == {} && PendingHandlers(s, id) == {} && RedeemersOf(s.db, id) == {} && Lost(s, id) == 0
  {
    forall h | h in s.handlers ensures !Granted(s.handlers[h], id) {
    }
  }

  lemma RowKeptByCreate(s: State, e: Event, id: string)
    requires Inv(s) && Enabled(s, e) && e.Create? && id in Next(s, e).db.invites
    ensures RowOk(Next(s, e), id)
  {
    if id == e.id {
      NewInviteIsUncounted(s, id);
    }
    assert GrantedHandlers(Next(s, e), id) == GrantedHandlers(s, id);
    assert PendingHandlers(Next(s, e), id) == PendingHandlers(s, id);
  }

  /** A row whose use, holder and pending counts move together stays right. */
  lemma RowOkMoved(s: State, s': State, id: string, d: nat)
    requires id in s.db.invites && RowOk(s, id) && id in s'.db.invites
    requires s'.db.invites[id] == s.db.invites[id].(uses := s.db.invites[id].uses + d)
    requires d > 0 ==> s.db.invites[id].uses + d <= s.db.invites[id].maxUses
    requires |GrantedHandlers(s', id)| == |GrantedHandlers(s, id)| + d
    requires |PendingHandlers(s', id)| == |PendingHandlers(s, id)| + d
    requires RedeemersOf(s'.db, id) == RedeemersOf(s.db, id) && Lost(s', id) == Lost(s, id)
    ensures RowOk(s', id)
  {
    hide GrantedHandlers, PendingHandlers, RedeemersOf, Lost;
  }

  /** What the increment adds to the counts of an invite. */
  function Grant(s: State, e: Event, id: string): (d: nat)
    requires Enabled(s, e) && e.Increment?
  {
    var x := Next(s, e).handlers[e.h];
    if x.Spent? && x.id == id then 1 else 0
  }

  lemma IncrementCounts(s: State, e: Event, id: string)
    requires Enabled(s, e) && e.Increment?
    ensures |GrantedHandlers(Next(s, e), id)| == |GrantedHandlers(s, id)| + Grant(s, e, id)
    ensures |PendingHandlers(Next(s, e), id)| == |PendingHandlers(s, id)| + Grant(s, e, id)
  {
    hide GrantedHandlers, PendingHandlers, Next;
    var s' := Next(s, e);
    IncrementShape(s, e);
    NotCounted(s, e.h, id);
    OneMore(GrantedHandlers(s, id), e.h);
    OneMore(PendingHandlers(s, id), e.h);
    CountsFollowHandler(s, s', e.h, s'.handlers[e.h], id);
  }

  lemma RowKeptByIncrement(s: State, e: Event, id: string)
    requires id in s.db.invites && RowOk(s, id) && Enabled(s, e) && e.Increment?
    ensures id in Next(s, e).db.invites && RowOk(Next(s, e), id)
  {
    hide GrantedHandlers, PendingHandlers, RedeemersOf, Next, Lost, RowOk;
    var s' := Next(s, e);
    IncrementCounts(s, e, id);
    SameLost(s, e, id);
    IncrementShape(s, e);
    SameRedeemers(s.db, s'.db, id);
    RowOkMoved(s, s', id, Grant(s, e, id));
  }

  lemma SameRedeemers(db: Db, db': Db, id: string)
    requires db'.redemptions == db.redemptions
    ensures RedeemersOf(db', id) == RedeemersOf(db, id)
  {
  }

  lemma SameLost(s: State, e: Event, id: string)
    requires Enabled(s, e) && e.Increment?
    ensures Lost(Next(s, e), id) == Lost(s, id)
  {
  }

  lemma IncrementShape(s: State, e: Event)
    requires Enabled(s, e) && e.Increment?
    ensures var (x, s') := (s.handlers[e.h], Next(s, e));
      e.h in s'.handlers && s'.handlers == s.handlers[e.h := s'.handlers[e.h]] &&
      s'.db.redemptions == s.db.redemptions && s'.lost == s.lost &&
      if s'.handlers[e.h].Spent? then
        s'.handlers[e.h].id == x.id && x.id in s.db.invites &&
        s.db.invites[x.id].uses < s.db.invites[x.id].maxUses &&
        s'.db.invites == s.db.invites[x.id := s.db.invites[x.id].(uses := s.db.invites[x.id].uses + 1)]
      else
        s'.handlers[e.h].Finished? && !s'.handlers[e.h].outcome.Redeemed? && s'.db.invites == s.db.invites
  {
  }

  lemma RowKeptByRecord(s: State, e: Event, id: string)
    requires id in s.db.invites && RowOk(s, id) && Enabled(s, e) && e.Record?
    ensures id in Next(s, e).db.invites && RowOk(Next(s, e), id)
  {
    hide GrantedHandlers, PendingHandlers, RedeemersOf, Next, InsertRedemption;
    var x, s' := s.handlers[e.h], Next(s, e);
    CountedIff(s, e.h, id);
    RecordShape(s, e);
    CountsFollowHandler(s, s', e.h, s'.handlers[e.h], id);
    RedeemersFollowInsert(s.db, x.id, x.pubkey, id);
    RedeemerIff(s.db, x.id, x.pubkey);
    InsertChanges(s.db, x.id, x.pubkey);
    if e.ok {
      OneMore(RedeemersOf(s.db, id), (x.id, x.pubkey));
    } else {
      SameRedeemers(s.db, s'.db, id);
    }
  }

  lemma OneMore<T>(all: set<T>, one: T)
    ensures |all + {one}| == if one in all then |all| else |all| + 1
  {
    assert one in all ==> all + {one} == all;
  }

  lemma RedeemerIff(db: Db, id: string, pubkey: string)
    ensures (id, pubkey) in RedeemersOf(db, id) <==> (id, pubkey) in db.redemptions
  {
  }

  lemma RecordShape(s: State, e: Event)
    requires Enabled(s, e) && e.Record?
    ensures var (x, s') := (s.handlers[e.h], Next(s, e));
      s'.handlers == s.handlers[e.h := Recorded(x.id, x.pubkey)] && s'.db.invites == s.db.invites &&
      s'.db == (if e.ok then InsertRedemption(s.db, x.id, x.pubkey) else s.db) &&
      s'.lost == if s'.db.redemptions == s.db.redemptions then s.lost[x.id := Lost(s, x.id) + 1] else s.lost
  {
  }

  lemma InsertChanges(db: Db, id: string, pubkey: string)
    ensures InsertRedemption(db, id, pubkey).redemptions == db.redemptions <==> (id, pubkey) in db.redemptions
  {
    assert (id, pubkey) in InsertRedemption(db, id, pubkey).redemptions;
  }

  /** Every other statement leaves all counts as they are. */
  lemma RowKeptByOthers(s: State, e: Event, id: string)
    requires id in s.db.invites && RowOk(s, id) && Enabled(s, e)
    requires !e.Create? && !e.Increment? && !e.Record?
    ensures id in Next(s, e).db.invites && RowOk(Next(s, e), id)
  {
    hide GrantedHandlers, PendingHandlers, RedeemersOf, Next, Granted;
    var h, s' := Actor(e), Next(s, e);
    SameStanding(s, e, id);
    SameRow(s, e, id);
    CountsFollowHandler(s, s', h, s'.handlers[h], id);
    SameRedeemers(s.db, s'.db, id);
    if h in s.handlers {
      CountedIff(s, h, id);
    } else {
      NotCounted(s, h, id);
    }
  }

  lemma SameStanding(s: State, e: Event, id: string)
    requires Enabled(s, e) && !e.Create? && !e.Increment? && !e.Record?
    ensures Actor(e) in Next(s, e).handlers
    ensures Granted(Next(s, e).handlers[Actor(e)], id) <==> Actor(e) in s.handlers && Granted(s.handlers[Actor(e)], id)
    ensures !Next(s, e).handlers[Actor(e)].Spent? && (Actor(e) in s.handlers ==> !s.handlers[Actor(e)].Spent?)
    ensures Next(s, e).handlers == s.handlers[Actor(e) := Next(s, e).handlers[Actor(e)]]
  {
  }

  lemma SameRow(s: State, e: Event, id: string)
    requires id in s.db.invites && Enabled(s, e) && !e.Create? && !e.Increment? && !e.Record?
    ensures Next(s, e).lost == s.lost && Next(s, e).db.redemptions == s.db.redemptions
    ensures id in Next(s, e).db.invites
    ensures Next(s, e).db.invites[id] == s.db.invites[id].(revokedAt := Next(s, e).db.invites[id].revokedAt)
  {
  }

  lemma CountedIff(s: State, h: nat, id: string)
    requires h in s.handlers
    ensures h in GrantedHandlers(s, id) <==> Granted(s.handlers[h], id)
    ensures h in PendingHandlers(s, id) <==> s.handlers[h].Spent? && s.handlers[h].id == id
  {
  }

  /** A handler outside the granted states is in neither counted set. */
  lemma NotCounted(s: State, h: nat, id: string)
    requires h in s.handlers ==> !Granted(s.handlers[h], id)
    ensures h !in GrantedHandlers(s, id) && h !in PendingHandlers(s, id)
  {
  }

  lemma ActorKept(s: State, e: Event)
    requires Enabled(s, e) && !e.Create?
    requires Actor(e) in s.handlers ==> HandlerOk(s.db, s.handlers[Actor(e)])
    ensures HandlerOk(Next(s, e).db, Next(s, e).handlers[Actor(e)])
    ensures forall id :: Granted(Next(s, e).handlers[Actor(e)], id) ==> id in Next(s, e).db.invites
  {
  }

  lemma BystanderKept(s: State, e: Event, x: Handler)
    requires Enabled(s, e) && HandlerOk(s.db, x)
    ensures HandlerOk(Next(s, e).db, x)
    ensures s.db.invites.Keys <= Next(s, e).db.invites.Keys
  {
    StepEvolves(s, e);
  }

  lemma HandlersFrame(s: State, e: Event, h: nat)
    requires Enabled(s, e) && h in Next(s, e).handlers && (e.Create? || h != Actor(e))
    ensures h in s.handlers && Next(s, e).handlers[h] == s.handlers[h]
  {
  }

  lemma RowsFrame(s: State, e: Event)
    requires Enabled(s, e) && !e.Create?
    ensures Next(s, e).db.invites.Keys == s.db.invites.Keys
    ensures Actor(e) in s.handlers || e.Arrive?
  {
  }

  lemma RedemptionsKept(s: State, e: Event)
    requires Inv(s) && Enabled(s, e)
    ensures forall r <- Next(s, e).db.redemptions :: r.0 in Next(s, e).db.invites && Next(s, e).db.invites[r.0].issuedBy != r.1
  {
    hide RowOk, Next, Enabled, Evolves, HandlerOk;
    StepEvolves(s, e);
    var s' := Next(s, e);
    forall r | r in s'.db.redemptions
      ensures r.0 in s'.db.invites && s'.db.invites[r.0].issuedBy != r.1
    {
      if r in s.db.redemptions {
        EvolvesKeeps(s.db.invites[r.0], s'.db.invites[r.0]);
      } else {
        NewRedemption(s, e, r);
        EvolvesKeeps(s.db.invites[r.0], s'.db.invites[r.0]);
      }
    }
  }

  lemma EvolvesKeeps(before: Invite, after: Invite)
    requires Evolves(before, after)
    ensures after.issuedBy == before.issuedBy && after.code == before.code
  {
  }

  /** A redemption that was not there is its recording handler's. */
  lemma NewRedemption(s: State, e: Event, r: (string, string))
    requires Enabled(s, e) && r in Next(s, e).db.redemptions && r !in s.db.redemptions
    requires forall h <- s.handlers :: HandlerOk(s.db, s.handlers[h])
    ensures r.0 in s.db.invites && s.db.invites[r.0].issuedBy != r.1
  {
    assert e.Record? && r == (s.handlers[e.h].id, s.handlers[e.h].pubkey);
  }

  lemma LostKept(s: State, e: Event)
    requires Inv(s) && Enabled(s, e)
    ensures forall id <- Next(s, e).lost :: id in Next(s, e).db.invites
  {
    hide RowOk;
  }

  lemma CodesKept(s: State, e: Event)
    requires Inv(s) && Enabled(s, e)
    ensures var rows := Next(s, e).db.invites;
      forall i, j :: i in rows && j in rows && rows[i].code == rows[j].code ==> i == j
  {
    hide RowOk, HandlerOk;
  }

  lemma OthersKept(s: State, e: Event)
    requires Inv(s) && Enabled(s, e)
    ensures var s' := Next(s, e);
      (forall r <- s'.db.redemptions :: r.0 in s'.db.invites && s'.db.invites[r.0].issuedBy != r.1) &&
      (forall id <- s'.lost :: id in s'.db.invites) &&
      forall i, j :: i in s'.db.invites && j in s'.db.invites && s'.db.invites[i].code == s'.db.invites[j].code ==> i == j
  {
    hide Next, Enabled, Inv;
    RedemptionsKept(s, e);
    LostKept(s, e);
    CodesKept(s, e);
  }

  /** The invariant holds initially and after every statement of every handler. */
  lemma InvKept(s: State, e: Event)
    requires Inv(s) && Enabled(s, e)
    ensures Inv(Next(s, e))
  {
    hide RowOk, HandlerOk, Next, Enabled, Granted;
    var s' := Next(s, e);
    if !e.Create? {
      RowsFrame(s, e);
    }
    forall id | id in s'.db.invites ensures RowOk(s', id) {
      if e.Create? {
        RowKeptByCreate(s, e, id);
      } else if e.Increment? {
        RowKeptByIncrement(s, e, id);
      } else if e.Record? {
        RowKeptByRecord(s, e, id);
      } else {
        RowKeptByOthers(s, e, id);
      }
    }
    forall h | h in s'.handlers
      ensures HandlerOk(s'.db, s'.handlers[h]) && forall id :: Granted(s'.handlers[h], id) ==> id in s'.db.invites
    {
      if !e.Create? && h == Actor(e) {
        ActorKept(s, e);
      } else {
        HandlersFrame(s, e, h);
        BystanderKept(s, e, s.handlers[h]);
      }
    }
    OthersKept(s, e);
  }

  /**
   * A step never lowers a use count, never raises it once the invite is revoked, never undoes a
   * revocation, and never touches issuer, code, limit or expiry.
   */
  predicate Evolves(before: Invite, after: Invite) {
    before.uses <= after.uses &&
    (before.revokedAt.Some? ==> after.uses == before.uses && after.revokedAt.Some?) &&
    after.issuedBy == before.issuedBy && after.code == before.code &&
    after.maxUses == before.maxUses && after.expiresAt == before.expiresAt
  }

  ghost predicate AllEvolve(s: State, s': State) {
    s.db.redemptions <= s'.db.redemptions &&
    forall id <- s.db.invites :: id in s'.db.invites && Evolves(s.db.invites[id], s'.db.invites[id])
  }

  lemma StepEvolves(s: State, e: Event)
    requires Enabled(s, e)
    ensures AllEvolve(s, Next(s, e))
  {
  }

  // -------------------------------------------------------------------------
  // Whole runs
  // -------------------------------------------------------------------------

  /** A run from the empty database: any handlers, any interleaving, any failures. */
  ghost predicate Run(states: seq<State>, events: seq<Event>) {
    |states| == |events| + 1 && states[0] == EMPTY &&
    forall i :: 0 <= i < |events| ==> Enabled(states[i], events[i]) && states[i + 1] == Next(states[i], events[i])
  }

  lemma {:induction false} RunKeepsInv(states: seq<State>, events: seq<Event>, i: nat)
    requires Run(states, events) && i < |states|
    ensures Inv(states[i])
  {
    if i > 0 {
      RunKeepsInv(states, events, i - 1);
      InvKept(states[i - 1], events[i - 1]);
    }
  }

  lemma EvolveOn(s: State, s': State, s'': State)
    requires AllEvolve(s, s') && AllEvolve(s', s'')
    ensures AllEvolve(s, s'')
  {
  }

  lemma NothingEvolves(s: State)
    ensures AllEvolve(s, s)
  {
  }

  lemma {:induction false} RunEvolves(states: seq<State>, events: seq<Event>, i: nat, j: nat)
    requires Run(states, events) && i <= j < |states|
    ensures AllEvolve(states[i], states[j])
    decreases j
  {
    hide Next, Enabled, AllEvolve;
    if i < j {
      RunEvolves(states, events, i, j - 1);
      StepEvolves(states[j - 1], events[j - 1]);
      EvolveOn(states[i], states[j - 1], states[j]);
    } else {
      NothingEvolves(states[i]);
    }
  }

  /**
   * In every state of every run: redemptions and uses stay within the limit, the uses are exactly the
   * handlers that were granted one, and no issuer has redeemed their own invite.
   */
  lemma RedemptionSafety(states: seq<State>, events: seq<Event>, i: nat, id: string)
    requires Run(states, events) && i < |states| && id in states[i].db.invites
    ensures var row := states[i].db.invites[id];
      0 <= |RedeemersOf(states[i].db, id)| <= row.uses <= row.maxUses &&
      row.uses == |GrantedHandlers(states[i], id)| &&
      (id, row.issuedBy) !in states[i].db.redemptions
  {
    RunKeepsInv(states, events, i);
  }

  /** Over any stretch of a run, uses only grow, and stop growing when a revocation commits. */
  lemma UsesOverTime(states: seq<State>, events: seq<Event>, i: nat, j: nat, id: string)
    requires Run(states, events) && i <= j < |states| && id in states[i].db.invites
    ensures id in states[j].db.invites && Evolves(states[i].db.invites[id], states[j].db.invites[id])
    ensures RedeemersOf(states[i].db, id) <= RedeemersOf(states[j].db, id)
  {
    RunEvolves(states, events, i, j);
  }

  // -------------------------------------------------------------------------
  // When nothing is lost
  // -------------------------------------------------------------------------

  /** A handler that found no redemption row and has not yet tried to insert one. */
  predicate InFlight(x: Handler) {
    x.Cleared? || x.Spent?
  }

  /** No pubkey has two such handlers for one invite. */
  ghost predicate NoSelfRace(s: State) {
    forall g, h :: g in s.handlers && h in s.handlers && g != h && InFlight(s.handlers[g]) && InFlight(s.handlers[h]) ==>
      s.handlers[g].id != s.handlers[h].id || s.handlers[g].pubkey != s.handlers[h].pubkey
  }

  predicate Succeeds(e: Event) {
    (e.Count? || e.Increment? || e.Record? || e.Enrol? || e.RevokeWrite?) ==> e.ok
  }

  ghost predicate NothingLost(s: State) {
    (forall id :: Lost(s, id) == 0) &&
    forall h <- s.handlers :: InFlight(s.handlers[h]) ==> (s.handlers[h].id, s.handlers[h].pubkey) !in s.db.redemptions
  }

  lemma NothingLostKept(s: State, e: Event)
    requires Enabled(s, e) && Succeeds(e) && NoSelfRace(s) && NothingLost(s)
    ensures NothingLost(Next(s, e))
  {
    var s' := Next(s, e);
    if e.Record? {
      InsertChanges(s.db, s.handlers[e.h].id, s.handlers[e.h].pubkey);
      assert InFlight(s.handlers[e.h]);
    }
    assert s'.lost == s.lost;
    forall id ensures Lost(s', id) == 0 {
      assert Lost(s, id) == 0;
    }
    forall h | h in s'.handlers && InFlight(s'.handlers[h])
      ensures (s'.handlers[h].id, s'.handlers[h].pubkey) !in s'.db.redemptions
    {
      if h in s.handlers && (s'.handlers[h] == s.handlers[h] || e.Increment?) {
        assert InFlight(s.handlers[h]);
      }
    }
  }

  /** Without self-races and failing statements, uses are recorded redemptions plus those under way. */
  lemma {:induction false} UsesAreRecordedPlusPending(states: seq<State>, events: seq<Event>, i: nat)
    requires Run(states, events) && i < |states|
    requires forall k :: 0 <= k < i ==> Succeeds(events[k]) && NoSelfRace(states[k])
    ensures NothingLost(states[i])
    ensures forall id <- states[i].db.invites ::
      states[i].db.invites[id].uses == |RedeemersOf(states[i].db, id)| + |PendingHandlers(states[i], id)|
  {
    if i > 0 {
      UsesAreRecordedPlusPending(states, events, i - 1);
      NothingLostKept(states[i - 1], events[i - 1]);
    }
    RunKeepsInv(states, events, i);
  }

  /** A record statement that leaves a new row for the use its handler raised. */
  predicate RecordsItsUse(s: State, e: Event)
    requires Enabled(s, e)
  {
    e.Record? ==> e.ok && (s.handlers[e.h].id, s.handlers[e.h].pubkey) !in s.db.redemptions
  }

  lemma LostStep(s: State, e: Event, id: string)
    requires Enabled(s, e)
    ensures Lost(Next(s, e), id) == Lost(s, id) + if e.Record? && !RecordsItsUse(s, e) && s.handlers[e.h].id == id then 1 else 0
  {
    if e.Record? {
      hide InsertRedemption;
      RecordShape(s, e);
      InsertChanges(s.db, s.handlers[e.h].id, s.handlers[e.h].pubkey);
    }
  }

  lemma {:induction false} LostIff(states: seq<State>, events: seq<Event>, i: nat)
    requires Run(states, events) && i < |states|
    ensures (forall id :: Lost(states[i], id) == 0) <==> forall k :: 0 <= k < i ==> RecordsItsUse(states[k], events[k])
  {
    hide Next, Enabled, Lost, RecordsItsUse;
    if i == 0 {
      NothingLostYet();
    } else {
      LostIff(states, events, i - 1);
      var s, e := states[i - 1], events[i - 1];
      forall id {
        LostStep(s, e, id);
      }
      if !RecordsItsUse(s, e) {
        var id := LosesOne(s, e);
        assert Lost(states[i], id) != 0 && !RecordsItsUse(states[i - 1], events[i - 1]);
      } else {
        assert forall id :: Lost(states[i], id) == Lost(s, id);
        assert (forall id :: Lost(states[i], id) == 0) <==> (forall id :: Lost(s, id) == 0);
      }
    }
  }

  lemma NothingLostYet()
    ensures forall id :: Lost(EMPTY, id) == 0
  {
  }

  lemma LosesOne(s: State, e: Event) returns (id: string)
    requires Enabled(s, e) && !RecordsItsUse(s, e)
    ensures Lost(Next(s, e), id) > 0
  {
    id := s.handlers[e.h].id;
    LostStep(s, e, id);
  }

  /**
   * Exactly then, in any run: every invite's uses are its recorded redemptions plus those under way if
   * and only if each record statement so far succeeded and met no row of its own pubkey.
   */
  lemma UsesAreRecordedPlusPendingIff(states: seq<State>, events: seq<Event>, i: nat)
    requires Run(states, events) && i < |states|
    ensures (forall id <- states[i].db.invites ::
      states[i].db.invites[id].uses == |RedeemersOf(states[i].db, id)| + |PendingHandlers(states[i], id)|)
      <==> forall k :: 0 <= k < i ==> RecordsItsUse(states[k], events[k])
  {
    RunKeepsInv(states, events, i);
    LostIff(states, events, i);
    hide GrantedHandlers, PendingHandlers, RedeemersOf, RecordsItsUse, HandlerOk, Run;
    forall id | id !in states[i].db.invites ensures Lost(states[i], id) == 0 {
    }
  }

  /** `events` lead from one state to another. */
  ghost predicate Leads(s: State, events: seq<Event>, s': State)
    decreases |events|
  {
    if events == [] then s == s' else Enabled(s, events[0]) && Leads(Next(s, events[0]), events[1..], s')
  }

  /** A pubkey that races itself spends two uses on one recorded redemption. */
  lemma SelfRaceSpendsTwoUses(s: State, g: nat, h: nat) returns (s': State)
    requires g in s.handlers && h in s.handlers && g != h
    requires s.handlers[g].Cleared? && s.handlers[h].Cleared?
    requires s.handlers[g].id in s.db.invites
    requires s.handlers[g].id == s.handlers[h].id && s.handlers[g].pubkey == s.handlers[h].pubkey
    requires var row := s.db.invites[s.handlers[g].id];
      row.uses + 2 <= row.maxUses && row.revokedAt.None? && row.expiresAt > s.handlers[g].now && row.expiresAt > s.handlers[h].now
    ensures Leads(s, [Increment(g, true), Increment(h, true), Record(g, true), Record(h, true)], s')
    ensures var id := s.handlers[g].id;
      id in s'.db.invites && s'.db.invites[id].uses == s.db.invites[id].uses + 2 &&
      s'.db.redemptions == s.db.redemptions + {(id, s.handlers[g].pubkey)}
  {
    var es := [Increment(g, true), Increment(h, true), Record(g, true), Record(h, true)];
    var s1 := Next(s, es[0]);
    var s2 := Next(s1, es[1]);
    var s3 := Next(s2, es[2]);
    s' := Next(s3, es[3]);
    assert Leads(s', [], s');
    assert es[3..] == [es[3]] && es[2..][1..] == es[3..] && es[1..][1..] == es[2..];
    assert Leads(s3, es[3..], s');
    assert Leads(s2, es[2..], s');
    assert Leads(s1, es[1..], s');
  }

  /** Such a race happens: two requests of one pubkey that both load and count before either increments. */
  lemma SelfRaceIsReachable(row: Invite, pubkey: string, now: int) returns (s: State)
    requires |row.code| == CODE_LENGTH && 1 <= row.maxUses <= 100 && row.uses == 0 && row.revokedAt.None?
    requires row.expiresAt > now && row.issuedBy != pubkey
    ensures Leads(EMPTY, [Create("12345678", row), Arrive(1, Redeeming(row.code, pubkey)), Arrive(2, Redeeming(row.code, pubkey)),
                         Load(1, Some("12345678"), now), Load(2, Some("12345678"), now), Count(1, true), Count(2, true)], s)
    ensures s.handlers == map[1 := Cleared("12345678", pubkey, now), 2 := Cleared("12345678", pubkey, now)]
  {
    var id, request := "12345678", Redeeming(row.code, pubkey);
    var loaded, cleared := Loaded(id, pubkey, now), Cleared(id, pubkey, now);
    s := Racing(row, cleared, cleared);
    RaceArrives(row, request);
    RaceRuns(row, pubkey, now);
    hide Leads, Takes, Racing;
    NoSteps(s);
    LeadsBy(Racing(row, cleared, loaded), Count(2, true), s, [], s);
    LeadsBy(Racing(row, loaded, loaded), Count(1, true), Racing(row, cleared, loaded), [Count(2, true)], s);
    var rest := [Count(1, true), Count(2, true)];
    LeadsBy(Racing(row, loaded, request), Load(2, Some(id), now), Racing(row, loaded, loaded), rest, s);
    rest := [Load(2, Some(id), now)] + rest;
    LeadsBy(Racing(row, request, request), Load(1, Some(id), now), Racing(row, loaded, request), rest, s);
    rest := [Load(1, Some(id), now)] + rest;
    LeadsBy(State(Issued(row), map[1 := request], map[]), Arrive(2, request), Racing(row, request, request), rest, s);
    rest := [Arrive(2, request)] + rest;
    LeadsBy(State(Issued(row), map[], map[]), Arrive(1, request), State(Issued(row), map[1 := request], map[]), rest, s);
    rest := [Arrive(1, request)] + rest;
    LeadsBy(EMPTY, Create(id, row), State(Issued(row), map[], map[]), rest, s);
    assert [Create(id, row)] + rest == [Create(id, row), Arrive(1, request), Arrive(2, request),
      Load(1, Some(id), now), Load(2, Some(id), now), Count(1, true), Count(2, true)];
  }

  function Issued(row: Invite): Db {
    Db(map["12345678" := row], {}, map[])
  }

  function Racing(row: Invite, x: Handler, y: Handler): (s: State)
    ensures s.handlers == map[1 := x, 2 := y]
  {
    State(Issued(row), map[1 := x, 2 := y], map[])
  }

  predicate Takes(s: State, e: Event, s': State) {
    Enabled(s, e) && Next(s, e) == s'
  }

  lemma LeadsBy(s: State, e: Event, s': State, rest: seq<Event>, end: State)
    requires Takes(s, e, s') && Leads(s', rest, end)
    ensures Leads(s, [e] + rest, end)
  {
    hide Leads;
    LeadsBack(s, e, rest, end);
  }

  lemma RaceArrives(row: Invite, request: Handler)
    requires |row.code| == CODE_LENGTH && 1 <= row.maxUses <= 100 && row.uses == 0 && row.revokedAt.None? && request.Redeeming?
    ensures Takes(EMPTY, Create("12345678", row), State(Issued(row), map[], map[]))
    ensures Takes(State(Issued(row), map[], map[]), Arrive(1, request), State(Issued(row), map[1 := request], map[]))
    ensures Takes(State(Issued(row), map[1 := request], map[]), Arrive(2, request), Racing(row, request, request))
  {
  }

  lemma RaceRuns(row: Invite, pubkey: string, now: int)
    requires 1 <= row.maxUses && row.uses == 0 && row.revokedAt.None? && row.expiresAt > now && row.issuedBy != pubkey
    ensures var id := "12345678";
      var request, loaded, cleared := Redeeming(row.code, pubkey), Loaded(id, pubkey, now), Cleared(id, pubkey, now);
      && Takes(Racing(row, request, request), Load(1, Some(id), now), Racing(row, loaded, request))
      && Takes(Racing(row, loaded, request), Load(2, Some(id), now), Racing(row, loaded, loaded))
      && Takes(Racing(row, loaded, loaded), Count(1, true), Racing(row, cleared, loaded))
      && Takes(Racing(row, cleared, loaded), Count(2, true), Racing(row, cleared, cleared))
  {
  }

  lemma NoSteps(s: State)
    ensures Leads(s, [], s)
  {
  }

  lemma LeadsBack(s: State, e: Event, rest: seq<Event>, end: State)
    requires Enabled(s, e) && Leads(Next(s, e), rest, end)
    ensures Leads(s, [e] + rest, end)
  {
    assert ([e] + rest)[1..] == rest;
  }

  // -------------------------------------------------------------------------
  // Revocation by id or by code
  // -------------------------------------------------------------------------

  /**
   * The SELECT of a revocation matches id or code but its UPDATE matches the id only: the write that
   * answers "revoked" has revoked the selected invite exactly when the path held its id (or someone
   * else had revoked it), and given the code it changes nothing.
   */
  lemma RevokeTakesEffectOnlyById(s: State, h: nat)
    requires Inv(s) && Enabled(s, RevokeWrite(h, true))
    ensures var (x, s') := (s.handlers[h], Next(s, RevokeWrite(h, true)));
      s'.handlers[h] == Finished(RevokedNow(x.id)) &&
      (s'.db.invites[x.id].revokedAt.Some? <==> x.key == x.id || s.db.invites[x.id].revokedAt.Some?) &&
      (x.key != x.id ==> s'.db == s.db)
  {
    var x := s.handlers[h];
    if x.key != x.id {
      assert |x.key| == CODE_LENGTH;
      assert x.key !in s.db.invites;
    }
  }

  /** It happens: from the empty database the issuer revokes by code, is told so, and the invite stays as it was. */
  lemma RevokedByCodeStaysActive(row: Invite, now: int) returns (s: State)
    requires |row.code| == CODE_LENGTH && 1 <= row.maxUses <= 100 && row.uses == 0 && row.revokedAt.None?
    ensures Leads(EMPTY, [Create("12345678", row), Arrive(1, Revoking(row.code, row.issuedBy)),
                          RevokeLoad(1, Some("12345678"), now, false), RevokeWrite(1, true)], s)
    ensures s.handlers == map[1 := Finished(RevokedNow("12345678"))] && s.db == Issued(row)
  {
    var id, request, loaded := "12345678", Revoking(row.code, row.issuedBy), RevokeLoaded(row.code, "12345678", now);
    var s1 := State(Issued(row), map[], map[]);
    var s2, s3 := s1.(handlers := map[1 := request]), s1.(handlers := map[1 := loaded]);
    s := s1.(handlers := map[1 := Finished(RevokedNow(id))]);
    assert Takes(EMPTY, Create(id, row), s1) && Takes(s1, Arrive(1, request), s2);
    assert Takes(s2, RevokeLoad(1, Some(id), now, false), s3) && Takes(s3, RevokeWrite(1, true), s);
    hide Leads, Takes;
    NoSteps(s);
    LeadsBy(s3, RevokeWrite(1, true), s, [], s);
    LeadsBy(s2, RevokeLoad(1, Some(id), now, false), s3, [RevokeWrite(1, true)], s);
    var rest := [RevokeLoad(1, Some(id), now, false), RevokeWrite(1, true)];
    LeadsBy(s1, Arrive(1, request), s2, rest, s);
    LeadsBy(EMPTY, Create(id, row), s1, [Arrive(1, request)] + rest, s);
    assert [Create(id, row)] + ([Arrive(1, request)] + rest) ==
      [Create(id, row), Arrive(1, request), RevokeLoad(1, Some(id), now, false), RevokeWrite(1, true)];
  }

  /** The issuer's own key is refused, without being an admin, exactly in a spelling that is not on record. */
  lemma IssuerMayRevokeIff(db: Db, key: string, id: string, caller: string, now: int)
    requires id in db.invites && Lower(caller) == Lower(db.invites[id].issuedBy)
    ensures AfterRevokeLoad(db, key, caller, false, Some(id), now) == Finished(NotAuthorised) <==>
      caller != db.invites[id].issuedBy
  {
  }

  // -------------------------------------------------------------------------
  // A handler that runs alone
  // -------------------------------------------------------------------------

  /** What one redemption does when nothing interleaves with it and no statement fails. */
  function RedeemAlone(db: Db, found: Option<string>, pubkey: string, now: int): (r: (Db, Outcome))
    requires found.Some? ==> found.value in db.invites
  {
    if found.None? then (db, NotFound) else
    var id, row := found.value, db.invites[found.value];
    if Classify(row, now) != Active then (db, Refused(Classify(row, now)))
    else if row.issuedBy == pubkey then (db, OwnInvite)
    else if (id, pubkey) in db.redemptions then (db, AlreadyRedeemed)
    else (UpsertMember(InsertRedemption(IncrementUses(db, id, now).0, id, pubkey), id, pubkey), Redeemed(id))
  }

  /** An invite that can still be redeemed. */
  predicate Open(row: Invite, now: int) {
    row.revokedAt == None && now < row.expiresAt && row.uses < row.maxUses
  }

  /** All invites but one, and all members but one, are as they were. */
  predicate OnlyInvite(db: Db, db': Db, id: string) {
    db'.invites.Keys == db.invites.Keys && forall i :: i in db.invites && i != id ==> db'.invites[i] == db.invites[i]
  }

  predicate OnlyMember(db: Db, db': Db, pubkey: string) {
    db'.members.Keys == db.members.Keys + {pubkey} && forall p :: p in db.members && p != pubkey ==> db'.members[p] == db.members[p]
  }

  /** Each answer, and what it leaves in the three tables. */
  lemma RedeemAloneIs(db: Db, id: string, pubkey: string, now: int)
    requires id in db.invites
    ensures RedeemAlone(db, None, pubkey, now) == (db, NotFound)
    ensures var (row, (db', outcome)) := (db.invites[id], RedeemAlone(db, Some(id), pubkey, now));
      && (outcome == Refused(Revoked) <==> row.revokedAt != None)
      && (outcome == Refused(Expired) <==> row.revokedAt == None && row.expiresAt <= now)
      && (outcome == Refused(Used) <==> row.revokedAt == None && now < row.expiresAt && row.maxUses <= row.uses)
      && (outcome == OwnInvite <==> Open(row, now) && row.issuedBy == pubkey)
      && (outcome == AlreadyRedeemed <==> Open(row, now) && row.issuedBy != pubkey && (id, pubkey) in db.redemptions)
      && (outcome == Redeemed(id) <==> Open(row, now) && row.issuedBy != pubkey && (id, pubkey) !in db.redemptions)
      && (outcome != Redeemed(id) ==> db' == db)
      && (outcome == Redeemed(id) ==>
            && OnlyInvite(db, db', id) && db'.invites[id] == row.(uses := row.uses + 1)
            && db'.redemptions == db.redemptions + {(id, pubkey)}
            && OnlyMember(db, db', pubkey) && db'.members[pubkey] == id)
  {
  }

  /** A redemption selects by code, a revocation by code or id; nothing is found exactly if there is no such row. */
  lemma SelectionIff(s: State, h: nat, found: Option<string>, now: int, admin: bool)
    requires h in s.handlers
    ensures s.handlers[h].Redeeming? ==>
      var code := s.handlers[h].code;
      (Enabled(s, Load(h, found, now)) <==>
        if found == None then forall id :: id in s.db.invites ==> s.db.invites[id].code != code
        else found.value in s.db.invites && s.db.invites[found.value].code == code)
    ensures s.handlers[h].Revoking? ==>
      var key := s.handlers[h].key;
      (Enabled(s, RevokeLoad(h, found, now, admin)) <==>
        if found == None then key !in s.db.invites && forall id :: id in s.db.invites ==> s.db.invites[id].code != key
        else found.value in s.db.invites && (s.db.invites[found.value].code == key || found.value == key))
  {
  }

  /** Statement by statement, whatever interleaves: what each asks, answers and writes. */
  lemma RedemptionSteps(s: State, e: Event)
    requires Enabled(s, e) && (e.Count? || e.Increment? || e.Record? || e.Enrol?)
    ensures var (x, x', db, db') := (s.handlers[e.h], Next(s, e).handlers[e.h], s.db, Next(s, e).db);
      && (e.Count? ==> db' == db)
      && (e.Count? && e.ok && (x.id, x.pubkey) in db.redemptions ==> x' == Finished(AlreadyRedeemed))
      && (e.Count? && !(e.ok && (x.id, x.pubkey) in db.redemptions) ==> x' == Cleared(x.id, x.pubkey, x.now))
      && (e.Increment? && e.ok && x.id in db.invites && Open(db.invites[x.id], x.now) ==>
            && x' == Spent(x.id, x.pubkey) && db'.redemptions == db.redemptions && db'.members == db.members
            && OnlyInvite(db, db', x.id) && db'.invites[x.id] == db.invites[x.id].(uses := db.invites[x.id].uses + 1))
      && (e.Increment? && !(e.ok && x.id in db.invites && Open(db.invites[x.id], x.now)) ==>
            db' == db && x' == Finished(if e.ok then Refused(Used) else Failed))
      && (e.Record? ==>
            && x' == Recorded(x.id, x.pubkey) && db'.invites == db.invites && db'.members == db.members
            && db'.redemptions == db.redemptions + if e.ok then {(x.id, x.pubkey)} else {})
      && (e.Enrol? ==>
            && x' == Finished(Redeemed(x.id)) && db'.invites == db.invites && db'.redemptions == db.redemptions
            && (!e.ok ==> db'.members == db.members)
            && (e.ok ==> OnlyMember(db, db', x.pubkey) && db'.members[x.pubkey] == x.id))
  {
  }

  /** A revocation: who may, what the answer is, and the one row it stamps. */
  lemma RevocationSteps(s: State, e: Event)
    requires Enabled(s, e) && (e.RevokeLoad? || e.RevokeWrite?)
    ensures var (x, x', db, db') := (s.handlers[e.h], Next(s, e).handlers[e.h], s.db, Next(s, e).db);
      && (e.RevokeLoad? ==> db' == db)
      && (e.RevokeLoad? && e.found == None ==> x' == Finished(NotFound))
      && (e.RevokeLoad? && e.found != None ==>
            var row := db.invites[e.found.value];
            x' == if row.issuedBy != x.caller && !e.admin then Finished(NotAuthorised)
                  else if row.revokedAt != None then Finished(AlreadyRevoked)
                  else RevokeLoaded(x.key, e.found.value, e.now))
      && (e.RevokeWrite? ==>
            && x' == Finished(if e.ok then RevokedNow(x.id) else Failed)
            && db'.redemptions == db.redemptions && db'.members == db.members
            && (!e.ok || x.key !in db.invites ==> db' == db)
            && (e.ok && x.key in db.invites ==>
                  OnlyInvite(db, db', x.key) && db'.invites[x.key] == db.invites[x.key].(revokedAt := Some(x.now))))
  {
  }

  /** The events of such a handler, as far as it gets. */
  function SoloEvents(db: Db, h: nat, found: Option<string>, pubkey: string, now: int): (es: seq<Event>)
    requires found.Some? ==> found.value in db.invites
  {
    var load := [Load(h, found, now)];
    match RedeemAlone(db, found, pubkey, now).1
    case AlreadyRedeemed => load + [Count(h, true)]
    case Redeemed(_) => load + [Count(h, true), Increment(h, true), Record(h, true), Enrol(h, true)]
    case _ => load
  }

  /** The protocol, run by one handler without interruption, computes `RedeemAlone`. */
  lemma SoloRun(s: State, h: nat, found: Option<string>, now: int) returns (s': State)
    requires Enabled(s, Load(h, found, now))
    ensures var pubkey := s.handlers[h].pubkey;
      Leads(s, SoloEvents(s.db, h, found, pubkey, now), s') &&
      h in s'.handlers && (s'.db, s'.handlers[h]) ==
        (RedeemAlone(s.db, found, pubkey, now).0, Finished(RedeemAlone(s.db, found, pubkey, now).1))
  {
    var pubkey := s.handlers[h].pubkey;
    var load, count, increment, record, enrol :=
      Load(h, found, now), Count(h, true), Increment(h, true), Record(h, true), Enrol(h, true);
    var s1 := Next(s, load);
    hide Leads;
    match RedeemAlone(s.db, found, pubkey, now).1 {
      case AlreadyRedeemed =>
        s' := Next(s1, count);
        NoSteps(s');
        LeadsBack(s1, count, [], s');
        LeadsBack(s, load, [count], s');
      case Redeemed(id) =>
        var s2 := Next(s1, count);
        s' := SoloTail(s2, h);
        LeadsBack(s1, count, [increment, record, enrol], s');
        LeadsBack(s, load, [count, increment, record, enrol], s');
      case _ =>
        s' := s1;
        NoSteps(s');
        LeadsBack(s, load, [], s');
    }
  }

  lemma SoloTail(s: State, h: nat) returns (s': State)
    requires h in s.handlers && s.handlers[h].Cleared? && IncrementUses(s.db, s.handlers[h].id, s.handlers[h].now).1
    ensures Leads(s, [Increment(h, true), Record(h, true), Enrol(h, true)], s')
    ensures var Cleared(id, pubkey, now) := s.handlers[h];
      h in s'.handlers && s'.handlers[h] == Finished(Redeemed(id)) &&
      s'.db == UpsertMember(InsertRedemption(IncrementUses(s.db, id, now).0, id, pubkey), id, pubkey)
  {
    var increment, record, enrol := Increment(h, true), Record(h, true), Enrol(h, true);
    var s3 := Next(s, increment);
    var s4 := Next(s3, record);
    s' := Next(s4, enrol);
    NoSteps(s');
    hide Leads;
    LeadsBack(s4, enrol, [], s');
    LeadsBack(s3, record, [enrol], s');
    LeadsBack(s, increment, [record, enrol], s');
  }

  /**
   * Whatever else has happened since: a recorded redeemer's next call changes nothing, and succeeds
   * exactly while the invite is active, because it is classified before the earlier redemption is
   * looked up.
   */
  lemma RedeemingAgain(db: Db, id: string, pubkey: string, now: int)
    requires id in db.invites && (id, pubkey) in db.redemptions && db.invites[id].issuedBy != pubkey
    ensures var standing := Classify(db.invites[id], now);
      RedeemAlone(db, Some(id), pubkey, now) == (db, if standing == Active then AlreadyRedeemed else Refused(standing))
  {
  }

  /** Over runs: from the moment a redemption is recorded, at any later state and time. */
  lemma RecordedRedeemerReturns(states: seq<State>, events: seq<Event>, i: nat, j: nat, id: string, pubkey: string,
      now: int)
    requires Run(states, events) && i <= j < |states| && (id, pubkey) in states[i].db.redemptions
    ensures var db := states[j].db;
      id in states[i].db.invites && id in db.invites && var (db', outcome) := RedeemAlone(db, Some(id), pubkey, now);
      db' == db && (outcome == AlreadyRedeemed <==> Classify(db.invites[id], now) == Active) &&
      (states[i].db.invites[id].revokedAt.Some? ==> outcome == Refused(Revoked))
  {
    RunKeepsInv(states, events, i);
    RunKeepsInv(states, events, j);
    assert (id, pubkey) in states[i].db.redemptions;
    UsesOverTime(states, events, i, j, id);
    RunEvolves(states, events, i, j);
    assert (id, pubkey) in states[j].db.redemptions;
    RedeemingAgain(states[j].db, id, pubkey, now);
  }

  /**
   * "The same pubkey redeeming the same code twice", with nothing in between but time: the second call
   * succeeds exactly if a use was left over and the invite has not expired meanwhile.
   */
  lemma RedeemingTwice(db: Db, id: string, pubkey: string, now: int, again: int)
    requires id in db.invites
    requires RedeemAlone(db, Some(id), pubkey, now).1 == Redeemed(id)
    ensures var once := RedeemAlone(db, Some(id), pubkey, now).0;
      var (twice, outcome) := RedeemAlone(once, Some(id), pubkey, again);
      var row := db.invites[id];
      twice == once && once.invites[id].uses == row.uses + 1 &&
      (outcome == AlreadyRedeemed <==> row.uses + 1 < row.maxUses && again < row.expiresAt) &&
      (outcome == Refused(Used) <==> row.uses + 1 == row.maxUses && again < row.expiresAt) &&
      (outcome == Refused(Expired) <==> row.expiresAt <= again)
  {
  }

  // -------------------------------------------------------------------------
  // The issuer's key, whatever its spelling
  // -------------------------------------------------------------------------

  /** A NIP-98 token may spell its key in capitals; these events bring none that does. */
  predicate InLowerCase(e: Event) {
    (e.Create? ==> e.invite.issuedBy == Lower(e.invite.issuedBy)) &&
    (e.Arrive? && e.request.Redeeming? ==> e.request.pubkey == Lower(e.request.pubkey))
  }

  predicate Redeems(x: Handler) {
    x.Redeeming? || x.Loaded? || x.Cleared? || x.Spent? || x.Recorded?
  }

  ghost predicate AllLower(s: State) {
    (forall id <- s.db.invites :: s.db.invites[id].issuedBy == Lower(s.db.invites[id].issuedBy)) &&
    (forall h <- s.handlers :: Redeems(s.handlers[h]) ==> s.handlers[h].pubkey == Lower(s.handlers[h].pubkey)) &&
    (forall r <- s.db.redemptions :: r.1 == Lower(r.1))
  }

  lemma LowerHandlers(s: State, e: Event)
    requires Enabled(s, e) && AllLower(s) && InLowerCase(e)
    ensures forall h <- Next(s, e).handlers :: Redeems(Next(s, e).handlers[h]) ==> Next(s, e).handlers[h].pubkey == Lower(Next(s, e).handlers[h].pubkey)
  {
    hide Lower, Classify, IncrementUses, SetRevoked;
  }

  lemma LowerTables(s: State, e: Event)
    requires Enabled(s, e) && AllLower(s) && InLowerCase(e)
    ensures forall id <- Next(s, e).db.invites :: Next(s, e).db.invites[id].issuedBy == Lower(Next(s, e).db.invites[id].issuedBy)
    ensures forall r <- Next(s, e).db.redemptions :: r.1 == Lower(r.1)
  {
    hide Lower, Classify, AfterLoad, AfterRevokeLoad;
  }

  lemma LowerKept(s: State, e: Event)
    requires Enabled(s, e) && AllLower(s) && InLowerCase(e)
    ensures AllLower(Next(s, e))
  {
    hide Next, Enabled, Lower;
    LowerHandlers(s, e);
    LowerTables(s, e);
  }

  lemma {:induction false} RunKeepsLower(states: seq<State>, events: seq<Event>, i: nat)
    requires Run(states, events) && i < |states| && forall k :: 0 <= k < i ==> InLowerCase(events[k])
    ensures AllLower(states[i])
  {
    hide Next, Enabled;
    if i > 0 {
      RunKeepsLower(states, events, i - 1);
      LowerKept(states[i - 1], events[i - 1]);
    }
  }

  /** While tokens spell keys in lower case, no issuer's key redeems its own invite. */
  lemma IssuerKeyNeverRedeems(states: seq<State>, events: seq<Event>, i: nat, id: string, pubkey: string)
    requires Run(states, events) && i < |states| && forall k :: 0 <= k < i ==> InLowerCase(events[k])
    requires (id, pubkey) in states[i].db.redemptions
    ensures id in states[i].db.invites && Lower(pubkey) != Lower(states[i].db.invites[id].issuedBy)
  {
    RunKeepsInv(states, events, i);
    RunKeepsLower(states, events, i);
    assert (id, pubkey) in states[i].db.redemptions;
  }

  /** The guard compares spellings: the issuer's key is turned away exactly in the spelling on record. */
  lemma OwnInviteIff(db: Db, id: string, pubkey: string, now: int)
    requires id in db.invites && Classify(db.invites[id], now) == Active
    requires Lower(pubkey) == Lower(db.invites[id].issuedBy) && (id, pubkey) !in db.redemptions
    ensures var outcome := RedeemAlone(db, Some(id), pubkey, now).1;
      (outcome == OwnInvite <==> pubkey == db.invites[id].issuedBy) &&
      (outcome == Redeemed(id) <==> pubkey != db.invites[id].issuedBy)
  {
  }

  /** And in capitals it does redeem: from the empty database, with nothing interleaving. */
  lemma IssuerInCapitalsRedeems(row: Invite, capitals: string, now: int) returns (s: State)
    requires |row.code| == CODE_LENGTH && 1 <= row.maxUses <= 100 && row.uses == 0 && row.revokedAt.None?
    requires row.expiresAt > now && Lower(capitals) == Lower(row.issuedBy) && capitals != row.issuedBy
    ensures Leads(EMPTY, [Create("12345678", row), Arrive(1, Redeeming(row.code, capitals)), Load(1, Some("12345678"), now),
                          Count(1, true), Increment(1, true), Record(1, true), Enrol(1, true)], s)
    ensures s.db.invites.Keys == {"12345678"} && s.db.invites["12345678"].issuedBy == row.issuedBy
    ensures ("12345678", capitals) in s.db.redemptions
  {
    var id, request := "12345678", Redeeming(row.code, capitals);
    var s1 := State(Db(map[id := row], {}, map[]), map[], map[]);
    var s2 := s1.(handlers := map[1 := request]);
    assert Enabled(s2, Load(1, Some(id), now));
    s := SoloRun(s2, 1, Some(id), now);
    var solo := [Load(1, Some(id), now), Count(1, true), Increment(1, true), Record(1, true), Enrol(1, true)];
    assert SoloEvents(s2.db, 1, Some(id), capitals, now) == solo;
    hide Leads;
    LeadsBack(s1, Arrive(1, request), solo, s);
    LeadsBack(EMPTY, Create(id, row), [Arrive(1, request)] + solo, s);
    assert [Create(id, row)] + ([Arrive(1, request)] + solo) == [Create(id, row), Arrive(1, request)] + solo;
  }

  // -------------------------------------------------------------------------
  // One redemption per key?
  // -------------------------------------------------------------------------

  /** Redemptions are recorded by spelling: a key on record redeems again, in another one, while the invite is active. */
  lemma OtherSpellingRedeemsIff(db: Db, id: string, pubkey: string, other: string, now: int)
    requires id in db.invites && (id, pubkey) in db.redemptions
    requires Lower(other) == Lower(pubkey) && (id, other) !in db.redemptions && other != db.invites[id].issuedBy
    ensures RedeemAlone(db, Some(id), other, now).1 == Redeemed(id) <==> Classify(db.invites[id], now) == Active
  {
  }

  ghost predicate KeysRedeemOnce(db: Db) {
    forall a, b :: a in db.redemptions && b in db.redemptions && a.0 == b.0 && Lower(a.1) == Lower(b.1) ==> a == b
  }

  /** A record statement that leaves no second row of its key. */
  ghost predicate RecordsNewKey(s: State, e: Event)
    requires Enabled(s, e)
  {
    e.Record? && e.ok ==>
      forall r <- s.db.redemptions :: r.0 == s.handlers[e.h].id && Lower(r.1) == Lower(s.handlers[e.h].pubkey) ==>
        r.1 == s.handlers[e.h].pubkey
  }

  lemma KeysRedeemOnceStep(s: State, e: Event)
    requires Enabled(s, e)
    ensures KeysRedeemOnce(Next(s, e).db) <==> KeysRedeemOnce(s.db) && RecordsNewKey(s, e)
  {
    hide Lower, Classify;
    if e.Record? && e.ok {
      var x := s.handlers[e.h];
      assert (x.id, x.pubkey) in Next(s, e).db.redemptions;
      assert forall r :: r in s.db.redemptions ==> r in Next(s, e).db.redemptions;
    } else {
      assert Next(s, e).db.redemptions == s.db.redemptions;
    }
  }

  /** In any run each key has redeemed each invite at most once exactly if no record so far met its key in another spelling. */
  lemma {:induction false} KeysRedeemOnceIff(states: seq<State>, events: seq<Event>, i: nat)
    requires Run(states, events) && i < |states|
    ensures KeysRedeemOnce(states[i].db) <==> forall k :: 0 <= k < i ==> RecordsNewKey(states[k], events[k])
  {
    hide Next, Enabled, KeysRedeemOnce, RecordsNewKey;
    if i > 0 {
      KeysRedeemOnceIff(states, events, i - 1);
      KeysRedeemOnceStep(states[i - 1], events[i - 1]);
    } else {
      NobodyRedeemedYet();
    }
  }

  lemma NobodyRedeemedYet()
    ensures KeysRedeemOnce(EMPTY.db)
  {
  }
}
