/**
 * Zone-cohort grants racing with username-claim inserts on the shared whitelist
 * (`grant_zone_cohorts` in `invites.rs`, the insert in `username.rs`, `zone_approval.rs`).
 */
module ZoneGrant {
  import opened Results
  import opened Sequences
  import opened Texts

  const MEMBERS := "members"

  // -------------------------------------------------------------------------
  // Building cohort lists
  // -------------------------------------------------------------------------

  predicate NoRepeats(s: seq<string>) {
    forall i, j :: 0 <= i < j < |s| ==> s[i] != s[j]
  }

  /** `merge_cohorts_json`, past its JSON: an unreadable column (`None`) counts as empty. */
  method MergeCohorts(existing: Option<seq<string>>, add: seq<string>) returns (cohorts: seq<string>)
    ensures var held := if existing.Some? then existing.value else [];
      held <= cohorts && Elements(cohorts) == Elements(held) + Elements(add) &&
      NoRepeats(cohorts[|held|..]) && (forall c <- cohorts[|held|..] :: c !in held)
  {
    ghost var held := if existing.Some? then existing.value else [];
    cohorts := if existing.Some? then existing.value else [];
    for i := 0 to |add|
      invariant held <= cohorts && Elements(cohorts) == Elements(held) + Elements(add[..i])
      invariant NoRepeats(cohorts[|held|..]) && forall c <- cohorts[|held|..] :: c !in held
    {
      assert Elements(add[..i + 1]) == Elements(add[..i]) + {add[i]};
      if add[i] !in cohorts {
        ghost var before := cohorts;
        cohorts := cohorts + [add[i]];
        assert cohorts[|held|..] == before[|held|..] + [add[i]];
        assert Elements(cohorts) == Elements(before) + {add[i]};
      }
    }
    assert add[..|add|] == add;
  }

  datatype Zone = Zone(requiredCohorts: seq<string>, autoApprove: bool)

  /** The cohorts of every zone that admits new joiners on its own. */
  function ApprovedCohorts(zones: seq<Zone>): (e: set<string>) {
    set z, c | z in zones && z.autoApprove && c in z.requiredCohorts :: c
  }

  lemma OneMoreZone(zones: seq<Zone>, i: nat)
    requires i < |zones|
    ensures ApprovedCohorts(zones[..i + 1]) ==
      ApprovedCohorts(zones[..i]) + if zones[i].autoApprove then Elements(zones[i].requiredCohorts) else {}
  {
    assert zones[..i + 1] == zones[..i] + [zones[i]];
  }

  lemma NoZones()
    ensures ApprovedCohorts([]) == {}
  {
  }

  /** `new_joiner_cohorts_json`; `None` is an absent or malformed zone configuration. */
  method NewJoinerCohorts(zones: Option<seq<Zone>>) returns (cohorts: seq<string>)
    ensures |cohorts| > 0 && cohorts[0] == "members" && NoRepeats(cohorts)
    ensures Elements(cohorts) == {"members"} + if zones.Some? then ApprovedCohorts(zones.value) else {}
  {
    hide ApprovedCohorts;
    cohorts := [MEMBERS];
    if zones.None? {
      return;
    }
    var zs := zones.value;
    NoZones();
    for i := 0 to |zs|
      invariant |cohorts| > 0 && cohorts[0] == MEMBERS && NoRepeats(cohorts)
      invariant Elements(cohorts) == {MEMBERS} + ApprovedCohorts(zs[..i])
    {
      OneMoreZone(zs, i);
      if zs[i].autoApprove {
        var add := zs[i].requiredCohorts;
        ghost var before := Elements(cohorts);
        for j := 0 to |add|
          invariant |cohorts| > 0 && cohorts[0] == MEMBERS && NoRepeats(cohorts)
          invariant Elements(cohorts) == before + Elements(add[..j])
        {
          assert Elements(add[..j + 1]) == Elements(add[..j]) + {add[j]};
          if add[j] !in cohorts {
            ghost var shorter := cohorts;
            cohorts := cohorts + [add[j]];
            assert Elements(cohorts) == Elements(shorter) + {add[j]};
          }
        }
        assert add[..|add|] == add;
      }
    }
    assert zs[..|zs|] == zs;
  }

  // -------------------------------------------------------------------------
  // The whitelist and its statements
  // -------------------------------------------------------------------------

  /** A cohort column: unreadable text, or the values of a JSON array (SQLite decides their order). */
  datatype Column = Malformed | Json(values: set<string>)

  type Whitelist = map<string, Column>

  function Values(c: Column): (v: set<string>) {
    if c.Malformed? then {} else c.values
  }

  /** `INSERT ... ON CONFLICT (pubkey) DO NOTHING`. */
  function InsertRow(w: Whitelist, pubkey: string, cohorts: set<string>): (w': Whitelist) {
    if pubkey in w then w else w[pubkey := Json(cohorts)]
  }

  /** `SQL_MERGE_COHORTS`: the union of the readable column and the new cohorts, where a row exists. */
  function MergeRow(w: Whitelist, pubkey: string, cohorts: set<string>): (w': Whitelist) {
    if pubkey in w then w[pubkey := Json(Values(w[pubkey]) + cohorts)] else w
  }

  // -------------------------------------------------------------------------
  // The protocol
  // -------------------------------------------------------------------------

  /**
   * `grant_zone_cohorts` runs Grant, Ensured, Merged; a username claim runs Claim, Claimed.
   * `won` says that the handler's insert created the row, `merged` that its update reached one.
   */
  datatype Handler =
    | Grant(pubkey: string, zone: seq<string>)
    | Ensured(pubkey: string, zone: seq<string>, won: bool)
    | Merged(pubkey: string, zone: seq<string>, won: bool, merged: bool)
    | Claim(pubkey: string, joiner: set<string>)
    | Claimed(pubkey: string, joiner: set<string>, won: bool)

  datatype State = State(table: Whitelist, handlers: map<nat, Handler>)

  datatype Event =
    | Arrive(h: nat, request: Handler)
    | Ensure(h: nat, ok: bool)
    | Merge(h: nat, ok: bool)
    | ClaimInsert(h: nat, ok: bool)

  function Seeded(zone: seq<string>): (s: set<string>) {
    {MEMBERS} + Elements(zone)
  }

  predicate Enabled(s: State, e: Event) {
    match e
    case Arrive(h, request) =>
      h !in s.handlers && ((request.Grant? && request.zone != []) || (request.Claim? && MEMBERS in request.joiner))
    case Ensure(h, _) => h in s.handlers && s.handlers[h].Grant?
    case Merge(h, _) => h in s.handlers && s.handlers[h].Ensured?
    case ClaimInsert(h, _) => h in s.handlers && s.handlers[h].Claim?
  }

  function Next(s: State, e: Event): (s': State)
    requires Enabled(s, e)
  {
    match e
    case Arrive(h, request) => s.(handlers := s.handlers[h := request])
    case Ensure(h, ok) =>
      var Grant(pubkey, zone) := s.handlers[h];
      State(if ok then InsertRow(s.table, pubkey, Seeded(zone)) else s.table,
            s.handlers[h := Ensured(pubkey, zone, ok && pubkey !in s.table)])
    case Merge(h, ok) =>
      var Ensured(pubkey, zone, won) := s.handlers[h];
      State(if ok then MergeRow(s.table, pubkey, Seeded(zone)) else s.table,
            s.handlers[h := Merged(pubkey, zone, won, ok && pubkey in s.table)])
    case ClaimInsert(h, ok) =>
      var Claim(pubkey, joiner) := s.handlers[h];
      State(if ok then InsertRow(s.table, pubkey, joiner) else s.table,
            s.handlers[h := Claimed(pubkey, joiner, ok && pubkey !in s.table)])
  }

  predicate Succeeds(e: Event) {
    e.Arrive? || e.ok
  }

  /** All rows but one are as they were. */
  ghost predicate OnlyRow(w: Whitelist, w': Whitelist, pubkey: string) {
    forall p :: p != pubkey ==> (p in w' <==> p in w) && (p in w ==> w'[p] == w[p])
  }

  /**
   * Each statement, over the table: an insert writes only where there is no row, a merge adds only where there
   * is one, and what a grant writes is "members" and the zone's cohorts.
   */
  lemma GrantSteps(s: State, e: Event)
    requires Enabled(s, e) && !e.Arrive?
    ensures var (x, w, w') := (s.handlers[e.h], s.table, Next(s, e).table);
      var (row, given) := (x.pubkey in w, if e.ClaimInsert? then x.joiner else Elements(x.zone) + {"members"});
      && OnlyRow(w, w', x.pubkey)
      && (!e.ok ==> w' == w)
      && (e.ok && !e.Merge? && row ==> w' == w)
      && (e.ok && !e.Merge? && !row ==> x.pubkey in w' && w'[x.pubkey] == Json(given))
      && (e.ok && e.Merge? && !row ==> w' == w)
      && (e.ok && e.Merge? && row ==>
            x.pubkey in w' && w'[x.pubkey] == Json(given + if w[x.pubkey].Json? then w[x.pubkey].values else {}))
      && Next(s, e).handlers == s.handlers[e.h :=
           match e
           case Ensure(_, ok) => Ensured(x.pubkey, x.zone, ok && !row)
           case Merge(_, ok) => Merged(x.pubkey, x.zone, x.won, ok && row)
           case ClaimInsert(_, ok) => Claimed(x.pubkey, x.joiner, ok && !row)]
  {
  }

  // -------------------------------------------------------------------------
  // Rows only grow
  // -------------------------------------------------------------------------

  predicate Grows(w: Whitelist, w': Whitelist) {
    forall p <- w :: p in w' && Values(w[p]) <= Values(w'[p])
  }

  lemma StepGrows(s: State, e: Event)
    requires Enabled(s, e)
    ensures Grows(s.table, Next(s, e).table)
  {
  }

  /** A run from any table, with no handlers under way. */
  ghost predicate Run(states: seq<State>, events: seq<Event>) {
    |states| == |events| + 1 && states[0].handlers == map[] &&
    forall i :: 0 <= i < |events| ==> Enabled(states[i], events[i]) && states[i + 1] == Next(states[i], events[i])
  }

  lemma {:induction false} RunGrows(states: seq<State>, events: seq<Event>, i: nat, j: nat)
    requires Run(states, events) && i <= j < |states|
    ensures Grows(states[i].table, states[j].table)
    decreases j
  {
    if i < j {
      RunGrows(states, events, i, j - 1);
      StepGrows(states[j - 1], events[j - 1]);
    }
  }

  lemma {:induction false} RequestKept(states: seq<State>, events: seq<Event>, i: nat, j: nat, h: nat)
    requires Run(states, events) && i <= j < |states| && h in states[i].handlers && !states[i].handlers[h].Grant?
    ensures h in states[j].handlers && states[j].handlers[h].pubkey == states[i].handlers[h].pubkey
    ensures states[i].handlers[h].Ensured? ==>
      (states[j].handlers[h].Ensured? || states[j].handlers[h].Merged?) && states[j].handlers[h].zone == states[i].handlers[h].zone
    ensures states[i].handlers[h].Claimed? ==> states[j].handlers[h] == states[i].handlers[h]
    decreases j
  {
    if i < j {
      RequestKept(states, events, i, j - 1, h);
    }
  }

  /**
   * The grant lands: once its merge has run on an existing row, and ever after, the row holds `members`,
   * the zone's cohorts and everything it held at any earlier moment, whatever ran in between.
   */
  lemma GrantLands(states: seq<State>, events: seq<Event>, j: nat, k: nat, h: nat)
    requires Run(states, events) && j < k < |states|
    requires events[j] == Merge(h, true) && states[j].handlers[h].pubkey in states[j].table
    ensures var Ensured(pubkey, zone, _) := states[j].handlers[h];
      pubkey in states[k].table && states[k].table[pubkey].Json? &&
      MEMBERS in states[k].table[pubkey].values && Elements(zone) <= states[k].table[pubkey].values &&
      forall m :: 0 <= m <= k && pubkey in states[m].table ==> Values(states[m].table[pubkey]) <= states[k].table[pubkey].values
  {
    var Ensured(pubkey, zone, _) := states[j].handlers[h];
    RunGrows(states, events, j + 1, k);
    assert MEMBERS in Values(states[j + 1].table[pubkey]);
    assert Values(states[j + 1].table[pubkey]) <= Values(states[k].table[pubkey]);
    forall m | 0 <= m <= k && pubkey in states[m].table
      ensures Values(states[m].table[pubkey]) <= states[k].table[pubkey].values
    {
      RunGrows(states, events, m, k);
    }
  }

  /** There is such a row if the grant's own ensure went through: so both statements together always land. */
  lemma EnsuredGrantLands(states: seq<State>, events: seq<Event>, i: nat, j: nat, k: nat, h: nat)
    requires Run(states, events) && i < j < k < |states|
    requires events[i] == Ensure(h, true) && events[j] == Merge(h, true)
    ensures var Grant(pubkey, zone) := states[i].handlers[h];
      pubkey in states[k].table && states[k].table[pubkey].Json? &&
      MEMBERS in states[k].table[pubkey].values && Elements(zone) <= states[k].table[pubkey].values &&
      forall m :: 0 <= m <= k && pubkey in states[m].table ==> Values(states[m].table[pubkey]) <= states[k].table[pubkey].values
  {
    RequestKept(states, events, i + 1, j, h);
    RunGrows(states, events, i + 1, j);
    GrantLands(states, events, j, k, h);
  }

  /** And otherwise: a merge leaves its cohorts in a row exactly if it runs on one, or they were there already. */
  lemma MergeLandsIff(s: State, h: nat, ok: bool)
    requires Enabled(s, Merge(h, ok))
    ensures var (x, s') := (s.handlers[h], Next(s, Merge(h, ok)));
      x.pubkey in s'.table && Seeded(x.zone) <= Values(s'.table[x.pubkey]) <==>
        x.pubkey in s.table && (ok || Seeded(x.zone) <= Values(s.table[x.pubkey]))
  {
  }

  // -------------------------------------------------------------------------
  // What a row holds in the end
  // -------------------------------------------------------------------------

  /** The handler has put its cohorts into the row. */
  predicate Gave(x: Handler) {
    (x.Ensured? && x.won) || (x.Merged? && (x.won || x.merged)) || (x.Claimed? && x.won)
  }

  predicate Won(x: Handler) {
    (x.Ensured? || x.Merged? || x.Claimed?) && x.won
  }

  function Cohorts(x: Handler): (s: set<string>) {
    if x.Claim? || x.Claimed? then x.joiner else Seeded(x.zone)
  }

  ghost predicate From(s: State, pubkey: string, c: string) {
    exists h <- s.handlers :: s.handlers[h].pubkey == pubkey && Gave(s.handlers[h]) && c in Cohorts(s.handlers[h])
  }

  /** A row's values are the ones it started with and those its handlers gave, and no others. */
  ghost predicate Accounted(start: Whitelist, s: State) {
    (forall p :: p in s.table <==> p in start || exists h <- s.handlers :: s.handlers[h].pubkey == p && Won(s.handlers[h])) &&
    (forall h <- s.handlers :: Won(s.handlers[h]) ==> s.handlers[h].pubkey !in start) &&
    (forall h <- s.handlers :: Gave(s.handlers[h]) ==> s.handlers[h].pubkey in s.table) &&
    (forall p <- s.table, c :: c in Values(s.table[p]) <==> (p in start && c in Values(start[p])) || From(s, p, c))
  }

  /** What the acting handler gives a row in this step. */
  predicate GivesNow(s: State, e: Event, pubkey: string, c: string)
    requires Enabled(s, e)
  {
    !e.Arrive? && Next(s, e).handlers[e.h].pubkey == pubkey && Gave(Next(s, e).handlers[e.h]) &&
    c in Cohorts(Next(s, e).handlers[e.h])
  }

  lemma FromAfter(s: State, e: Event, pubkey: string, c: string)
    requires Enabled(s, e)
    ensures From(Next(s, e), pubkey, c) <==> From(s, pubkey, c) || GivesNow(s, e, pubkey, c)
  {
    var s' := Next(s, e);
    if From(s, pubkey, c) {
      var h :| h in s.handlers && s.handlers[h].pubkey == pubkey && Gave(s.handlers[h]) && c in Cohorts(s.handlers[h]);
      assert s'.handlers[h].pubkey == pubkey && Gave(s'.handlers[h]) && Cohorts(s'.handlers[h]) == Cohorts(s.handlers[h]);
    }
    if From(s', pubkey, c) {
      var h :| h in s'.handlers && s'.handlers[h].pubkey == pubkey && Gave(s'.handlers[h]) && c in Cohorts(s'.handlers[h]);
    }
  }

  /** One statement changes a row by exactly what its handler gives it. */
  lemma RowAfter(s: State, e: Event, p: string, c: string)
    requires Enabled(s, e) && p in Next(s, e).table
    ensures c in Values(Next(s, e).table[p]) <==>
      (p in s.table && c in Values(s.table[p])) || (GivesNow(s, e, p, c) && e.ok)
    ensures p !in s.table ==> !e.Arrive? && Won(Next(s, e).handlers[e.h]) && Next(s, e).handlers[e.h].pubkey == p
  {
  }

  lemma ValueKept(start: Whitelist, s: State, e: Event, p: string, c: string)
    requires Accounted(start, s) && Enabled(s, e) && p in Next(s, e).table
    ensures c in Values(Next(s, e).table[p]) <==> (p in start && c in Values(start[p])) || From(Next(s, e), p, c)
  {
    FromAfter(s, e, p, c);
    RowAfter(s, e, p, c);
    if GivesNow(s, e, p, c) && !e.ok {
      assert Gave(s.handlers[e.h]);
    }
  }

  lemma OriginKept(start: Whitelist, s: State, e: Event, p: string)
    requires Accounted(start, s) && Enabled(s, e) && p in Next(s, e).table
    ensures p in start || exists h <- Next(s, e).handlers :: Next(s, e).handlers[h].pubkey == p && Won(Next(s, e).handlers[h])
  {
    hide From, Values;
    RowAfter(s, e, p, "");
    if p in s.table && p !in start {
      var h :| h in s.handlers && s.handlers[h].pubkey == p && Won(s.handlers[h]);
      assert Won(Next(s, e).handlers[h]);
    }
  }

  lemma GiversKept(start: Whitelist, s: State, e: Event)
    requires Accounted(start, s) && Enabled(s, e)
    ensures var s' := Next(s, e);
      (forall h <- s'.handlers :: (Won(s'.handlers[h]) ==> s'.handlers[h].pubkey !in start) &&
                                  (Gave(s'.handlers[h]) ==> s'.handlers[h].pubkey in s'.table)) &&
      forall p <- start :: p in s'.table
  {
    hide From, Values;
  }

  lemma AccountedKept(start: Whitelist, s: State, e: Event)
    requires Accounted(start, s) && Enabled(s, e)
    ensures Accounted(start, Next(s, e))
  {
    hide From, Values, Next, Gave, Won, Enabled;
    var s' := Next(s, e);
    forall p, c | p in s'.table
      ensures c in Values(s'.table[p]) <==> (p in start && c in Values(start[p])) || From(s', p, c)
    {
      ValueKept(start, s, e, p, c);
    }
    forall p | p in s'.table
      ensures p in start || exists h <- s'.handlers :: s'.handlers[h].pubkey == p && Won(s'.handlers[h])
    {
      OriginKept(start, s, e, p);
    }
    GiversKept(start, s, e);
    forall h | h in s'.handlers && Won(s'.handlers[h]) ensures s'.handlers[h].pubkey in s'.table {
      WonGave(s'.handlers[h]);
    }
  }

  lemma WonGave(x: Handler)
    requires Won(x)
    ensures Gave(x)
  {
  }

  lemma {:induction false} RunAccounted(states: seq<State>, events: seq<Event>, i: nat)
    requires Run(states, events) && i < |states|
    ensures Accounted(states[0].table, states[i])
  {
    if i > 0 {
      RunAccounted(states, events, i - 1);
      AccountedKept(states[0].table, states[i - 1], events[i - 1]);
    }
  }

  /** Every handler for this pubkey has run both, or its one, statement. */
  ghost predicate Complete(s: State, pubkey: string) {
    forall h <- s.handlers :: s.handlers[h].pubkey == pubkey ==> s.handlers[h].Merged? || s.handlers[h].Claimed?
  }

  function GrantedCohorts(s: State, pubkey: string): (cs: set<string>) {
    set h, c | h in s.handlers && s.handlers[h].pubkey == pubkey && s.handlers[h].Merged? && c in Cohorts(s.handlers[h]) :: c
  }

  /** The joiner cohorts of the claim, if any, whose insert created the row. */
  function ClaimedCohorts(s: State, pubkey: string): (cs: set<string>) {
    set h, c | h in s.handlers && s.handlers[h].pubkey == pubkey && s.handlers[h].Claimed? && s.handlers[h].won &&
               c in Cohorts(s.handlers[h]) :: c
  }

  ghost predicate AllMerged(s: State) {
    forall h <- s.handlers :: s.handlers[h].Merged? ==> s.handlers[h].merged
  }

  lemma {:induction false} GrantsReachTheirRow(states: seq<State>, events: seq<Event>, i: nat)
    requires Run(states, events) && i < |states| && forall e <- events :: Succeeds(e)
    ensures AllMerged(states[i])
    ensures forall h <- states[i].handlers :: states[i].handlers[h].Ensured? ==> states[i].handlers[h].pubkey in states[i].table
  {
    if i > 0 {
      GrantsReachTheirRow(states, events, i - 1);
      assert Succeeds(events[i - 1]);
      StepGrows(states[i - 1], events[i - 1]);
    }
  }

  /**
   * When every statement succeeded and nothing is under way, a row holds exactly what it started with,
   * the cohorts of every grant, and those of the claim that created it.
   */
  lemma FinalCohorts(states: seq<State>, events: seq<Event>, i: nat, pubkey: string)
    requires Run(states, events) && i < |states| && forall e <- events :: Succeeds(e)
    requires Complete(states[i], pubkey) && pubkey in states[i].table
    ensures var (start, s) := (states[0].table, states[i]);
      Values(s.table[pubkey]) ==
        (if pubkey in start then Values(start[pubkey]) else {}) + GrantedCohorts(s, pubkey) + ClaimedCohorts(s, pubkey)
  {
    RunAccounted(states, events, i);
    GrantsReachTheirRow(states, events, i);
    var s := states[i];
    forall c
      ensures From(s, pubkey, c) <==> c in GrantedCohorts(s, pubkey) + ClaimedCohorts(s, pubkey)
    {
    }
  }

  /** The same, cohort by cohort. */
  lemma FinalCohortIff(states: seq<State>, events: seq<Event>, i: nat, pubkey: string, c: string)
    requires Run(states, events) && i < |states| && forall e <- events :: Succeeds(e)
    requires Complete(states[i], pubkey) && pubkey in states[i].table
    ensures var (start, s) := (states[0].table, states[i]);
      c in Values(s.table[pubkey]) <==>
        || (pubkey in start && start[pubkey].Json? && c in start[pubkey].values)
        || (exists h <- s.handlers :: s.handlers[h].Merged? && s.handlers[h].pubkey == pubkey && (c == "members" || c in s.handlers[h].zone))
        || (exists h <- s.handlers :: s.handlers[h].Claimed? && s.handlers[h].won && s.handlers[h].pubkey == pubkey && c in s.handlers[h].joiner)
  {
    hide Run, Complete;
    FinalCohorts(states, events, i, pubkey);
    var s := states[i];
    if h :| h in s.handlers && s.handlers[h].Merged? && s.handlers[h].pubkey == pubkey && (c == "members" || c in s.handlers[h].zone) {
      assert c in Cohorts(s.handlers[h]);
    }
    if h :| h in s.handlers && s.handlers[h].Claimed? && s.handlers[h].won && s.handlers[h].pubkey == pubkey && c in s.handlers[h].joiner {
      assert c in Cohorts(s.handlers[h]);
    }
  }

  /** So the order of the grants does not matter: runs that grant the same cohorts end the same. */
  lemma GrantOrderDoesNotMatter(
    states1: seq<State>, events1: seq<Event>, i: nat, states2: seq<State>, events2: seq<Event>, j: nat, pubkey: string)
    requires Run(states1, events1) && i < |states1| && forall e <- events1 :: Succeeds(e)
    requires Run(states2, events2) && j < |states2| && forall e <- events2 :: Succeeds(e)
    requires Complete(states1[i], pubkey) && pubkey in states1[i].table
    requires Complete(states2[j], pubkey) && pubkey in states2[j].table
    requires states1[0].table == states2[0].table
    requires GrantedCohorts(states1[i], pubkey) == GrantedCohorts(states2[j], pubkey)
    requires ClaimedCohorts(states1[i], pubkey) == ClaimedCohorts(states2[j], pubkey)
    ensures Values(states1[i].table[pubkey]) == Values(states2[j].table[pubkey])
  {
    FinalCohorts(states1, events1, i, pubkey);
    FinalCohorts(states2, events2, j, pubkey);
  }

  /**
   * Only the grants are safe from the race. A claim's insert adds its joiner cohorts exactly when no row
   * is there yet; a grant that gets in first drops every auto-approved cohort it does not carry itself.
   */
  lemma ClaimLandsOnlyWithoutRow(s: State, h: nat)
    requires Enabled(s, ClaimInsert(h, true))
    ensures var (Claim(pubkey, joiner), s') := (s.handlers[h], Next(s, ClaimInsert(h, true)));
      pubkey in s'.table && (s'.handlers[h].won <==> pubkey !in s.table) &&
      (joiner <= Values(s'.table[pubkey]) <==> pubkey !in s.table || joiner <= Values(s.table[pubkey]))
  {
  }

  // -------------------------------------------------------------------------
  // Rows and keys
  // -------------------------------------------------------------------------

  /** The redeemer's pubkey is the spelling of its NIP-98 token, and rows of other spellings are left alone. */
  lemma OtherRowsKept(s: State, e: Event, p: string)
    requires Enabled(s, e) && (e.Arrive? || s.handlers[e.h].pubkey != p)
    ensures p in Next(s, e).table <==> p in s.table
    ensures p in s.table ==> Next(s, e).table[p] == s.table[p]
  {
  }

  /** In any run, a row that no grant and no claim spells out stays as it was. */
  lemma {:induction false} UnnamedRowsKept(states: seq<State>, events: seq<Event>, i: nat, p: string)
    requires Run(states, events) && i < |states|
    requires forall h <- states[i].handlers :: states[i].handlers[h].pubkey != p
    ensures p in states[i].table <==> p in states[0].table
    ensures p in states[0].table ==> states[i].table[p] == states[0].table[p]
  {
    if i > 0 {
      var s, e := states[i - 1], events[i - 1];
      forall h | h in s.handlers
        ensures s.handlers[h].pubkey != p
      {
        assert states[i] == Next(s, e);
        assert h in states[i].handlers && states[i].handlers[h].pubkey == s.handlers[h].pubkey;
      }
      OtherRowsKept(s, e, p);
      UnnamedRowsKept(states, events, i - 1, p);
    }
  }

  /**
   * So a merge leaves its cohorts in the row of the lower-cased key exactly if the token spelled the key in
   * lower case and the row is there, or the row held them already.
   */
  lemma KeyGainsIff(s: State, h: nat)
    requires Enabled(s, Merge(h, true))
    ensures var (x, s') := (s.handlers[h], Next(s, Merge(h, true)));
      var key := Lower(x.pubkey);
      key in s'.table && Seeded(x.zone) <= Values(s'.table[key]) <==>
        key in s.table && (x.pubkey == key || Seeded(x.zone) <= Values(s.table[key]))
  {
    hide Lower;
  }

  /** A redeemer in capitals: the grant runs undisturbed, and the row of the key itself gains nothing. */
  lemma CapitalGrantMissesTheKey(capitals: string, zone: seq<string>) returns (states: seq<State>, events: seq<Event>)
    requires capitals != Lower(capitals) && zone != []
    ensures var key := Lower(capitals);
      Run(states, events) && |states| == 4 && events[2] == Merge(1, true) &&
      states[0].table == map[key := Json({MEMBERS})] && states[3].handlers.Keys == {1} &&
      states[3].table == map[key := Json({MEMBERS}), capitals := Json(Seeded(zone))]
  {
    hide Lower;
    var start := map[Lower(capitals) := Json({MEMBERS})];
    events := [Arrive(1, Grant(capitals, zone)), Ensure(1, true), Merge(1, true)];
    var s0 := State(start, map[]);
    var s1 := Next(s0, events[0]);
    var s2 := Next(s1, events[1]);
    var s3 := Next(s2, events[2]);
    states := [s0, s1, s2, s3];
    assert Seeded(zone) + Seeded(zone) == Seeded(zone);
  }

  /** What was granted to a key, whatever the spelling. */
  function GrantedToKey(s: State, key: string): (cs: set<string>) {
    set h, c | h in s.handlers && Lower(s.handlers[h].pubkey) == key && s.handlers[h].Merged? && c in Cohorts(s.handlers[h]) :: c
  }

  /**
   * At the end of a run in which every statement succeeded, a key's row holds everything granted to the key
   * exactly if each cohort granted under another spelling was there from the start, or was also granted,
   * or claimed by the row's creator, in lower case.
   */
  lemma KeyGrantsLandIff(states: seq<State>, events: seq<Event>, i: nat, key: string)
    requires Run(states, events) && i < |states| && forall e <- events :: Succeeds(e)
    requires key == Lower(key) && Complete(states[i], key) && key in states[i].table
    ensures var (start, s) := (states[0].table, states[i]);
      GrantedToKey(s, key) <= Values(s.table[key]) <==>
        forall h <- s.handlers :: s.handlers[h].Merged? && Lower(s.handlers[h].pubkey) == key && s.handlers[h].pubkey != key ==>
          Cohorts(s.handlers[h]) <=
            (if key in start then Values(start[key]) else {}) + GrantedCohorts(s, key) + ClaimedCohorts(s, key)
  {
    hide Lower, Run, Values, Complete;
    FinalCohorts(states, events, i, key);
    var s := states[i];
    forall h | h in s.handlers && s.handlers[h].Merged? && s.handlers[h].pubkey == key
      ensures Cohorts(s.handlers[h]) <= GrantedCohorts(s, key)
    {
    }
  }

  /** So it does when redeemers authenticate in lower case. */
  lemma KeyGrantsLand(states: seq<State>, events: seq<Event>, i: nat, key: string)
    requires Run(states, events) && i < |states| && forall e <- events :: Succeeds(e)
    requires forall e <- events :: e.Arrive? ==> e.request.pubkey == Lower(e.request.pubkey)
    requires key == Lower(key) && Complete(states[i], key) && key in states[i].table
    ensures GrantedToKey(states[i], key) <= Values(states[i].table[key])
  {
    hide Lower, Values, GrantedToKey;
    KeyGrantsLandIff(states, events, i, key);
    HandlersLower(states, events, i);
  }

  lemma {:induction false} HandlersLower(states: seq<State>, events: seq<Event>, i: nat)
    requires Run(states, events) && i < |states|
    requires forall e <- events :: e.Arrive? ==> e.request.pubkey == Lower(e.request.pubkey)
    ensures forall h <- states[i].handlers :: states[i].handlers[h].pubkey == Lower(states[i].handlers[h].pubkey)
  {
    hide Lower, Seeded, InsertRow, MergeRow;
    if i > 0 {
      HandlersLower(states, events, i - 1);
      assert events[i - 1] in events;
    }
  }
}
