/**
 * Application receipts: the stage ladder of `governance.rs` and the read-plan-swap endpoint of
 * `governance_api.rs`, with any number of reporters racing on any receipts.
 */
module Receipts {
  import opened Results
  import opened Texts

  // -------------------------------------------------------------------------
  // The ladder
  // -------------------------------------------------------------------------

  datatype Stage =
    | Signed | RelayAccepted | ProjectionCommitted | ProjectionFailed | ConsumerReceived
    | Applied | NotApplied | AppliedManually | EscalatedOnAge | Expired

  function AsStr(stage: Stage): (s: string) {
    match stage
    case Signed => "signed"
    case RelayAccepted => "relay-accepted"
    case ProjectionCommitted => "projection-committed"
    case ProjectionFailed => "projection-failed"
    case ConsumerReceived => "consumer-received"
    case Applied => "applied"
    case NotApplied => "not-applied"
    case AppliedManually => "applied-manually"
    case EscalatedOnAge => "escalated-on-age"
    case Expired => "expired"
  }

  function ParseStage(s: string): (stage: Option<Stage>) {
    if s == "signed" then Some(Signed)
    else if s == "relay-accepted" then Some(RelayAccepted)
    else if s == "projection-committed" then Some(ProjectionCommitted)
    else if s == "projection-failed" then Some(ProjectionFailed)
    else if s == "consumer-received" then Some(ConsumerReceived)
    else if s == "applied" then Some(Applied)
    else if s == "not-applied" then Some(NotApplied)
    else if s == "applied-manually" then Some(AppliedManually)
    else if s == "escalated-on-age" then Some(EscalatedOnAge)
    else if s == "expired" then Some(Expired)
    else None
  }

  /** Stages and their stored texts correspond one to one. */
  lemma StageTextRoundTrip(stage: Stage, s: string)
    ensures ParseStage(s) == Some(stage) <==> s == AsStr(stage)
  {
    assert |AsStr(stage)| == match stage
      case Signed => 6 case RelayAccepted => 14 case ProjectionCommitted => 20 case ProjectionFailed => 17
      case ConsumerReceived => 17 case Applied => 7 case NotApplied => 11 case AppliedManually => 16
      case EscalatedOnAge => 16 case Expired => 7;
    assert "projection-failed"[0] != "consumer-received"[0];
    assert "applied-manually"[0] != "escalated-on-age"[0];
    assert "applied"[0] != "expired"[0];
  }

  function LadderRank(stage: Stage): (r: Option<nat>) {
    match stage
    case Signed => Some(0)
    case RelayAccepted => Some(1)
    case ProjectionCommitted => Some(2)
    case ConsumerReceived => Some(3)
    case Applied => Some(4)
    case NotApplied => Some(4)
    case AppliedManually => Some(4)
    case _ => None
  }

  predicate IsTerminal(stage: Stage) {
    stage.Applied? || stage.NotApplied? || stage.AppliedManually?
  }

  predicate IsApplicationStage(stage: Stage) {
    stage.ConsumerReceived? || IsTerminal(stage)
  }

  datatype AdvanceError = NotAnApplicationStage | NotProjected | Regression | MissingConsumerReceived

  /** `can_advance_stage`; `None` permits the advance. */
  function CanAdvance(current: Stage, next: Stage): (e: Option<AdvanceError>) {
    if !IsApplicationStage(next) then Some(NotAnApplicationStage)
    else if LadderRank(current).None? then Some(NotProjected)
    else if LadderRank(current).value < 2 then Some(NotProjected)
    else if LadderRank(next).value <= LadderRank(current).value then Some(Regression)
    else if (next.Applied? || next.NotApplied?) && !current.ConsumerReceived? then Some(MissingConsumerReceived)
    else None
  }

  datatype Caller = Caller(isAdmin: bool, isRegisteredAgent: bool, isCaseOwner: bool)

  datatype Refusal =
    | UnknownStage | NotAuthorised | NotTheCaseOwner | ManualRequiresAdmin | ManualRequiresApprovedCase
    | Refused(cause: AdvanceError)

  /** `plan_application_advance`; `None` permits the advance. */
  function Plan(current: Stage, requested: Stage, caller: Caller, caseState: string,
      outcome: Option<string>): (r: Option<Refusal>) {
    if !IsApplicationStage(requested) then Some(UnknownStage)
    else if !caller.isAdmin && !caller.isRegisteredAgent then Some(NotAuthorised)
    else if !caller.isAdmin && !caller.isCaseOwner then Some(NotTheCaseOwner)
    else if requested.AppliedManually? && !caller.isAdmin then Some(ManualRequiresAdmin)
    else if requested.AppliedManually? && !(caseState in {"decided", "resolved"} && outcome == Some("approve"))
    then Some(ManualRequiresApprovedCase)
    else if CanAdvance(current, requested).Some? then Some(Refused(CanAdvance(current, requested).value))
    else None
  }

  /** The five advances there are. */
  lemma AdvanceIff(current: Stage, next: Stage)
    ensures CanAdvance(current, next).None? <==>
      (current == ProjectionCommitted && next in {ConsumerReceived, AppliedManually}) ||
      (current == ConsumerReceived && next in {Applied, NotApplied, AppliedManually})
    ensures CanAdvance(current, next) == Some(NotAnApplicationStage) <==>
      next !in {ConsumerReceived, Applied, NotApplied, AppliedManually}
    ensures CanAdvance(current, next) == Some(NotProjected) <==>
      next in {ConsumerReceived, Applied, NotApplied, AppliedManually} &&
      current in {Signed, RelayAccepted, ProjectionFailed, EscalatedOnAge, Expired}
    ensures CanAdvance(current, next) == Some(MissingConsumerReceived) <==>
      current == ProjectionCommitted && next in {Applied, NotApplied}
  {
  }

  /** Who may report what: written out, with the refusal of everyone else. */
  lemma PlanIff(current: Stage, requested: Stage, caller: Caller, caseState: string, outcome: Option<string>)
    ensures var plan := Plan(current, requested, caller, caseState, outcome);
      var asked := requested in {ConsumerReceived, Applied, NotApplied, AppliedManually};
      var entitled := caller.isAdmin || (caller.isRegisteredAgent && caller.isCaseOwner);
      var approved := (caseState == "decided" || caseState == "resolved") && outcome == Some("approve");
      var byHand := requested == AppliedManually;
      && (plan.None? <==> asked && entitled && (byHand ==> caller.isAdmin && approved) && CanAdvance(current, requested).None?)
      && (plan == Some(UnknownStage) <==> !asked)
      && (plan == Some(NotAuthorised) <==> asked && !caller.isAdmin && !caller.isRegisteredAgent)
      && (plan == Some(NotTheCaseOwner) <==> asked && !caller.isAdmin && caller.isRegisteredAgent && !caller.isCaseOwner)
      && (plan == Some(ManualRequiresAdmin) <==> byHand && !caller.isAdmin && caller.isRegisteredAgent && caller.isCaseOwner)
      && (plan == Some(ManualRequiresApprovedCase) <==> byHand && caller.isAdmin && !approved)
      && (forall cause :: plan == Some(Refused(cause)) <==>
            asked && entitled && (byHand ==> caller.isAdmin && approved) && CanAdvance(current, requested) == Some(cause))
  {
  }

  const STAGE_TEXTS: seq<string> := ["signed", "relay-accepted", "projection-committed", "projection-failed", "consumer-received",
    "applied", "not-applied", "applied-manually", "escalated-on-age", "expired"]

  const STAGES: seq<Stage> := [Signed, RelayAccepted, ProjectionCommitted, ProjectionFailed, ConsumerReceived, Applied, NotApplied,
    AppliedManually, EscalatedOnAge, Expired]

  /** The stored texts are these ten and no others. */
  lemma StoredTexts(s: string, i: nat)
    requires i < 10
    ensures |STAGE_TEXTS| == |STAGES| == 10 && ParseStage(STAGE_TEXTS[i]) == Some(STAGES[i])
    ensures ParseStage(s).Some? <==> s in STAGE_TEXTS
  {
    StageTextRoundTrip(STAGES[i], STAGE_TEXTS[i]);
    if ParseStage(s).Some? {
      StageTextRoundTrip(ParseStage(s).value, s);
    }
  }

  // -------------------------------------------------------------------------
  // The endpoint, statement by statement
  // -------------------------------------------------------------------------

  datatype Receipt = Receipt(stage: string, caseId: string, appliedBy: Option<string>)
  datatype Case = Case(state: string, createdBy: string, outcome: Option<string>)

  /** A reporter, by the statement it runs next. */
  datatype Handler =
    | Reading(eventId: string, requested: Stage, caller: string)
    | CaseReading(eventId: string, requested: Stage, caller: string, current: Stage, caseId: string)
    | Planning(eventId: string, requested: Stage, caller: string, current: Stage, caseId: string, case_: Option<Case>)
    | Swapping(eventId: string, requested: Stage, caller: string, current: Stage, admin: bool, agent: bool, caseId: string,
        case_: Option<Case>)
    | Finished(reply: Reply)

  datatype Reply = NotFound | UnknownStoredStage | RefusedReply(refusal: Refusal) | Conflict | Recorded(stage: Stage)

  /** A recorded advance, with what its reporter had read (a history). */
  datatype Entry = Entry(
    eventId: string, before: Stage, after: Stage, caller: string, admin: bool, agent: bool, caseId: string, case_: Option<Case>)

  datatype State = State(receipts: map<string, Receipt>, cases: map<string, Case>, handlers: map<nat, Handler>, log: seq<Entry>)

  /** `Decide` is anyone changing a case; `admin` and `agent` are the answers of the two authority lookups. */
  datatype Event =
    | Arrive(h: nat, eventId: string, requested: Stage, caller: string)
    | ReadReceipt(h: nat)
    | ReadCase(h: nat)
    | PlanAdvance(h: nat, admin: bool, agent: bool)
    | Swap(h: nat)
    | Decide(caseId: string, case_: Case)

  predicate Enabled(s: State, e: Event) {
    match e
    case Arrive(h, _, _, _) => h !in s.handlers
    case ReadReceipt(h) => h in s.handlers && s.handlers[h].Reading?
    case ReadCase(h) => h in s.handlers && s.handlers[h].CaseReading?
    case PlanAdvance(h, _, _) => h in s.handlers && s.handlers[h].Planning?
    case Swap(h) => h in s.handlers && s.handlers[h].Swapping?
    case Decide(_, _) => true
  }

  function Lookup<V>(m: map<string, V>, key: string): (v: Option<V>) {
    if key in m then Some(m[key]) else None
  }

  function AfterReadReceipt(s: State, x: Handler): (x': Handler)
    requires x.Reading?
  {
    if x.eventId !in s.receipts then Finished(NotFound) else
    match ParseStage(s.receipts[x.eventId].stage)
    case None => Finished(UnknownStoredStage)
    case Some(current) => CaseReading(x.eventId, x.requested, x.caller, current, s.receipts[x.eventId].caseId)
  }

  function AfterPlan(x: Handler, admin: bool, agent: bool): (x': Handler)
    requires x.Planning?
  {
    var owner := x.case_.Some? && Lower(x.case_.value.createdBy) == Lower(x.caller);
    match Plan(x.current, x.requested, Caller(admin, agent, owner),
               if x.case_.Some? then x.case_.value.state else "", if x.case_.Some? then x.case_.value.outcome else None)
    case Some(refusal) => Finished(RefusedReply(refusal))
    case None => Swapping(x.eventId, x.requested, x.caller, x.current, admin, agent, x.caseId, x.case_)
  }

  /** `UPDATE ... WHERE event_id = ?5 AND stage = ?6`. */
  function CompareAndSwap(s: State, x: Handler): (r: (map<string, Receipt>, bool))
    requires x.Swapping?
  {
    if x.eventId in s.receipts && s.receipts[x.eventId].stage == AsStr(x.current)
    then (s.receipts[x.eventId := s.receipts[x.eventId].(stage := AsStr(x.requested), appliedBy := Some(x.caller))], true)
    else (s.receipts, false)
  }

  function Next(s: State, e: Event): (s': State)
    requires Enabled(s, e)
  {
    match e
    case Arrive(h, eventId, requested, caller) => s.(handlers := s.handlers[h := Reading(eventId, requested, caller)])
    case ReadReceipt(h) => s.(handlers := s.handlers[h := AfterReadReceipt(s, s.handlers[h])])
    case ReadCase(h) =>
      var CaseReading(eventId, requested, caller, current, caseId) := s.handlers[h];
      s.(handlers := s.handlers[h := Planning(eventId, requested, caller, current, caseId, Lookup(s.cases, caseId))])
    case PlanAdvance(h, admin, agent) => s.(handlers := s.handlers[h := AfterPlan(s.handlers[h], admin, agent)])
    case Swap(h) =>
      var x := s.handlers[h];
      var (receipts, changed) := CompareAndSwap(s, x);
      State(receipts, s.cases, s.handlers[h := Finished(if changed then Recorded(x.requested) else Conflict)],
            if changed then s.log + [Entry(x.eventId, x.current, x.requested, x.caller, x.admin, x.agent, x.caseId, x.case_)] else s.log)
    case Decide(caseId, case_) => s.(cases := s.cases[caseId := case_])
  }

  /** A run over receipts at whatever stages, with no reporters under way. */
  ghost predicate Run(states: seq<State>, events: seq<Event>) {
    |states| == |events| + 1 && states[0].handlers == map[] && states[0].log == [] &&
    forall i :: 0 <= i < |events| ==> Enabled(states[i], events[i]) && states[i + 1] == Next(states[i], events[i])
  }

  // -------------------------------------------------------------------------
  // What every run keeps
  // -------------------------------------------------------------------------

  /** The stages recorded for one receipt: where it stood first, then after each advance. */
  function History(log: seq<Entry>, eventId: string): (h: seq<Entry>) {
    if log == [] then [] else
    var last := log[|log| - 1];
    History(log[..|log| - 1], eventId) + if last.eventId == eventId then [last] else []
  }

  /** Each recorded advance is permitted, starts where the previous one ended, and the row holds the last. */
  ghost predicate Chained(h: seq<Entry>, stored: string) {
    (forall i :: 0 <= i < |h| ==> CanAdvance(h[i].before, h[i].after).None?) &&
    (forall i :: 0 < i < |h| ==> h[i].before == h[i - 1].after) &&
    (h != [] ==> stored == AsStr(h[|h| - 1].after))
  }

  ghost predicate Inv(s: State) {
    (forall h <- s.handlers :: s.handlers[h].Swapping? ==> Permitted(s.handlers[h])) &&
    (forall id <- s.receipts :: Chained(History(s.log, id), s.receipts[id].stage)) &&
    (forall i :: 0 <= i < |s.log| ==> s.log[i].eventId in s.receipts && ByRight(s.log[i]))
  }

  predicate Permitted(x: Handler)
    requires x.Swapping?
  {
    CanAdvance(x.current, x.requested).None? &&
    (x.requested.AppliedManually? ==> x.admin && Approved(x.case_)) &&
    Entitled(x.caller, x.admin, x.agent, x.case_)
  }

  predicate Approved(case_: Option<Case>) {
    case_.Some? && case_.value.state in {"decided", "resolved"} && case_.value.outcome == Some("approve")
  }

  /** An admin, or a registered agent whose key raised the case. */
  predicate Entitled(caller: string, admin: bool, agent: bool, case_: Option<Case>) {
    admin || (agent && case_.Some? && Lower(case_.value.createdBy) == Lower(caller))
  }

  /** Every recorder is entitled, and a manual application is an admin's, on a case read as decided and approved. */
  predicate ByRight(e: Entry) {
    (e.after.AppliedManually? ==> e.admin && Approved(e.case_)) && Entitled(e.caller, e.admin, e.agent, e.case_)
  }

  lemma HistoryAfter(log: seq<Entry>, e: Entry, eventId: string)
    ensures History(log + [e], eventId) == History(log, eventId) + if e.eventId == eventId then [e] else []
  {
    assert (log + [e])[..|log|] == log;
  }

  lemma ChainGrows(h: seq<Entry>, stored: string, e: Entry)
    requires Chained(h, stored) && CanAdvance(e.before, e.after).None? && stored == AsStr(e.before)
    ensures Chained(h + [e], AsStr(e.after))
  {
    if h != [] {
      StageTextRoundTrip(e.before, stored);
      StageTextRoundTrip(h[|h| - 1].after, stored);
    }
  }

  lemma InvKept(s: State, e: Event)
    requires Inv(s) && Enabled(s, e)
    ensures Inv(Next(s, e))
  {
    hide History, Chained, AsStr, ParseStage, CanAdvance;
    var s' := Next(s, e);
    if s'.log != s.log {
      var x := s.handlers[e.h];
      var entry := Entry(x.eventId, x.current, x.requested, x.caller, x.admin, x.agent, x.caseId, x.case_);
      forall id | id in s'.receipts ensures Chained(History(s'.log, id), s'.receipts[id].stage) {
        HistoryAfter(s.log, entry, id);
        if id == x.eventId {
          ChainGrows(History(s.log, id), s.receipts[id].stage, entry);
        } else {
          assert History(s'.log, id) == History(s.log, id);
        }
      }
    }
  }

  lemma {:induction false} RunKeepsInv(states: seq<State>, events: seq<Event>, i: nat)
    requires Run(states, events) && i < |states|
    ensures Inv(states[i])
  {
    hide Next, Enabled;
    if i > 0 {
      RunKeepsInv(states, events, i - 1);
      InvKept(states[i - 1], events[i - 1]);
    } else {
      NoHistory(states[0]);
    }
  }

  lemma NoHistory(s: State)
    requires s.handlers == map[] && s.log == []
    ensures Inv(s)
  {
  }

  /** Strictly higher on the ladder. */
  predicate Rises(before: Stage, after: Stage) {
    LadderRank(before).Some? && LadderRank(after).Some? && LadderRank(before).value < LadderRank(after).value
  }

  lemma RanksRise(h: seq<Entry>, stored: string, i: nat, j: nat)
    requires Chained(h, stored) && i < j < |h|
    ensures Rises(h[i].after, h[j].after) && !IsTerminal(h[i].after)
    decreases j
  {
    if i < j - 1 {
      RanksRise(h, stored, i, j - 1);
    }
  }

  /** Above "projection committed" there are two rungs. */
  lemma AtMostTwo(h: seq<Entry>, stored: string)
    requires Chained(h, stored)
    ensures |h| <= 2
  {
    if |h| > 2 {
      assert CanAdvance(h[0].before, h[0].after).None? && CanAdvance(h[2].before, h[2].after).None?;
      RanksRise(h, stored, 0, 1);
      RanksRise(h, stored, 1, 2);
    }
  }

  lemma AllRanksRise(h: seq<Entry>, stored: string)
    requires Chained(h, stored)
    ensures forall j, k :: 0 <= j < k < |h| ==> Rises(h[j].after, h[k].after)
  {
    hide Chained, CanAdvance, LadderRank, IsTerminal;
    forall j, k | 0 <= j < k < |h|
      ensures Rises(h[j].after, h[k].after)
    {
      RanksRise(h, stored, j, k);
    }
  }

  lemma OneTerminal(h: seq<Entry>, stored: string)
    requires Chained(h, stored)
    ensures forall j, k :: 0 <= j < |h| && 0 <= k < |h| && IsTerminal(h[j].after) && IsTerminal(h[k].after) ==> j == k
  {
    hide Chained, CanAdvance, LadderRank, IsTerminal;
    forall j, k | 0 <= j < |h| && 0 <= k < |h| && IsTerminal(h[j].after) && IsTerminal(h[k].after)
      ensures j == k
    {
      if j < k {
        RanksRise(h, stored, j, k);
      } else if k < j {
        RanksRise(h, stored, k, j);
      }
    }
  }

  lemma RowIsChained(s: State, eventId: string)
    requires Inv(s) && eventId in s.receipts
    ensures Chained(History(s.log, eventId), s.receipts[eventId].stage)
  {
    hide History, Chained;
  }

  /**
   * However the reporters race: each receipt's recorded stages advance strictly, from one to the next
   * without a gap, at most two are ever recorded, only the last can be terminal, and the row holds it.
   */
  lemma ReceiptsOnlyAdvance(states: seq<State>, events: seq<Event>, i: nat, eventId: string)
    requires Run(states, events) && i < |states| && eventId in states[i].receipts
    ensures var h := History(states[i].log, eventId);
      Chained(h, states[i].receipts[eventId].stage) && |h| <= 2 &&
      (forall j, k :: 0 <= j < k < |h| ==> Rises(h[j].after, h[k].after) && h[j].after != h[k].after) &&
      (forall j, k :: 0 <= j < |h| && 0 <= k < |h| && IsTerminal(h[j].after) && IsTerminal(h[k].after) ==> j == k)
  {
    hide History, Run, Inv, AsStr, Chained, CanAdvance, LadderRank, IsTerminal;
    RunKeepsInv(states, events, i);
    RowIsChained(states[i], eventId);
    var h, stored := History(states[i].log, eventId), states[i].receipts[eventId].stage;
    AtMostTwo(h, stored);
    AllRanksRise(h, stored);
    OneTerminal(h, stored);
  }

  /** A swap wins exactly when the stage is still the one it read; a losing swap changes no row and records nothing. */
  lemma LosingSwapChangesNothing(s: State, h: nat)
    requires Enabled(s, Swap(h))
    ensures var (x, s') := (s.handlers[h], Next(s, Swap(h)));
      var won := x.eventId in s.receipts && ParseStage(s.receipts[x.eventId].stage) == Some(x.current);
      s'.handlers[h] == Finished(if won then Recorded(x.requested) else Conflict) &&
      (!won ==> s'.receipts == s.receipts && s'.log == s.log) &&
      (won ==>
        ParseStage(s'.receipts[x.eventId].stage) == Some(x.requested) &&
        s'.receipts == s.receipts[x.eventId :=
          Receipt(s'.receipts[x.eventId].stage, s.receipts[x.eventId].caseId, Some(x.caller))] &&
        s'.log == s.log + [Entry(x.eventId, x.current, x.requested, x.caller, x.admin, x.agent, x.caseId, x.case_)])
  {
    var x := s.handlers[h];
    StageTextRoundTrip(x.requested, AsStr(x.requested));
    if x.eventId in s.receipts {
      StageTextRoundTrip(x.current, s.receipts[x.eventId].stage);
    }
  }

  /**
   * A report with nothing in between: refused for an unknown receipt, for an unknown stored stage or by the plan
   * over its own case, and otherwise recorded with the new stage's text and its caller's name.
   */
  lemma ReportAlone(s: State, h: nat, admin: bool, agent: bool)
    requires Enabled(s, ReadReceipt(h))
    ensures var (x, s1) := (s.handlers[h], Next(s, ReadReceipt(h)));
      if x.eventId !in s.receipts then s1 == s.(handlers := s.handlers[h := Finished(NotFound)])
      else if s.receipts[x.eventId].stage !in STAGE_TEXTS then
        s1 == s.(handlers := s.handlers[h := Finished(UnknownStoredStage)])
      else
        Enabled(s1, ReadCase(h)) && Enabled(Next(s1, ReadCase(h)), PlanAdvance(h, admin, agent)) &&
        PlannedAlone(s, h, admin, agent, Next(Next(s1, ReadCase(h)), PlanAdvance(h, admin, agent)))
  {
    hide Plan, AsStr, ParseStage, STAGE_TEXTS, PlannedAlone;
    var x := s.handlers[h];
    if x.eventId in s.receipts {
      var text := s.receipts[x.eventId].stage;
      StoredTexts(text, 0);
      if text in STAGE_TEXTS {
        StageTextRoundTrip(ParseStage(text).value, text);
        PlanAlone(s, h, admin, agent, ParseStage(text).value);
      }
    }
  }

  lemma PlanAlone(s: State, h: nat, admin: bool, agent: bool, current: Stage)
    requires Enabled(s, ReadReceipt(h)) && s.handlers[h].eventId in s.receipts
    requires ParseStage(s.receipts[s.handlers[h].eventId].stage) == Some(current)
    requires s.receipts[s.handlers[h].eventId].stage == AsStr(current)
    ensures var s1 := Next(s, ReadReceipt(h));
      Enabled(s1, ReadCase(h)) && Enabled(Next(s1, ReadCase(h)), PlanAdvance(h, admin, agent)) &&
      PlannedAlone(s, h, admin, agent, Next(Next(s1, ReadCase(h)), PlanAdvance(h, admin, agent)))
  {
    hide Plan, AsStr, ParseStage;
  }

  /** Reporters arrive and cases change, and nothing else does. */
  lemma OtherSteps(s: State, e: Event)
    requires Enabled(s, e) && (e.Arrive? || e.Decide?)
    ensures e.Arrive? ==> Next(s, e) == State(s.receipts, s.cases, s.handlers[e.h := Reading(e.eventId, e.requested, e.caller)], s.log)
    ensures e.Decide? ==> Next(s, e) == State(s.receipts, s.cases[e.caseId := e.case_], s.handlers, s.log)
  {
  }

  /** What the plan lets through is recorded, and only that. */
  ghost predicate PlannedAlone(s: State, h: nat, admin: bool, agent: bool, s3: State)
    requires h in s.handlers && s.handlers[h].Reading? && s.handlers[h].eventId in s.receipts
  {
    var (x, row) := (s.handlers[h], s.receipts[s.handlers[h].eventId]);
    var case_ := Lookup(s.cases, row.caseId);
    exists current :: ParseStage(row.stage) == Some(current) &&
      var caller := Caller(admin, agent, case_.Some? && Lower(case_.value.createdBy) == Lower(x.caller));
      match Plan(current, x.requested, caller, if case_.Some? then case_.value.state else "",
                 if case_.Some? then case_.value.outcome else None)
      case Some(refusal) => s3 == s.(handlers := s.handlers[h := Finished(RefusedReply(refusal))])
      case None =>
        Enabled(s3, Swap(h)) &&
        var s4 := Next(s3, Swap(h));
        s4.handlers == s.handlers[h := Finished(Recorded(x.requested))] && s4.cases == s.cases &&
        s4.receipts == s.receipts[x.eventId := Receipt(AsStr(x.requested), row.caseId, Some(x.caller))]
  }

  /** The case a reporter plans with is one it read in an earlier state of the run. */
  ghost predicate WasRead(states: seq<State>, i: nat, caseId: string, case_: Option<Case>) {
    exists k :: 0 <= k < i && k < |states| && Lookup(states[k].cases, caseId) == case_
  }

  lemma {:induction false} CasesWereRead(states: seq<State>, events: seq<Event>, i: nat)
    requires Run(states, events) && i < |states|
    ensures forall h <- states[i].handlers ::
      (states[i].handlers[h].Planning? || states[i].handlers[h].Swapping?) ==>
        WasRead(states, i, states[i].handlers[h].caseId, states[i].handlers[h].case_)
    ensures forall j :: 0 <= j < |states[i].log| ==> WasRead(states, i, states[i].log[j].caseId, states[i].log[j].case_)
  {
    if i > 0 {
      CasesWereRead(states, events, i - 1);
      var s, e := states[i - 1], events[i - 1];
      if e.ReadCase? {
        assert WasRead(states, i, s.handlers[e.h].caseId, Lookup(s.cases, s.handlers[e.h].caseId));
      }
      forall caseId, case_ | WasRead(states, i - 1, caseId, case_) ensures WasRead(states, i, caseId, case_) {
        var k :| 0 <= k < i - 1 && Lookup(states[k].cases, caseId) == case_;
      }
    }
  }

  /** The case a reporter plans with is the one its receipt names. */
  predicate OwnCase(receipts: map<string, Receipt>, eventId: string, caseId: string) {
    eventId in receipts && receipts[eventId].caseId == caseId
  }

  lemma CasesStay(s: State, e: Event)
    requires Enabled(s, e)
    ensures forall id <- s.receipts :: OwnCase(Next(s, e).receipts, id, s.receipts[id].caseId)
  {
    hide AsStr, AfterPlan, ParseStage;
  }

  lemma {:induction false} CasesAreTheirReceipts(states: seq<State>, events: seq<Event>, i: nat)
    requires Run(states, events) && i < |states|
    ensures forall h <- states[i].handlers ::
      var x := states[i].handlers[h];
      x.CaseReading? || x.Planning? || x.Swapping? ==> OwnCase(states[i].receipts, x.eventId, x.caseId)
    ensures forall j :: 0 <= j < |states[i].log| ==> OwnCase(states[i].receipts, states[i].log[j].eventId, states[i].log[j].caseId)
  {
    hide AsStr, ParseStage, Plan;
    if i > 0 {
      CasesAreTheirReceipts(states, events, i - 1);
      CasesStay(states[i - 1], events[i - 1]);
    }
  }

  /** The authority lookups of some reporter gave these answers. */
  ghost predicate Answered(events: seq<Event>, i: nat, h: nat, admin: bool, agent: bool) {
    exists k :: 0 <= k < i && k < |events| && events[k] == PlanAdvance(h, admin, agent)
  }

  ghost predicate SomeoneAnswered(events: seq<Event>, i: nat, admin: bool, agent: bool) {
    exists h :: Answered(events, i, h, admin, agent)
  }

  lemma AnsweredLater(events: seq<Event>, i: nat)
    ensures forall h, admin, agent :: Answered(events, i, h, admin, agent) ==> Answered(events, i + 1, h, admin, agent)
  {
    forall h, admin, agent | Answered(events, i, h, admin, agent)
      ensures Answered(events, i + 1, h, admin, agent)
    {
      var k :| 0 <= k < i && k < |events| && events[k] == PlanAdvance(h, admin, agent);
    }
  }

  lemma {:induction false} AuthorityWasAnswered(states: seq<State>, events: seq<Event>, i: nat)
    requires Run(states, events) && i < |states|
    ensures forall h <- states[i].handlers :: states[i].handlers[h].Swapping? ==>
      Answered(events, i, h, states[i].handlers[h].admin, states[i].handlers[h].agent)
    ensures forall j :: 0 <= j < |states[i].log| ==> SomeoneAnswered(events, i, states[i].log[j].admin, states[i].log[j].agent)
  {
    hide AsStr, ParseStage, Plan, Answered;
    if i > 0 {
      AuthorityWasAnswered(states, events, i - 1);
      AnsweredLater(events, i - 1);
      if events[i - 1].PlanAdvance? {
        JustAnswered(events, i - 1);
      }
    }
  }

  lemma JustAnswered(events: seq<Event>, i: nat)
    requires i < |events| && events[i].PlanAdvance?
    ensures Answered(events, i + 1, events[i].h, events[i].admin, events[i].agent)
  {
  }

  /**
   * Over any run each recorded advance is one of the five, and its recorder was answered to be an admin, or a
   * registered agent whose key is the creator of the receipt's own case as read earlier in the run.
   */
  lemma OnlyTheEntitledAdvance(states: seq<State>, events: seq<Event>, i: nat, j: nat)
    requires Run(states, events) && i < |states| && j < |states[i].log|
    ensures var e := states[i].log[j];
      && CanAdvance(e.before, e.after).None? && OwnCase(states[i].receipts, e.eventId, e.caseId)
      && SomeoneAnswered(events, i, e.admin, e.agent)
      && (e.admin || (e.agent && exists k ::
            0 <= k < i && e.caseId in states[k].cases && Lower(states[k].cases[e.caseId].createdBy) == Lower(e.caller)))
  {
    hide Chained, History;
    RunKeepsInv(states, events, i);
    CasesWereRead(states, events, i);
    CasesAreTheirReceipts(states, events, i);
    AuthorityWasAnswered(states, events, i);
    var e := states[i].log[j];
    RecordedAdvance(states[i].log, j);
    RowIsChained(states[i], e.eventId);
    ChainedAdvances(History(states[i].log, e.eventId), states[i].receipts[e.eventId].stage, e);
    assert ByRight(e) && WasRead(states, i, e.caseId, e.case_);
    var k :| 0 <= k < i && Lookup(states[k].cases, e.caseId) == e.case_;
  }

  lemma {:induction false} RecordedAdvance(log: seq<Entry>, j: nat)
    requires j < |log|
    ensures log[j] in History(log, log[j].eventId)
  {
    if j < |log| - 1 {
      RecordedAdvance(log[..|log| - 1], j);
    }
  }

  lemma ChainedAdvances(h: seq<Entry>, stored: string, e: Entry)
    requires Chained(h, stored) && e in h
    ensures CanAdvance(e.before, e.after).None?
  {
  }

  /** A manual application was recorded by an admin who had read the receipt's own case as decided and approved. */
  lemma ManualNeedsAdminAndApproval(states: seq<State>, events: seq<Event>, i: nat, j: nat)
    requires Run(states, events) && i < |states| && j < |states[i].log| && states[i].log[j].after.AppliedManually?
    ensures var e := states[i].log[j];
      e.admin && OwnCase(states[i].receipts, e.eventId, e.caseId) &&
      exists k ::
        0 <= k < i && e.caseId in states[k].cases && states[k].cases[e.caseId].state in {"decided", "resolved"} &&
        states[k].cases[e.caseId].outcome == Some("approve")
  {
    RunKeepsInv(states, events, i);
    CasesWereRead(states, events, i);
    CasesAreTheirReceipts(states, events, i);
    var e := states[i].log[j];
    assert ByRight(e) && WasRead(states, i, e.caseId, e.case_);
    var k :| 0 <= k < i && Lookup(states[k].cases, e.caseId) == e.case_;
  }
}
