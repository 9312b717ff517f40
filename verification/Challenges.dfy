/**
 * The WebAuthn challenge ledger (`webauthn.rs`): challenges, registration salts and credentials.
 * Registrations interleave statement by statement; logins are handled one at a time.
 */
module Challenges {
  import opened Results
  import opened Texts

  const FIVE_MINUTES_MS := 5 * 60 * 1000
  const DISCOVERABLE := "__discoverable__"
  const CHALLENGE_LENGTH := 43  // base64url of 32 bytes
  const PUBKEY_LENGTH := 64

  // -------------------------------------------------------------------------
  // Tables
  // -------------------------------------------------------------------------

  datatype ChallengeRow = ChallengeRow(bucket: string, challenge: string, createdAt: nat)
  datatype SaltRow = SaltRow(prfSalt: string, createdAt: nat)

  /** Histories: `via` is the challenge of the registration that created the row, `enrolled` its sign count. */
  datatype Credential = Credential(
    pubkey: string, credentialId: string, publicKey: string, prfSalt: string, counter: nat, via: string, enrolled: nat)

  datatype Db = Db(challenges: set<ChallengeRow>, salts: map<string, SaltRow>, credentials: seq<Credential>)

  /** `now_ms.saturating_sub(5 * 60 * 1000)`. */
  function FiveMinutesBefore(now: nat): (t: nat) {
    if now < FIVE_MINUTES_MS then 0 else now - FIVE_MINUTES_MS
  }

  function Sweep(db: Db, now: nat): (db': Db) {
    db.(challenges := set c | c in db.challenges && c.createdAt >= FiveMinutesBefore(now))
  }

  /** The batch of `register_options`. */
  function IssueRegistration(db: Db, challenge: string, prfSalt: string, now: nat): (db': Db) {
    var swept := Sweep(db, now);
    var salts := map c | c in db.salts && db.salts[c].createdAt >= FiveMinutesBefore(now) :: db.salts[c];
    swept.(challenges := swept.challenges + {ChallengeRow(challenge, challenge, now)},
           salts := salts[challenge := SaltRow(prfSalt, now)])
  }

  /** The batch of `login_options`. */
  function IssueLogin(db: Db, challenge: string, bucket: string, now: nat): (db': Db) {
    var swept := Sweep(db, now);
    swept.(challenges := swept.challenges + {ChallengeRow(bucket, challenge, now)})
  }

  /** `REGISTRATION_SALT_QUERY`: a live challenge of the registration bucket, joined with its live salt. */
  ghost predicate RegistrationCheck(db: Db, challenge: string, now: nat) {
    challenge in db.salts && db.salts[challenge].createdAt > FiveMinutesBefore(now) &&
    exists c <- db.challenges :: c.challenge == challenge && c.bucket == challenge && c.createdAt > FiveMinutesBefore(now)
  }

  /** The challenge query of `login_verify`. */
  ghost predicate LoginCheck(db: Db, challenge: string, pubkey: string, now: nat) {
    exists c <- db.challenges ::
      c.challenge == challenge && c.createdAt > FiveMinutesBefore(now) && c.bucket in {pubkey, DISCOVERABLE}
  }

  function DeleteChallenge(db: Db, challenge: string): (db': Db) {
    db.(challenges := set c | c in db.challenges && c.challenge != challenge)
  }

  /** The batch that stores a credential: inserted only while the salt row is there, consumed either way. */
  function CommitRegistration(db: Db, c: Credential): (r: (Db, bool)) {
    var insert := c.via in db.salts && db.salts[c.via].prfSalt == c.prfSalt;
    (DeleteChallenge(db, c.via).(
       salts := db.salts - {c.via},
       credentials := if insert then db.credentials + [c] else db.credentials),
     insert)
  }

  /** `SELECT ... WHERE pubkey = ?1 LIMIT 1`: the first row, in insertion order. */
  function FirstCredential(cs: seq<Credential>, pubkey: string): (c: Option<Credential>)
    ensures c.Some? ==> c.value in cs && c.value.pubkey == pubkey
  {
    if cs == [] then None
    else if cs[0].pubkey == pubkey then Some(cs[0])
    else FirstCredential(cs[1..], pubkey)
  }

  /** `UPDATE webauthn_credentials SET counter = ?1 WHERE pubkey = ?2`. */
  function SetCounter(cs: seq<Credential>, pubkey: string, count: nat): (cs': seq<Credential>)
    ensures |cs'| == |cs|
    ensures forall i :: 0 <= i < |cs| ==>
      cs'[i] == if cs[i].pubkey == pubkey then cs[i].(counter := count) else cs[i]
  {
    if cs == [] then []
    else [if cs[0].pubkey == pubkey then cs[0].(counter := count) else cs[0]] + SetCounter(cs[1..], pubkey, count)
  }

  // -------------------------------------------------------------------------
  // The machine
  // -------------------------------------------------------------------------

  /** What a registration brings: everything `register_verify` has parsed from its request. */
  datatype Request = Request(pubkey: string, challenge: string, credentialId: string, publicKey: string, signCount: nat, now: nat)

  /** A registration, by the statement it runs next. */
  datatype Handler =
    | Checking(req: Request)
    | Salted(req: Request, prfSalt: string)
    | Unregistered(req: Request, prfSalt: string)
    | Admitted(req: Request, prfSalt: string)
    | Finished(created: bool)

  /** Histories: what each challenge was issued as, and the logins accepted so far. */
  datatype Issued = ForRegistration(prfSalt: string) | ForLogin(bucket: string)
  datatype Accepted = Accepted(challenge: string, pubkey: string, count: nat)

  datatype State = State(db: Db, handlers: map<nat, Handler>, issued: map<string, Issued>, accepted: seq<Accepted>)

  const EMPTY := State(Db({}, map[], []), map[], map[], [])

  /** `sound` stands for all checks of `login_verify` that read no table, the signature included. */
  datatype Event =
    | RegisterOptions(challenge: string, prfSalt: string, now: nat)
    | LoginOptions(challenge: string, bucket: string, now: nat)
    | Arrive(h: nat, req: Request)
    | Check(h: nat)
    | Existing(h: nat)
    | Gate(h: nat, allowed: bool)
    | Commit(h: nat)
    | Login(pubkey: string, credentialId: string, challenge: string, count: nat, now: nat, sound: bool)

  predicate Enabled(s: State, e: Event) {
    match e
    case RegisterOptions(challenge, _, _) => challenge !in s.issued && |challenge| == CHALLENGE_LENGTH
    case LoginOptions(challenge, _, _) => challenge !in s.issued && |challenge| == CHALLENGE_LENGTH
    case Arrive(h, req) => h !in s.handlers && |req.pubkey| == PUBKEY_LENGTH
    case Check(h) => h in s.handlers && s.handlers[h].Checking?
    case Existing(h) => h in s.handlers && s.handlers[h].Salted?
    case Gate(h, _) => h in s.handlers && s.handlers[h].Unregistered?
    case Commit(h) => h in s.handlers && s.handlers[h].Admitted?
    case Login(pubkey, _, _, _, _, _) => |pubkey| == PUBKEY_LENGTH
  }

  /** `pk.to_lowercase()`; a token that spells the key otherwise is refused next. */
  function InLowerCase(req: Request): (r: Request) {
    req.(pubkey := Lower(req.pubkey))
  }

  function NewCredential(x: Handler): (c: Credential)
    requires x.Admitted?
  {
    Credential(x.req.pubkey, x.req.credentialId, x.req.publicKey, x.prfSalt, x.req.signCount, x.req.challenge, x.req.signCount)
  }

  /** Everything `login_verify` asks for before it commits. */
  ghost predicate LoginPasses(db: Db, pubkey: string, credentialId: string, challenge: string, count: nat, now: nat,
      sound: bool) {
    var cred := FirstCredential(db.credentials, pubkey);
    sound && cred.Some? && cred.value.credentialId == credentialId && LoginCheck(db, challenge, pubkey, now) &&
    !(count != 0 && count <= cred.value.counter)
  }

  ghost function Next(s: State, e: Event): (s': State)
    requires Enabled(s, e)
  {
    match e
    case RegisterOptions(challenge, prfSalt, now) =>
      s.(db := IssueRegistration(s.db, challenge, prfSalt, now), issued := s.issued[challenge := ForRegistration(prfSalt)])
    case LoginOptions(challenge, bucket, now) =>
      s.(db := IssueLogin(s.db, challenge, bucket, now), issued := s.issued[challenge := ForLogin(bucket)])
    case Arrive(h, req) => s.(handlers := s.handlers[h := Checking(InLowerCase(req))])
    case Check(h) =>
      var req := s.handlers[h].req;
      s.(handlers := s.handlers[h :=
        if RegistrationCheck(s.db, req.challenge, req.now) then Salted(req, s.db.salts[req.challenge].prfSalt)
        else Finished(false)])
    case Existing(h) =>
      var Salted(req, prfSalt) := s.handlers[h];
      s.(handlers := s.handlers[h :=
        if FirstCredential(s.db.credentials, req.pubkey).Some? then Finished(false) else Unregistered(req, prfSalt)])
    case Gate(h, allowed) =>
      var Unregistered(req, prfSalt) := s.handlers[h];
      s.(handlers := s.handlers[h := if allowed then Admitted(req, prfSalt) else Finished(false)])
    case Commit(h) =>
      var (db, inserted) := CommitRegistration(s.db, NewCredential(s.handlers[h]));
      s.(db := db, handlers := s.handlers[h := Finished(inserted)])
    case Login(pubkey, credentialId, challenge, count, now, sound) =>
      if LoginPasses(s.db, pubkey, credentialId, challenge, count, now, sound) then
        s.(db := DeleteChallenge(s.db, challenge).(credentials := SetCounter(s.db.credentials, pubkey, count)),
           accepted := s.accepted + [Accepted(challenge, pubkey, count)])
      else s
  }

  ghost predicate Run(states: seq<State>, events: seq<Event>) {
    |states| == |events| + 1 && states[0] == EMPTY &&
    forall i :: 0 <= i < |events| ==> Enabled(states[i], events[i]) && states[i + 1] == Next(states[i], events[i])
  }

  // -------------------------------------------------------------------------
  // Challenges are bound to their ceremony
  // -------------------------------------------------------------------------

  /** Rows, salts and buckets are what was issued. */
  ghost predicate LedgerOk(s: State) {
    (forall c <- s.issued :: |c| == CHALLENGE_LENGTH) &&
    (forall c <- s.db.challenges :: c.challenge in s.issued &&
      c.bucket == match s.issued[c.challenge] case ForRegistration(_) => c.challenge case ForLogin(bucket) => bucket) &&
    (forall c <- s.db.salts :: c in s.issued && s.issued[c] == ForRegistration(s.db.salts[c].prfSalt))
  }

  /** Against a ledger of issued challenges, a challenge passes a check only in the ceremony it was issued for. */
  lemma ChecksFollowTheLedger(s: State, challenge: string, pubkey: string, now: nat)
    requires LedgerOk(s) && |pubkey| == PUBKEY_LENGTH
    ensures RegistrationCheck(s.db, challenge, now) ==>
      challenge in s.issued && s.issued[challenge] == ForRegistration(s.db.salts[challenge].prfSalt)
    ensures LoginCheck(s.db, challenge, pubkey, now) ==>
      challenge in s.issued && s.issued[challenge] in {ForLogin(pubkey), ForLogin(DISCOVERABLE)}
  {
    if LoginCheck(s.db, challenge, pubkey, now) {
      var c :| c in s.db.challenges && c.challenge == challenge && c.bucket in {pubkey, DISCOVERABLE};
      assert |c.bucket| != |challenge|;
    }
  }

  // -------------------------------------------------------------------------
  // Registrations
  // -------------------------------------------------------------------------

  /** Credentials carry their challenge's salt, that challenge is spent, and no two share one. */
  ghost predicate CredentialsOk(s: State) {
    (forall i :: 0 <= i < |s.db.credentials| ==>
      var c := s.db.credentials[i];
      c.via in s.issued && s.issued[c.via] == ForRegistration(c.prfSalt) && c.via !in s.db.salts) &&
    (forall i, j :: 0 <= i < j < |s.db.credentials| ==> s.db.credentials[i].via != s.db.credentials[j].via)
  }

  /** An accepted login challenge is spent, and no two logins share one. */
  ghost predicate AcceptedOk(s: State) {
    (forall i :: 0 <= i < |s.accepted| ==>
      s.accepted[i].challenge in s.issued &&
      forall c <- s.db.challenges :: c.challenge != s.accepted[i].challenge) &&
    (forall i, j :: 0 <= i < j < |s.accepted| ==> s.accepted[i].challenge != s.accepted[j].challenge)
  }

  lemma LedgerKept(s: State, e: Event)
    requires LedgerOk(s) && Enabled(s, e)
    ensures LedgerOk(Next(s, e))
  {
    hide LoginPasses, RegistrationCheck, FirstCredential;
  }

  lemma CommitKeepsCredentials(s: State, h: nat)
    requires LedgerOk(s) && CredentialsOk(s) && Enabled(s, Commit(h))
    ensures CredentialsOk(Next(s, Commit(h)))
  {
    hide LoginPasses, RegistrationCheck, FirstCredential, SetCounter, DeleteChallenge;
  }

  lemma CredentialsKept(s: State, e: Event)
    requires LedgerOk(s) && CredentialsOk(s) && Enabled(s, e)
    ensures CredentialsOk(Next(s, e))
  {
    hide LoginPasses, RegistrationCheck, FirstCredential, CommitRegistration, SetCounter;
    if e.Commit? {
      CommitKeepsCredentials(s, e.h);
    }
  }

  lemma AcceptedKept(s: State, e: Event)
    requires LedgerOk(s) && AcceptedOk(s) && Enabled(s, e)
    ensures AcceptedOk(Next(s, e))
  {
    hide RegistrationCheck, FirstCredential, Lower, SetCounter, NewCredential;
  }

  lemma {:induction false} RunKeeps(states: seq<State>, events: seq<Event>, i: nat)
    requires Run(states, events) && i < |states|
    ensures LedgerOk(states[i]) && CredentialsOk(states[i]) && AcceptedOk(states[i])
  {
    hide Next, Enabled;
    if i > 0 {
      RunKeeps(states, events, i - 1);
      LedgerKept(states[i - 1], events[i - 1]);
      CredentialsKept(states[i - 1], events[i - 1]);
      AcceptedKept(states[i - 1], events[i - 1]);
    }
  }

  /**
   * In every run, each registration challenge has created at most one credential, which carries exactly
   * the salt issued with it, and each login challenge has been accepted at most once.
   */
  lemma ChallengesAreSpentOnce(states: seq<State>, events: seq<Event>, i: nat)
    requires Run(states, events) && i < |states|
    ensures var s := states[i];
      (forall j :: 0 <= j < |s.db.credentials| ==> var c := s.db.credentials[j];
        c.via in s.issued && s.issued[c.via] == ForRegistration(c.prfSalt)) &&
      (forall j, k :: 0 <= j < k < |s.db.credentials| ==> s.db.credentials[j].via != s.db.credentials[k].via) &&
      (forall j, k :: 0 <= j < k < |s.accepted| ==> s.accepted[j].challenge != s.accepted[k].challenge)
  {
    RunKeeps(states, events, i);
  }

  /**
   * In every state of every run a challenge passes the registration check only if it was issued for a
   * registration, with the salt on record, and the login check only if issued for that pubkey or for
   * a discoverable login; so none passes both.
   */
  lemma CeremoniesAreSeparate(states: seq<State>, events: seq<Event>, i: nat, challenge: string, pubkey: string,
      now: nat)
    requires Run(states, events) && i < |states| && |pubkey| == PUBKEY_LENGTH
    ensures var s := states[i];
      (RegistrationCheck(s.db, challenge, now) ==>
        challenge in s.issued && s.issued[challenge] == ForRegistration(s.db.salts[challenge].prfSalt)) &&
      (LoginCheck(s.db, challenge, pubkey, now) ==>
        challenge in s.issued && s.issued[challenge] in {ForLogin(pubkey), ForLogin(DISCOVERABLE)}) &&
      !(RegistrationCheck(s.db, challenge, now) && LoginCheck(s.db, challenge, pubkey, now))
  {
    RunKeeps(states, events, i);
    ChecksFollowTheLedger(states[i], challenge, pubkey, now);
  }

  // -------------------------------------------------------------------------
  // What each step asks and does, over the tables
  // -------------------------------------------------------------------------

  /** `created_at > now - 5 minutes`, with a subtraction that stops at zero. */
  predicate Alive(createdAt: nat, now: nat) {
    createdAt > 0 && now < createdAt + 300000
  }

  /** Swept is what is older than five minutes; the boundary survives the sweep but is no longer alive. */
  predicate Kept(createdAt: nat, now: nat) {
    now <= createdAt + 300000
  }

  /** The first row of this pubkey. */
  predicate IsFirst(cs: seq<Credential>, i: int, pubkey: string) {
    0 <= i < |cs| && cs[i].pubkey == pubkey && forall j :: 0 <= j < i ==> cs[j].pubkey != pubkey
  }

  lemma {:induction false} FirstIff(cs: seq<Credential>, pubkey: string)
    ensures forall i :: IsFirst(cs, i, pubkey) ==> FirstCredential(cs, pubkey) == Some(cs[i])
    ensures FirstCredential(cs, pubkey).Some? ==> exists i :: IsFirst(cs, i, pubkey)
  {
    if cs != [] {
      var rest := cs[1..];
      FirstIff(rest, pubkey);
      if cs[0].pubkey == pubkey {
        assert IsFirst(cs, 0, pubkey);
      } else {
        if i :| IsFirst(rest, i, pubkey) {
          assert IsFirst(cs, i + 1, pubkey);
        }
        forall i | IsFirst(cs, i, pubkey)
          ensures FirstCredential(cs, pubkey) == Some(cs[i])
        {
          assert IsFirst(rest, i - 1, pubkey);
        }
      }
    }
  }

  /** The assertion is sound, for the first credential, with a live challenge of this pubkey or of nobody, and counts up. */
  ghost predicate MayLogIn(db: Db, e: Event)
    requires e.Login?
  {
    && e.sound
    && (exists i :: IsFirst(db.credentials, i, e.pubkey) && db.credentials[i].credentialId == e.credentialId &&
          (e.count == 0 || db.credentials[i].counter < e.count))
    && exists c :: c in db.challenges && c.challenge == e.challenge && c.bucket in {e.pubkey, "__discoverable__"} &&
          Alive(c.createdAt, e.now)
  }

  /** A login is accepted exactly then; it spends the challenge and sets the counter, and otherwise nothing changes. */
  lemma LoginIff(s: State, e: Event)
    requires Enabled(s, e) && e.Login?
    ensures var s' := Next(s, e);
      if MayLogIn(s.db, e) then
        && s'.accepted == s.accepted + [Accepted(e.challenge, e.pubkey, e.count)]
        && (forall c :: c in s'.db.challenges <==> c in s.db.challenges && c.challenge != e.challenge)
        && |s'.db.credentials| == |s.db.credentials|
        && (forall i :: 0 <= i < |s.db.credentials| ==>
              s'.db.credentials[i] ==
                if s.db.credentials[i].pubkey == e.pubkey then s.db.credentials[i].(counter := e.count)
                else s.db.credentials[i])
        && s'.db.salts == s.db.salts && s'.handlers == s.handlers && s'.issued == s.issued
      else s' == s
  {
    hide FirstCredential;
    FirstIff(s.db.credentials, e.pubkey);
  }

  /** So in every run each accepted login was a sound one that met all of that. */
  lemma {:induction false} AcceptedWereSound(states: seq<State>, events: seq<Event>, i: nat, j: nat)
    requires Run(states, events) && i < |states| && j < |states[i].accepted|
    ensures exists k ::
      0 <= k < i && events[k].Login? && MayLogIn(states[k].db, events[k]) && |states[k].accepted| == j &&
      states[i].accepted[j] == Accepted(events[k].challenge, events[k].pubkey, events[k].count)
  {
    hide MayLogIn, LoginPasses, RegistrationCheck, FirstCredential, CommitRegistration;
    var s, e := states[i - 1], events[i - 1];
    if e.Login? {
      LoginIff(s, e);
    }
    if j < |s.accepted| {
      AcceptedWereSound(states, events, i - 1, j);
    }
  }

  /** A registration challenge in its own bucket and its salt, both alive. */
  ghost predicate MayRegister(db: Db, challenge: string, now: nat) {
    challenge in db.salts && Alive(db.salts[challenge].createdAt, now) &&
    exists c :: c in db.challenges && c.challenge == challenge && c.bucket == challenge && Alive(c.createdAt, now)
  }

  /** The four statements of a registration: who passes, and what the last one stores. */
  lemma RegistrationSteps(s: State, e: Event)
    requires Enabled(s, e) && (e.Check? || e.Existing? || e.Gate? || e.Commit?)
    ensures var (x, x', s') := (s.handlers[e.h], Next(s, e).handlers[e.h], Next(s, e));
      && (e.Check? && MayRegister(s.db, x.req.challenge, x.req.now) ==>
            x' == Salted(x.req, s.db.salts[x.req.challenge].prfSalt))
      && (e.Check? && !MayRegister(s.db, x.req.challenge, x.req.now) ==> x' == Finished(false))
      && (e.Existing? && (exists c :: c in s.db.credentials && c.pubkey == x.req.pubkey) ==> x' == Finished(false))
      && (e.Existing? && (forall c :: c in s.db.credentials ==> c.pubkey != x.req.pubkey) ==> x' == Unregistered(x.req, x.prfSalt))
      && (e.Gate? ==> x' == if e.allowed then Admitted(x.req, x.prfSalt) else Finished(false))
      && (!e.Commit? ==> s'.db == s.db)
      && (e.Commit? ==>
            && s'.db.salts == s.db.salts - {x.req.challenge}
            && (forall c :: c in s'.db.challenges <==> c in s.db.challenges && c.challenge != x.req.challenge)
            && s'.db.credentials == s.db.credentials +
                 if x.req.challenge in s.db.salts && s.db.salts[x.req.challenge].prfSalt == x.prfSalt
                 then [Credential(x.req.pubkey, x.req.credentialId, x.req.publicKey, x.prfSalt, x.req.signCount,
                                  x.req.challenge, x.req.signCount)]
                 else [])
  {
    hide LoginPasses, FirstCredential;
    if e.Existing? {
      FirstNoneIff(s.db.credentials, s.handlers[e.h].req.pubkey);
    }
  }

  /** Issuing a challenge sweeps the old ones and adds one row, and for a registration its salt. */
  lemma IssuingSteps(s: State, e: Event)
    requires Enabled(s, e) && (e.RegisterOptions? || e.LoginOptions?)
    ensures var db' := Next(s, e).db;
      && (forall c :: c in db'.challenges <==>
            (c in s.db.challenges && Kept(c.createdAt, e.now)) ||
            c == ChallengeRow(if e.RegisterOptions? then e.challenge else e.bucket, e.challenge, e.now))
      && (e.LoginOptions? ==> db'.salts == s.db.salts)
      && (e.RegisterOptions? ==>
            && (forall c :: c in db'.salts <==> c == e.challenge || (c in s.db.salts && Kept(s.db.salts[c].createdAt, e.now)))
            && (forall c :: c in db'.salts ==> db'.salts[c] == if c == e.challenge then SaltRow(e.prfSalt, e.now) else s.db.salts[c]))
      && db'.credentials == s.db.credentials
  {
  }

  /** The handler's check was passed in an earlier state, for this request and with this salt. */
  ghost predicate WasChecked(states: seq<State>, events: seq<Event>, i: nat, h: nat, req: Request, prfSalt: string) {
    exists k :: 0 <= k < i && k < |events| && k < |states| && events[k] == Check(h) && MayRegister(states[k].db, req.challenge, req.now) &&
      states[k].db.salts[req.challenge].prfSalt == prfSalt
  }

  ghost predicate WasAllowed(events: seq<Event>, i: nat, h: nat) {
    exists k :: 0 <= k < i && k < |events| && events[k] == Gate(h, true)
  }

  ghost predicate WasStored(states: seq<State>, events: seq<Event>, i: nat, c: Credential) {
    exists h, req :: WasChecked(states, events, i, h, req, c.prfSalt) && WasAllowed(events, i, h) &&
      c.pubkey == req.pubkey && c.credentialId == req.credentialId && c.publicKey == req.publicKey && c.via == req.challenge &&
      c.enrolled == req.signCount
  }

  lemma WasLater(states: seq<State>, events: seq<Event>, i: nat)
    ensures forall h, req, prfSalt :: WasChecked(states, events, i, h, req, prfSalt) ==> WasChecked(states, events, i + 1, h, req, prfSalt)
    ensures forall h :: WasAllowed(events, i, h) ==> WasAllowed(events, i + 1, h)
    ensures forall c :: WasStored(states, events, i, c) ==> WasStored(states, events, i + 1, c)
  {
    forall h, req, prfSalt | WasChecked(states, events, i, h, req, prfSalt)
      ensures WasChecked(states, events, i + 1, h, req, prfSalt)
    {
      var k :| 0 <= k < i && k < |events| && k < |states| && events[k] == Check(h) && MayRegister(states[k].db, req.challenge, req.now) &&
        states[k].db.salts[req.challenge].prfSalt == prfSalt;
    }
    forall h | WasAllowed(events, i, h)
      ensures WasAllowed(events, i + 1, h)
    {
      var k :| 0 <= k < i && k < |events| && events[k] == Gate(h, true);
    }
  }

  lemma CheckedStep(states: seq<State>, events: seq<Event>, i: nat, h: nat)
    requires Run(states, events) && i < |events| && h in states[i + 1].handlers
    requires h in states[i].handlers ==> HandlerWasChecked(states, events, i, h)
    ensures HandlerWasChecked(states, events, i + 1, h)
  {
    hide MayRegister, RegistrationCheck, LoginPasses, FirstCredential, WasStored, CommitRegistration;
    WasLater(states, events, i);
    var s, e := states[i], events[i];
    if !e.RegisterOptions? && !e.LoginOptions? && !e.Arrive? && !e.Login? && e.h == h {
      RegistrationSteps(s, e);
    }
  }

  /** What a handler past the check, or past the gate, has behind it. */
  ghost predicate HandlerWasChecked(states: seq<State>, events: seq<Event>, i: nat, h: nat)
    requires i < |states| && h in states[i].handlers
  {
    var x := states[i].handlers[h];
    (x.Salted? || x.Unregistered? || x.Admitted? ==> WasChecked(states, events, i, h, x.req, x.prfSalt)) &&
    (x.Admitted? ==> WasAllowed(events, i, h))
  }

  ghost predicate AllWereStored(states: seq<State>, events: seq<Event>, i: nat)
    requires i < |states|
  {
    forall c <- states[i].db.credentials :: WasStored(states, events, i, c)
  }

  lemma StoredStep(states: seq<State>, events: seq<Event>, i: nat)
    requires Run(states, events) && i < |events|
    requires forall h <- states[i].handlers :: HandlerWasChecked(states, events, i, h)
    requires AllWereStored(states, events, i)
    ensures AllWereStored(states, events, i + 1)
  {
    hide MayRegister, RegistrationCheck, LoginPasses, FirstCredential, WasChecked, WasAllowed, MayLogIn;
    WasLater(states, events, i);
    var s, s', e := states[i], states[i + 1], events[i];
    if e.Login? {
      LoginIff(s, e);
      forall c | c in s'.db.credentials
        ensures WasStored(states, events, i + 1, c)
      {
        var k :| 0 <= k < |s'.db.credentials| && s'.db.credentials[k] == c;
        assert s.db.credentials[k] in s.db.credentials;
        assert WasStored(states, events, i + 1, s.db.credentials[k]);
      }
    } else if e.Commit? {
      RegistrationSteps(s, e);
      assert HandlerWasChecked(states, events, i, e.h);
    } else {
      assert s'.db.credentials == s.db.credentials;
    }
  }

  /**
   * In every run each stored credential is that of a registration that passed the check, with its challenge and
   * salt alive and this salt, and then the gate.
   */
  lemma {:induction false} CredentialsWereChecked(states: seq<State>, events: seq<Event>, i: nat)
    requires Run(states, events) && i < |states|
    ensures forall h <- states[i].handlers :: HandlerWasChecked(states, events, i, h)
    ensures AllWereStored(states, events, i)
  {
    hide HandlerWasChecked, WasStored, Next, Enabled;
    if i > 0 {
      CredentialsWereChecked(states, events, i - 1);
      forall h | h in states[i].handlers
        ensures HandlerWasChecked(states, events, i, h)
      {
        CheckedStep(states, events, i - 1, h);
      }
      StoredStep(states, events, i - 1);
    }
  }

  // -------------------------------------------------------------------------
  // Sign counters (section 7.2 of WebAuthn Level 2)
  // -------------------------------------------------------------------------

  /** The sign counts accepted for one pubkey, oldest first. */
  function Counts(accepted: seq<Accepted>, pubkey: string): (cs: seq<nat>) {
    if accepted == [] then [] else
    var last := accepted[|accepted| - 1];
    Counts(accepted[..|accepted| - 1], pubkey) + if last.pubkey == pubkey then [last.count] else []
  }

  /** The sign count at registration, then the accepted ones. */
  function Ladder(c: Credential, accepted: seq<Accepted>): (l: seq<nat>)
    ensures |l| >= 1
  {
    [c.enrolled] + Counts(accepted, c.pubkey)
  }

  /** Every count is zero or exceeds the one before. */
  predicate Climbs(l: seq<nat>) {
    forall i :: 0 < i < |l| ==> l[i] == 0 || l[i] > l[i - 1]
  }

  ghost predicate CounterOk(s: State, pubkey: string) {
    match FirstCredential(s.db.credentials, pubkey)
    case None => Counts(s.accepted, pubkey) == []
    case Some(c) => var l := Ladder(c, s.accepted); Climbs(l) && c.counter == l[|l| - 1]
  }

  lemma {:induction false} FirstAfterAppend(cs: seq<Credential>, c: Credential, pubkey: string)
    ensures FirstCredential(cs + [c], pubkey) ==
      if FirstCredential(cs, pubkey).Some? then FirstCredential(cs, pubkey)
      else if c.pubkey == pubkey then Some(c) else None
  {
    if cs != [] {
      assert (cs + [c])[1..] == cs[1..] + [c];
      FirstAfterAppend(cs[1..], c, pubkey);
    }
  }

  lemma {:induction false} FirstAfterSetCounter(cs: seq<Credential>, target: string, count: nat, pubkey: string)
    ensures FirstCredential(SetCounter(cs, target, count), pubkey) ==
      match FirstCredential(cs, pubkey)
      case None => None
      case Some(c) => Some(if pubkey == target then c.(counter := count) else c)
  {
    if cs != [] {
      assert SetCounter(cs, target, count)[1..] == SetCounter(cs[1..], target, count);
      FirstAfterSetCounter(cs[1..], target, count, pubkey);
    }
  }

  lemma CountsAfter(accepted: seq<Accepted>, a: Accepted, pubkey: string)
    ensures Counts(accepted + [a], pubkey) == Counts(accepted, pubkey) + if a.pubkey == pubkey then [a.count] else []
  {
    assert (accepted + [a])[..|accepted|] == accepted;
  }

  lemma CounterKeptByCommit(s: State, e: Event, pubkey: string)
    requires CounterOk(s, pubkey) && Enabled(s, e) && e.Commit?
    ensures CounterOk(Next(s, e), pubkey)
  {
    hide Counts, FirstCredential, LoginPasses, RegistrationCheck;
    FirstAfterAppend(s.db.credentials, NewCredential(s.handlers[e.h]), pubkey);
  }

  lemma ClimbsOn(l: seq<nat>, n: nat)
    requires Climbs(l) && |l| >= 1 && (n == 0 || n > l[|l| - 1])
    ensures Climbs(l + [n])
  {
  }

  lemma AcceptedLogin(s: State, e: Event)
    requires Enabled(s, e) && e.Login?
    requires LoginPasses(s.db, e.pubkey, e.credentialId, e.challenge, e.count, e.now, e.sound)
    ensures Next(s, e).db.credentials == SetCounter(s.db.credentials, e.pubkey, e.count)
    ensures Next(s, e).accepted == s.accepted + [Accepted(e.challenge, e.pubkey, e.count)]
    ensures var c := FirstCredential(s.db.credentials, e.pubkey);
      c.Some? && (e.count == 0 || e.count > c.value.counter)
  {
  }

  lemma CounterKeptByLogin(s: State, e: Event, pubkey: string)
    requires CounterOk(s, pubkey) && Enabled(s, e) && e.Login?
    requires LoginPasses(s.db, e.pubkey, e.credentialId, e.challenge, e.count, e.now, e.sound)
    ensures CounterOk(Next(s, e), pubkey)
  {
    hide Counts, LoginPasses, FirstCredential, Next, Climbs;
    AcceptedLogin(s, e);
    FirstAfterSetCounter(s.db.credentials, e.pubkey, e.count, pubkey);
    CountsAfter(s.accepted, Accepted(e.challenge, e.pubkey, e.count), pubkey);
    if pubkey == e.pubkey {
      var l := Ladder(FirstCredential(s.db.credentials, pubkey).value, s.accepted);
      var l' := Ladder(FirstCredential(Next(s, e).db.credentials, pubkey).value, Next(s, e).accepted);
      assert l' == l + [e.count];
      ClimbsOn(l, e.count);
    } else {
      assert Counts(Next(s, e).accepted, pubkey) == Counts(s.accepted, pubkey);
    }
  }

  lemma CounterKept(s: State, e: Event, pubkey: string)
    requires CounterOk(s, pubkey) && Enabled(s, e)
    ensures CounterOk(Next(s, e), pubkey)
  {
    hide Counts, LoginPasses, FirstCredential, CommitRegistration, RegistrationCheck;
    if e.Commit? {
      CounterKeptByCommit(s, e, pubkey);
    } else if e.Login? {
      if LoginPasses(s.db, e.pubkey, e.credentialId, e.challenge, e.count, e.now, e.sound) {
        CounterKeptByLogin(s, e, pubkey);
      }
    }
  }

  lemma {:induction false} RunKeepsCounters(states: seq<State>, events: seq<Event>, i: nat, pubkey: string)
    requires Run(states, events) && i < |states|
    ensures CounterOk(states[i], pubkey)
  {
    hide Next, Enabled, CounterOk;
    if i > 0 {
      RunKeepsCounters(states, events, i - 1, pubkey);
      CounterKept(states[i - 1], events[i - 1], pubkey);
    } else {
      NoCounters(pubkey);
    }
  }

  lemma NoCounters(pubkey: string)
    ensures CounterOk(EMPTY, pubkey)
  {
  }

  lemma {:induction false} ClimbsFrom(l: seq<nat>, a: nat, b: nat)
    requires Climbs(l) && a < b < |l| && forall k :: a < k <= b ==> l[k] != 0
    ensures l[a] < l[b]
    decreases b
  {
    if a < b - 1 {
      ClimbsFrom(l, a, b - 1);
    }
  }

  /**
   * In every run: the stored counter is the last accepted sign count, each accepted count is zero or
   * exceeds the one before, and the accepted counts increase strictly exactly when none of them is zero.
   */
  lemma CountersAndReplays(states: seq<State>, events: seq<Event>, i: nat, pubkey: string)
    requires Run(states, events) && i < |states| && FirstCredential(states[i].db.credentials, pubkey).Some?
    ensures var c := FirstCredential(states[i].db.credentials, pubkey).value;
      var l := Ladder(c, states[i].accepted);
      c.counter == l[|l| - 1] && Climbs(l) &&
      ((forall a, b :: 0 <= a < b < |l| ==> l[a] < l[b]) <==> (forall k :: 0 < k < |l| ==> l[k] != 0))
  {
    RunKeepsCounters(states, events, i, pubkey);
    var l := Ladder(FirstCredential(states[i].db.credentials, pubkey).value, states[i].accepted);
    if forall k :: 0 < k < |l| ==> l[k] != 0 {
      forall a, b | 0 <= a < b < |l| ensures l[a] < l[b] {
        ClimbsFrom(l, a, b);
      }
    }
    if forall a, b :: 0 <= a < b < |l| ==> l[a] < l[b] {
      forall k | 0 < k < |l| ensures l[k] != 0 {
        assert l[k - 1] < l[k];
      }
    }
  }

  /** A zero count resets the ledger: after it any count at all is accepted, however small. */
  lemma ZeroCountReopensTheLadder(s: State, pubkey: string, first: string, second: string, count: nat, now: nat)
    requires |pubkey| == PUBKEY_LENGTH && first != second && FirstCredential(s.db.credentials, pubkey).Some?
    requires LoginCheck(s.db, first, pubkey, now) && LoginCheck(s.db, second, pubkey, now)
    ensures var id := FirstCredential(s.db.credentials, pubkey).value.credentialId;
      var s1 := Next(s, Login(pubkey, id, first, 0, now, true));
      var s2 := Next(s1, Login(pubkey, id, second, count, now, true));
      s2.accepted == s.accepted + [Accepted(first, pubkey, 0), Accepted(second, pubkey, count)]
  {
    hide FirstCredential, Counts;
    var id := FirstCredential(s.db.credentials, pubkey).value.credentialId;
    var login := Login(pubkey, id, first, 0, now, true);
    AcceptedLogin(s, login);
    var s1 := Next(s, login);
    FirstAfterSetCounter(s.db.credentials, pubkey, 0, pubkey);
    StillLive(s.db, first, second, pubkey, now);
    assert s1.db.challenges == DeleteChallenge(s.db, first).challenges;
    AcceptedLogin(s1, Login(pubkey, id, second, count, now, true));
  }

  lemma StillLive(db: Db, spent: string, other: string, pubkey: string, now: nat)
    requires spent != other && LoginCheck(db, other, pubkey, now)
    ensures forall db': Db :: db'.challenges == DeleteChallenge(db, spent).challenges ==> LoginCheck(db', other, pubkey, now)
  {
    var c :| c in db.challenges && c.challenge == other && c.createdAt > FiveMinutesBefore(now) && c.bucket in {pubkey, DISCOVERABLE};
    assert c in DeleteChallenge(db, spent).challenges;
  }

  /** It happens: from the empty tables, enrolled with a count of 9, the counts 0 and 3 are both accepted. */
  lemma LadderIsReopened(pubkey: string, a: string, b: string, c: string, now: nat) returns (states: seq<State>,
      events: seq<Event>)
    requires |pubkey| == PUBKEY_LENGTH && |a| == |b| == |c| == CHALLENGE_LENGTH && a != b && a != c && b != c
    requires now > 0
    ensures Run(states, events) && |states| == 11
    ensures |states[8].db.credentials| == 1 && Ladder(states[8].db.credentials[0], states[10].accepted) == [9, 0, 3]
  {
    hide Takes, Run, Last, IssuingOne, One, Enrolled, Live, Lower, Next, Enabled, FirstCredential;
    LowerTwice(pubkey);
    var p := Request(Lower(pubkey), a, "1", "", 9, now);
    var s1, s6, s8 := IssuingOne(a, now), Enrolled(p), Live(p, b, c);
    OneIssued(a, now);
    OneEnrols(p);
    TwoLoginsIssued(p, b, c);
    ReadyToLogIn(p, b, c);
    ZeroCountReopensTheLadder(s8, p.pubkey, b, c, 3, now);
    var first, second := Login(p.pubkey, "1", b, 0, now, true), Login(p.pubkey, "1", c, 3, now, true);
    LoginTakes(s8, first);
    LoginTakes(Next(s8, first), second);
    states, events := [EMPTY], [];
    NoSteps();
    states, events := Extended(states, events, RegisterOptions(a, "", now), s1);
    states, events := Extended(states, events, Arrive(1, p), One(s1, Checking(p)));
    states, events := Extended(states, events, Check(1), One(s1, Salted(p, "")));
    states, events := Extended(states, events, Existing(1), One(s1, Unregistered(p, "")));
    states, events := Extended(states, events, Gate(1, true), One(s1, Admitted(p, "")));
    states, events := Extended(states, events, Commit(1), s6);
    states, events := Extended(states, events, LoginOptions(b, DISCOVERABLE, now), LiveOne(p, b));
    states, events := Extended(states, events, LoginOptions(c, DISCOVERABLE, now), s8);
    states, events := Extended(states, events, first, Next(s8, first));
    states, events := Extended(states, events, second, Next(Next(s8, first), second));
    var logins := [Accepted(b, p.pubkey, 0), Accepted(c, p.pubkey, 3)];
    CountsOfTwo(logins[0], logins[1], p.pubkey);
    assert states[10].accepted == [] + logins == logins;
    assert states[8] == s8;
  }

  /** One credential stored, then a login challenge issued, and another. */
  function Enrolled(p: Request): State {
    State(Db({}, map[], [Credential(p.pubkey, p.credentialId, p.publicKey, "", p.signCount, p.challenge, p.signCount)]),
          map[1 := Finished(true)], map[p.challenge := ForRegistration("")], [])
  }

  function LiveOne(p: Request, b: string): State {
    Enrolled(p).(db := Enrolled(p).db.(challenges := {ChallengeRow(DISCOVERABLE, b, p.now)}),
                 issued := Enrolled(p).issued[b := ForLogin(DISCOVERABLE)])
  }

  function Live(p: Request, b: string, c: string): State {
    var rows := {ChallengeRow(DISCOVERABLE, b, p.now), ChallengeRow(DISCOVERABLE, c, p.now)};
    LiveOne(p, b).(db := LiveOne(p, b).db.(challenges := rows), issued := LiveOne(p, b).issued[c := ForLogin(DISCOVERABLE)])
  }

  lemma OneEnrols(p: Request)
    requires p.now > 0 && |p.pubkey| == PUBKEY_LENGTH && InLowerCase(p) == p
    ensures var s := IssuingOne(p.challenge, p.now);
      && Takes(s, Arrive(1, p), One(s, Checking(p)))
      && Takes(One(s, Checking(p)), Check(1), One(s, Salted(p, "")))
      && Takes(One(s, Salted(p, "")), Existing(1), One(s, Unregistered(p, "")))
      && Takes(One(s, Unregistered(p, "")), Gate(1, true), One(s, Admitted(p, "")))
      && Takes(One(s, Admitted(p, "")), Commit(1), Enrolled(p))
  {
    hide Lower, LoginPasses, SetCounter, IssueRegistration, IssueLogin;
    var s := IssuingOne(p.challenge, p.now);
    assert ChallengeRow(p.challenge, p.challenge, p.now) in s.db.challenges;
    assert RegistrationCheck(s.db, p.challenge, p.now);
    assert Next(One(s, Admitted(p, "")), Commit(1)).db.challenges == {};
    assert Next(One(s, Admitted(p, "")), Commit(1)).db.salts == map[];
  }

  lemma TwoLoginsIssued(p: Request, b: string, c: string)
    requires |b| == |c| == CHALLENGE_LENGTH && b != p.challenge && c != p.challenge && b != c
    ensures Takes(Enrolled(p), LoginOptions(b, DISCOVERABLE, p.now), LiveOne(p, b))
    ensures Takes(LiveOne(p, b), LoginOptions(c, DISCOVERABLE, p.now), Live(p, b, c))
  {
    hide RegistrationCheck, LoginPasses, FirstCredential;
    assert Sweep(Enrolled(p).db, p.now).challenges == {};
    assert Sweep(LiveOne(p, b).db, p.now).challenges == {ChallengeRow(DISCOVERABLE, b, p.now)};
  }

  lemma ReadyToLogIn(p: Request, b: string, c: string)
    requires p.now > 0
    ensures var s := Live(p, b, c);
      && FirstCredential(s.db.credentials, p.pubkey) == Some(s.db.credentials[0])
      && s.db.credentials == Enrolled(p).db.credentials && s.accepted == []
      && s.db.credentials[0].credentialId == p.credentialId && s.db.credentials[0].enrolled == p.signCount
      && s.db.credentials[0].pubkey == p.pubkey && |s.db.credentials| == 1
      && LoginCheck(s.db, b, p.pubkey, p.now) && LoginCheck(s.db, c, p.pubkey, p.now)
  {
    var s := Live(p, b, c);
    assert ChallengeRow(DISCOVERABLE, b, p.now) in s.db.challenges;
    assert ChallengeRow(DISCOVERABLE, c, p.now) in s.db.challenges;
  }

  lemma LoginTakes(s: State, e: Event)
    requires e.Login? && |e.pubkey| == PUBKEY_LENGTH
    ensures Enabled(s, e) && Takes(s, e, Next(s, e))
  {
  }

  lemma CountsOfTwo(x: Accepted, y: Accepted, pubkey: string)
    requires x.pubkey == y.pubkey == pubkey
    ensures Counts([x, y], pubkey) == [x.count, y.count]
  {
    CountsAfter([], x, pubkey);
    CountsAfter([x], y, pubkey);
    assert [] + [x] == [x] && [x] + [y] == [x, y];
  }

  // -------------------------------------------------------------------------
  // One credential per pubkey?
  // -------------------------------------------------------------------------

  ghost predicate OnePerPubkey(cs: seq<Credential>) {
    forall i, j :: 0 <= i < j < |cs| ==> cs[i].pubkey != cs[j].pubkey
  }

  lemma {:induction false} FirstNoneIff(cs: seq<Credential>, pubkey: string)
    ensures FirstCredential(cs, pubkey).None? <==> forall c <- cs :: c.pubkey != pubkey
  {
    if cs != [] {
      FirstNoneIff(cs[1..], pubkey);
      assert cs == [cs[0]] + cs[1..];
    }
  }

  lemma OneMoreIff(cs: seq<Credential>, c: Credential)
    ensures OnePerPubkey(cs + [c]) <==> OnePerPubkey(cs) && FirstCredential(cs, c.pubkey).None?
  {
    FirstNoneIff(cs, c.pubkey);
    var all := cs + [c];
    assert forall i :: 0 <= i < |cs| ==> all[i] == cs[i];
    assert all[|cs|] == c;
    if OnePerPubkey(all) {
      forall x | x in cs ensures x.pubkey != c.pubkey {
        var i :| 0 <= i < |cs| && cs[i] == x;
        assert all[i].pubkey != all[|cs|].pubkey;
      }
      assert forall i, j :: 0 <= i < j < |cs| ==> all[i].pubkey != all[j].pubkey;
    }
  }

  lemma SetCounterKeepsPubkeys(cs: seq<Credential>, pubkey: string, count: nat)
    ensures OnePerPubkey(SetCounter(cs, pubkey, count)) <==> OnePerPubkey(cs)
  {
    var after := SetCounter(cs, pubkey, count);
    assert forall i :: 0 <= i < |cs| ==> after[i].pubkey == cs[i].pubkey;
  }

  /** A commit that stores a credential does so for a pubkey that has none. */
  predicate CommitsFirst(s: State, e: Event)
    requires Enabled(s, e)
  {
    e.Commit? && CommitRegistration(s.db, NewCredential(s.handlers[e.h])).1 ==>
      FirstCredential(s.db.credentials, s.handlers[e.h].req.pubkey).None?
  }

  lemma PubkeysStep(s: State, e: Event)
    requires Enabled(s, e)
    ensures OnePerPubkey(Next(s, e).db.credentials) <==> OnePerPubkey(s.db.credentials) && CommitsFirst(s, e)
  {
    hide OnePerPubkey, FirstCredential, RegistrationCheck, LoginPasses;
    if e.Commit? {
      OneMoreIff(s.db.credentials, NewCredential(s.handlers[e.h]));
    } else if e.Login? {
      SetCounterKeepsPubkeys(s.db.credentials, e.pubkey, e.count);
    }
  }

  /** In any run pubkeys are unique exactly when every storing commit so far found none for its pubkey. */
  lemma {:induction false} PubkeysAreUniqueIff(states: seq<State>, events: seq<Event>, i: nat)
    requires Run(states, events) && i < |states|
    ensures OnePerPubkey(states[i].db.credentials) <==> forall k :: 0 <= k < i ==> CommitsFirst(states[k], events[k])
  {
    hide Next, Enabled, CommitsFirst;
    if i > 0 {
      PubkeysAreUniqueIff(states, events, i - 1);
      PubkeysStep(states[i - 1], events[i - 1]);
    }
  }

  /** Past the lookup for an existing credential, and not yet committed. */
  predicate InGap(x: Handler) {
    x.Unregistered? || x.Admitted?
  }

  ghost predicate NoGapRace(s: State) {
    forall g, h :: g in s.handlers && h in s.handlers && g != h && InGap(s.handlers[g]) && InGap(s.handlers[h]) ==>
      s.handlers[g].req.pubkey != s.handlers[h].req.pubkey
  }

  ghost predicate GapsAreClear(s: State) {
    forall h <- s.handlers :: InGap(s.handlers[h]) ==> FirstCredential(s.db.credentials, s.handlers[h].req.pubkey).None?
  }

  lemma GapsStayClear(s: State, e: Event)
    requires Enabled(s, e) && GapsAreClear(s) && NoGapRace(s)
    ensures GapsAreClear(Next(s, e)) && CommitsFirst(s, e)
  {
    hide FirstCredential, RegistrationCheck, LoginPasses, SetCounter;
    var s' := Next(s, e);
    forall h | h in s'.handlers && InGap(s'.handlers[h])
      ensures FirstCredential(s'.db.credentials, s'.handlers[h].req.pubkey).None?
    {
      var pubkey := s'.handlers[h].req.pubkey;
      if e.Commit? {
        FirstAfterAppend(s.db.credentials, NewCredential(s.handlers[e.h]), pubkey);
      } else if e.Login? {
        FirstAfterSetCounter(s.db.credentials, e.pubkey, e.count, pubkey);
      }
    }
  }

  /**
   * So each pubkey has at most one credential in every run in which no two handlers of one pubkey are
   * past the lookup at once, and a handler past it has none.
   */
  lemma {:induction false} WithoutGapRacesPubkeysAreUnique(states: seq<State>, events: seq<Event>, i: nat)
    requires Run(states, events) && i < |states| && forall k :: 0 <= k < i ==> NoGapRace(states[k])
    ensures OnePerPubkey(states[i].db.credentials) && GapsAreClear(states[i])
  {
    hide Next, Enabled, CommitsFirst, GapsAreClear, NoGapRace, OnePerPubkey;
    if i > 0 {
      WithoutGapRacesPubkeysAreUnique(states, events, i - 1);
      GapsStayClear(states[i - 1], events[i - 1]);
      PubkeysStep(states[i - 1], events[i - 1]);
    } else {
      NoCredentials();
    }
  }

  lemma NoCredentials()
    ensures OnePerPubkey(EMPTY.db.credentials) && GapsAreClear(EMPTY)
  {
  }

  /** Every pubkey in play is in lower case. */
  ghost predicate PubkeysLower(s: State) {
    (forall x <- s.db.credentials :: x.pubkey == Lower(x.pubkey)) &&
    forall h <- s.handlers :: !s.handlers[h].Finished? ==> s.handlers[h].req.pubkey == Lower(s.handlers[h].req.pubkey)
  }

  lemma LowerStep(s: State, e: Event)
    requires Enabled(s, e) && PubkeysLower(s)
    ensures PubkeysLower(Next(s, e))
  {
    hide Lower, RegistrationCheck, LoginPasses, FirstCredential;
    var s' := Next(s, e);
    if e.Arrive? {
      LowerTwice(e.req.pubkey);
    }
    if e.Login? && s'.db.credentials != s.db.credentials {
      forall i | 0 <= i < |s'.db.credentials|
        ensures s'.db.credentials[i].pubkey == Lower(s'.db.credentials[i].pubkey)
      {
        assert s.db.credentials[i] in s.db.credentials;
      }
    }
  }

  lemma {:induction false} PubkeysStayLower(states: seq<State>, events: seq<Event>, i: nat)
    requires Run(states, events) && i < |states|
    ensures PubkeysLower(states[i])
  {
    hide Next, Enabled, Lower;
    if i > 0 {
      PubkeysStayLower(states, events, i - 1);
      LowerStep(states[i - 1], events[i - 1]);
    }
  }

  /** And so has each key, in any spelling, because the handler lower-cases the pubkey it is given. */
  lemma WithoutGapRacesKeysAreUnique(states: seq<State>, events: seq<Event>, i: nat)
    requires Run(states, events) && i < |states| && forall k :: 0 <= k < i ==> NoGapRace(states[k])
    ensures var cs := states[i].db.credentials;
      forall j, k :: 0 <= j < k < |cs| ==> Lower(cs[j].pubkey) != Lower(cs[k].pubkey)
  {
    hide Next, Enabled, Lower, NoGapRace, Run;
    WithoutGapRacesPubkeysAreUnique(states, events, i);
    PubkeysStayLower(states, events, i);
    var cs := states[i].db.credentials;
    assert forall j :: 0 <= j < |cs| ==> cs[j] in cs;
  }

  /**
   * The lookup is not part of the batch: a commit inserts exactly while its salt row is there, and gives
   * its pubkey a second credential exactly when one was stored since the lookup.
   */
  lemma LateCommitDuplicatesThePubkey(s: State, h: nat)
    requires Enabled(s, Commit(h))
    ensures var (req, prfSalt) := (s.handlers[h].req, s.handlers[h].prfSalt);
      var s' := Next(s, Commit(h));
      var inserted := req.challenge in s.db.salts && s.db.salts[req.challenge].prfSalt == prfSalt;
      s'.handlers[h] == Finished(inserted) &&
      s'.db.credentials == (if inserted then s.db.credentials + [NewCredential(s.handlers[h])] else s.db.credentials) &&
      (OnePerPubkey(s'.db.credentials) <==>
        OnePerPubkey(s.db.credentials) && (inserted ==> forall c <- s.db.credentials :: c.pubkey != req.pubkey))
  {
    hide OnePerPubkey;
    PubkeysStep(s, Commit(h));
    FirstNoneIff(s.db.credentials, s.handlers[h].req.pubkey);
  }

  /** Such a commit is reachable: two registrations of one pubkey that both look it up before either commits. */
  lemma DuplicateIsReachable(pubkey: string, a: string, b: string, now: nat) returns (states: seq<State>,
      events: seq<Event>)
    requires |pubkey| == PUBKEY_LENGTH && |a| == CHALLENGE_LENGTH && |b| == CHALLENGE_LENGTH && a != b
    requires now > 0
    ensures Run(states, events) && |states| == 13
    ensures var cs := states[12].db.credentials;
      |cs| == 2 && cs[0].pubkey == cs[1].pubkey == Lower(pubkey) && cs[0].credentialId != cs[1].credentialId
  {
    hide Takes, Run, NewCredential, Last, Issuing, Both, Lower;
    LowerTwice(pubkey);
    var p, q := Request(Lower(pubkey), a, "1", "", 0, now), Request(Lower(pubkey), b, "2", "", 0, now);
    TwoIssued(a, b, now);
    var s2 := Issuing(a, b, now);
    TwoArrived(s2, p, q);
    TwoChecked(s2, p, q);
    TwoLookedUp(s2, p, q);
    TwoAdmitted(s2, p, q);
    var between, end := TwoCommitted(p, q, now);
    states, events := [EMPTY], [];
    NoSteps();
    states, events := Extended(states, events, RegisterOptions(a, "", now), IssuingOne(a, now));
    states, events := Extended(states, events, RegisterOptions(b, "", now), s2);
    states, events := Extended(states, events, Arrive(1, p), One(s2, Checking(p)));
    states, events := Extended(states, events, Arrive(2, q), Both(s2, Checking(p), Checking(q)));
    states, events := Extended(states, events, Check(1), Both(s2, Salted(p, ""), Checking(q)));
    states, events := Extended(states, events, Check(2), Both(s2, Salted(p, ""), Salted(q, "")));
    states, events := Extended(states, events, Existing(1), Both(s2, Unregistered(p, ""), Salted(q, "")));
    states, events := Extended(states, events, Existing(2), Both(s2, Unregistered(p, ""), Unregistered(q, "")));
    states, events := Extended(states, events, Gate(1, true), Both(s2, Admitted(p, ""), Unregistered(q, "")));
    states, events := Extended(states, events, Gate(2, true), Both(s2, Admitted(p, ""), Admitted(q, "")));
    states, events := Extended(states, events, Commit(1), between);
    states, events := Extended(states, events, Commit(2), end);
  }

  ghost predicate Takes(s: State, e: Event, s': State) {
    Enabled(s, e) && Next(s, e) == s'
  }

  function Last(states: seq<State>): State
    requires states != []
  {
    states[|states| - 1]
  }

  lemma NoSteps()
    ensures Run([EMPTY], []) && Last([EMPTY]) == EMPTY
  {
  }

  lemma Extended(states: seq<State>, events: seq<Event>, e: Event, s: State) returns (states': seq<State>,
      events': seq<Event>)
    requires Run(states, events) && |states| > 0 && Takes(Last(states), e, s)
    ensures states' == states + [s] && events' == events + [e] && Run(states', events') && Last(states') == s
  {
    hide Next, Enabled;
    states', events' := states + [s], events + [e];
  }

  /** After one, and after both, registration challenges are issued. */
  function IssuingOne(a: string, now: nat): State {
    State(Db({ChallengeRow(a, a, now)}, map[a := SaltRow("", now)], []), map[], map[a := ForRegistration("")], [])
  }

  function Issuing(a: string, b: string, now: nat): (s: State)
    ensures s.handlers == map[] && s.db.credentials == []
  {
    State(Db({ChallengeRow(a, a, now), ChallengeRow(b, b, now)}, map[a := SaltRow("", now), b := SaltRow("", now)], []),
          map[], map[a := ForRegistration(""), b := ForRegistration("")], [])
  }

  function One(s: State, x: Handler): State {
    s.(handlers := map[1 := x])
  }

  function Both(s: State, x: Handler, y: Handler): State {
    s.(handlers := map[1 := x, 2 := y])
  }

  lemma OneIssued(a: string, now: nat)
    requires |a| == CHALLENGE_LENGTH
    ensures Takes(EMPTY, RegisterOptions(a, "", now), IssuingOne(a, now))
  {
    assert IssueRegistration(EMPTY.db, a, "", now) == IssuingOne(a, now).db;
  }

  lemma TwoIssued(a: string, b: string, now: nat)
    requires |a| == CHALLENGE_LENGTH && |b| == CHALLENGE_LENGTH && a != b
    ensures Takes(EMPTY, RegisterOptions(a, "", now), IssuingOne(a, now))
    ensures Takes(IssuingOne(a, now), RegisterOptions(b, "", now), Issuing(a, b, now))
  {
    OneIssued(a, now);
    var db := IssuingOne(a, now).db;
    assert Sweep(db, now).challenges == db.challenges;
    assert IssueRegistration(db, b, "", now).challenges == {ChallengeRow(a, a, now), ChallengeRow(b, b, now)};
    assert IssueRegistration(db, b, "", now).salts == map[a := SaltRow("", now), b := SaltRow("", now)];
  }

  lemma TwoArrived(s: State, p: Request, q: Request)
    requires s.handlers == map[] && |p.pubkey| == |q.pubkey| == PUBKEY_LENGTH
    requires InLowerCase(p) == p && InLowerCase(q) == q
    ensures Takes(s, Arrive(1, p), One(s, Checking(p)))
    ensures Takes(One(s, Checking(p)), Arrive(2, q), Both(s, Checking(p), Checking(q)))
  {
  }

  lemma TwoChecked(s: State, p: Request, q: Request)
    requires p.now == q.now > 0 && s == Issuing(p.challenge, q.challenge, p.now) && p.challenge != q.challenge
    ensures Takes(Both(s, Checking(p), Checking(q)), Check(1), Both(s, Salted(p, ""), Checking(q)))
    ensures Takes(Both(s, Salted(p, ""), Checking(q)), Check(2), Both(s, Salted(p, ""), Salted(q, "")))
  {
    assert ChallengeRow(p.challenge, p.challenge, p.now) in s.db.challenges;
    assert ChallengeRow(q.challenge, q.challenge, p.now) in s.db.challenges;
    assert RegistrationCheck(s.db, p.challenge, p.now) && RegistrationCheck(s.db, q.challenge, q.now);
  }

  lemma TwoLookedUp(s: State, p: Request, q: Request)
    requires s.db.credentials == []
    ensures Takes(Both(s, Salted(p, ""), Salted(q, "")), Existing(1), Both(s, Unregistered(p, ""), Salted(q, "")))
    ensures Takes(Both(s, Unregistered(p, ""), Salted(q, "")), Existing(2), Both(s, Unregistered(p, ""), Unregistered(q, "")))
  {
  }

  lemma TwoAdmitted(s: State, p: Request, q: Request)
    ensures Takes(Both(s, Unregistered(p, ""), Unregistered(q, "")), Gate(1, true), Both(s, Admitted(p, ""), Unregistered(q, "")))
    ensures Takes(Both(s, Admitted(p, ""), Unregistered(q, "")), Gate(2, true), Both(s, Admitted(p, ""), Admitted(q, "")))
  {
  }

  lemma TwoCommitted(p: Request, q: Request, now: nat) returns (between: State, end: State)
    requires p.challenge != q.challenge && p.pubkey == q.pubkey && p.credentialId != q.credentialId
    ensures Takes(Both(Issuing(p.challenge, q.challenge, now), Admitted(p, ""), Admitted(q, "")), Commit(1), between)
    ensures Takes(between, Commit(2), end)
    ensures var cs := end.db.credentials;
      |cs| == 2 && cs[0].pubkey == p.pubkey && cs[1].pubkey == p.pubkey && cs[0].credentialId != cs[1].credentialId
  {
    hide IssueRegistration, RegistrationCheck, FirstCredential, LoginPasses, SetCounter;
    var s := Both(Issuing(p.challenge, q.challenge, now), Admitted(p, ""), Admitted(q, ""));
    between := Next(s, Commit(1));
    end := Next(between, Commit(2));
  }
}
