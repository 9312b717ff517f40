/**
 * NIP-05 handles: the reservation table, its KV mirror, and what claim, release,
 * dismissal and member deletion do to both when they run one after the other.
 */
module Username {
  import opened Ordering
  import opened Results
  import opened Texts

  datatype Error = InvalidLength | InvalidCharset | Reserved | Backend | UsernameTaken | PubkeyHasUsername

  datatype Claim = Claim(username: string, pubkey: string, createdAt: nat)

  datatype Status = Active | Dismissed

  datatype Row = Row(pubkey: string, createdAt: nat, status: Status, realName: Option<string>)

  /** The table by its primary key, and the KV namespace. */
  datatype Directory = Directory(rows: map<string, Row>, kv: map<string, string>)

  const RESERVED: seq<string> := ["admin", "anon", "help", "mod", "null", "official", "root", "support", "system", "undefined"]

  const REAL_NAME_MAX_LEN: nat := 200

  // -------------------------------------------------------------------------
  // Names
  // -------------------------------------------------------------------------

  predicate IsAlnum(c: char) {
    'a' <= c <= 'z' || '0' <= c <= '9'
  }

  /** ^[a-z0-9][a-z0-9_-]{2,29}$ */
  predicate MatchesPattern(s: string) {
    && 3 <= |s| <= 30
    && IsAlnum(s[0])
    && forall i :: 1 <= i < |s| ==> IsAlnum(s[i]) || s[i] == '_' || s[i] == '-'
  }

  predicate ValidName(s: string) {
    MatchesPattern(s) && s !in RESERVED
  }

  /** The table is in order, so the original's binary search in it is membership. */
  lemma ReservedIsAscending()
    ensures Ascending(RESERVED)
  {
    assert Less("admin", "anon") && Less("anon", "help") && Less("help", "mod") && Less("mod", "null") && Less("null", "official");
    assert Less("official", "root") && Less("root", "support") && Less("support", "system") && Less("system", "undefined");
    forall i, j | 0 <= i < j < |RESERVED|
      ensures Less(RESERVED[i], RESERVED[j])
    {
      ChainIsLess(RESERVED, i, j);
    }
  }

  lemma {:induction false} ChainIsLess(keys: seq<string>, i: nat, j: nat)
    requires i < j < |keys|
    requires forall k :: 0 <= k < |keys| - 1 ==> Less(keys[k], keys[k + 1])
    ensures Less(keys[i], keys[j])
    decreases j
  {
    if i < j - 1 {
      ChainIsLess(keys, i, j - 1);
      assert Less(keys[j - 1], keys[j - 1 + 1]);
      LessTransitive(keys[i], keys[j - 1], keys[j]);
    } else {
      assert Less(keys[i], keys[i + 1]);
    }
  }

  method ValidateUsername(s: string) returns (r: Result<(), Error>)
    ensures r.Ok? <==> ValidName(s)
    ensures r == Err(InvalidLength) <==> !(3 <= ByteLength(s) <= 30)
    ensures r == Err(Reserved) <==> MatchesPattern(s) && s in RESERVED
    ensures r.Err? ==> r.error in {InvalidLength, InvalidCharset, Reserved}
  {
    AlnumIsAscii(s);
    var len := ByteLength(s);
    if !(3 <= len <= 30) {
      return Err(InvalidLength);
    }
    assert s != [];
    if !IsAlnum(s[0]) {
      return Err(InvalidCharset);
    }
    var i := 1;
    while i < |s|
      invariant 1 <= i <= |s|
      invariant forall k :: 1 <= k < i ==> IsAlnum(s[k]) || s[k] == '_' || s[k] == '-'
    {
      if !(IsAlnum(s[i]) || s[i] == '_' || s[i] == '-') {
        return Err(InvalidCharset);
      }
      i := i + 1;
    }
    if s in RESERVED {
      return Err(Reserved);
    }
    return Ok(());
  }

  lemma AlnumIsAscii(s: string)
    ensures s != [] && IsAlnum(s[0]) && (forall i :: 1 <= i < |s| ==> IsAlnum(s[i]) || s[i] == '_' || s[i] == '-') ==> ByteLength(s) == |s|
  {
    if s != [] && IsAlnum(s[0]) && forall i :: 1 <= i < |s| ==> IsAlnum(s[i]) || s[i] == '_' || s[i] == '-' {
      forall c | c in s
        ensures Utf8Size(c) == 1
      {
        var i :| 0 <= i < |s| && s[i] == c;
      }
    }
  }

  /** An empty name clears, an over-long one is refused. */
  function NormaliseRealName(raw: string): Result<Option<string>, Error> {
    var trimmed := Trim(raw);
    if trimmed == [] then Ok(None)
    else if ByteLength(trimmed) > REAL_NAME_MAX_LEN then Err(InvalidLength)
    else Ok(Some(trimmed))
  }

  // -------------------------------------------------------------------------
  // Statements
  // -------------------------------------------------------------------------

  function KvKey(name: string): string {
    "nip05:" + name
  }

  lemma KvKeyIsInjective(a: string, b: string)
    ensures KvKey(a) == KvKey(b) ==> a == b
  {
    assert KvKey(a)[6..] == a && KvKey(b)[6..] == b;
  }

  /** name is actively held by pubkey. */
  predicate Holds(d: Directory, name: string, pubkey: string) {
    name in d.rows && d.rows[name].status == Active && d.rows[name].pubkey == pubkey
  }

  predicate HasActive(d: Directory, pubkey: string) {
    exists name :: name in d.rows && Holds(d, name, pubkey)
  }

  predicate HasRow(d: Directory, pubkey: string) {
    exists name :: name in d.rows && d.rows[name].pubkey == pubkey
  }

  /** UNIQUE(pubkey). */
  ghost predicate OneToOne(d: Directory) {
    forall a, b :: a in d.rows && b in d.rows && d.rows[a].pubkey == d.rows[b].pubkey ==> a == b
  }

  /** Every active handle resolves to its key. */
  ghost predicate KvCovers(d: Directory) {
    forall name :: name in d.rows && d.rows[name].status == Active ==> KvKey(name) in d.kv && d.kv[KvKey(name)] == d.rows[name].pubkey
  }

  /** And nothing else resolves. */
  ghost predicate KvExact(d: Directory) {
    && KvCovers(d)
    && forall k :: k in d.kv ==> exists name :: name in d.rows && k == KvKey(name) && d.rows[name].status == Active
  }

  function WithRealName(d: Directory, pubkey: string, realName: Option<string>): Directory {
    d.(rows := map name | name in d.rows :: if d.rows[name].pubkey == pubkey then d.rows[name].(realName := realName) else d.rows[name])
  }

  function WithoutKey(rows: map<string, Row>, pubkey: string): map<string, Row> {
    map name | name in rows && rows[name].pubkey != pubkey :: rows[name]
  }

  ghost function Claimed(d: Directory, pubkey: string, name: string, realName: Option<string>, now: nat): Directory {
    if !ValidName(name) || (realName.Some? && NormaliseRealName(realName.value).Err?) then d
    else
      var clean := if realName.Some? then NormaliseRealName(realName.value).value else None;
      if name !in d.rows && !HasRow(d, pubkey) then
        Directory(d.rows[name := Row(pubkey, now, Active, clean)], d.kv[KvKey(name) := pubkey])
      else if Holds(d, name, pubkey) && clean.Some? then WithRealName(d, pubkey, clean)
      else d
  }

  ghost function Released(d: Directory, pubkey: string): Directory {
    if HasActive(d, pubkey) then
      var name :| name in d.rows && Holds(d, name, pubkey);
      Directory(WithoutKey(d.rows, pubkey), d.kv - {KvKey(name)})
    else d
  }

  function DismissedBy(d: Directory, pubkey: string): Directory {
    d.(rows := map name | name in d.rows :: if Holds(d, name, pubkey) then d.rows[name].(status := Dismissed) else d.rows[name])
  }

  function MemberDeleted(d: Directory, pubkey: string): Directory {
    d.(rows := WithoutKey(d.rows, pubkey))
  }

  /** What an admin's deletion does, guards included. */
  function Deletion(d: Directory, caller: string, pubkey: string): Directory {
    if !IsPubkey(pubkey) || pubkey == caller then d else MemberDeleted(d, pubkey)
  }

  // -------------------------------------------------------------------------
  // Literally
  // -------------------------------------------------------------------------

  /** 3 to 30 characters, a small letter or digit first, then also - and _, and not one of ten words. */
  lemma ValidNameIff(s: string)
    ensures ValidName(s) <==>
      && 3 <= |s| <= 30 && (s[0] in SMALL || s[0] in "0123456789")
      && (forall c <- s :: c in SMALL || c in "0123456789" || c in "-_")
      && s !in {"admin", "anon", "help", "mod", "null", "official", "root", "support", "system", "undefined"}
  {
    hide IsAlnum, SMALL;
    forall i | 0 <= i < |s|
      ensures s[i] in s && (IsAlnum(s[i]) <==> s[i] in SMALL || s[i] in "0123456789")
    {
      AlnumIff(s[i]);
    }
    ReservedAre(s);
  }

  lemma ReservedAre(s: string)
    ensures s in RESERVED <==>
      s in {"admin", "anon", "help", "mod", "null", "official", "root", "support", "system", "undefined"}
  {
  }

  lemma AlnumIff(c: char)
    ensures IsAlnum(c) <==> c in SMALL || c in "0123456789"
  {
    forall k: nat | k < 26
      ensures SMALL[k] as int == 97 + k
    {
      LettersInOrder(k);
    }
    assert forall k :: 0 <= k < 10 ==> "0123456789"[k] as int == 48 + k;
    if 'a' <= c <= 'z' {
      assert SMALL[c as int - 97] == c;
    } else if '0' <= c <= '9' {
      assert "0123456789"[c as int - 48] == c;
    }
  }

  /** A real name is trimmed, cleared when blank, and refused beyond 200 bytes. */
  lemma RealNameIs(raw: string)
    ensures NormaliseRealName(raw) == Err(InvalidLength) <==> ByteLength(Trim(raw)) > 200
    ensures NormaliseRealName(raw) == Ok(None) <==> Trim(raw) == ""
    ensures Trim(raw) != "" && ByteLength(Trim(raw)) <= 200 ==> NormaliseRealName(raw) == Ok(Some(Trim(raw)))
  {
  }

  /** A claim either stores one active row and its KV entry, or changes the real name of the key's row, or nothing. */
  lemma ClaimIs(d: Directory, pubkey: string, name: string, realName: Option<string>, now: nat)
    ensures var d' := Claimed(d, pubkey, name, realName, now);
      var given := if Accepts(name, realName) && realName.Some? then NormaliseRealName(realName.value).value else None;
      var free := Accepts(name, realName) && name !in d.rows && forall n :: n in d.rows ==> d.rows[n].pubkey != pubkey;
      var mine := Accepts(name, realName) && given.Some? &&
        name in d.rows && d.rows[name].status == Active && d.rows[name].pubkey == pubkey;
      && (free ==> d' == Directory(d.rows[name := Row(pubkey, now, Active, given)], d.kv["nip05:" + name := pubkey]))
      && (mine ==> d'.kv == d.kv && d'.rows.Keys == d.rows.Keys)
      && (mine ==> forall n :: n in d.rows ==>
            d'.rows[n] == d.rows[n].(realName := if d.rows[n].pubkey == pubkey then given else d.rows[n].realName))
      && (!free && !mine ==> d' == d)
  {
    hide ValidName, NormaliseRealName;
  }

  /** A release removes the key's one row and its KV entry if that row is active. */
  lemma ReleaseIs(d: Directory, pubkey: string, name: string)
    requires OneToOne(d) && name in d.rows && d.rows[name].pubkey == pubkey
    ensures Released(d, pubkey) ==
      if d.rows[name].status == Active then Directory(d.rows - {name}, d.kv - {"nip05:" + name}) else d
  {
    assert d.rows[name].status == Active ==> Holds(d, name, pubkey);
    assert WithoutKey(d.rows, pubkey) == d.rows - {name};
  }

  /** A dismissal marks the key's active rows, a deletion removes all of its rows, and neither touches KV. */
  lemma AdminStepsAre(d: Directory, pubkey: string)
    ensures DismissedBy(d, pubkey).kv == MemberDeleted(d, pubkey).kv == d.kv
    ensures DismissedBy(d, pubkey).rows.Keys == d.rows.Keys
    ensures forall n :: n in d.rows ==>
      DismissedBy(d, pubkey).rows[n] == d.rows[n].(status := if d.rows[n].pubkey == pubkey then Dismissed else d.rows[n].status)
    ensures forall n :: n in MemberDeleted(d, pubkey).rows <==> n in d.rows && d.rows[n].pubkey != pubkey
    ensures forall n :: n in MemberDeleted(d, pubkey).rows ==> MemberDeleted(d, pubkey).rows[n] == d.rows[n]
  {
  }

  // -------------------------------------------------------------------------
  // The store
  // -------------------------------------------------------------------------

  datatype AdminError = InvalidPubkey | OwnAccount

  class UsernameStore {
    var rows: map<string, Row>
    var kv: map<string, string>

    function View(): Directory
      reads this
    {
      Directory(rows, kv)
    }

    constructor ()
      ensures View() == Directory(map[], map[])
    {
      rows, kv := map[], map[];
    }

    /** The key actively holding a name; the name is validated again. */
    method Check(name: string) returns (r: Result<Option<string>, Error>)
      ensures r.Err? <==> !ValidName(name)
      ensures r.Err? ==> r.error in {InvalidLength, InvalidCharset, Reserved}
      ensures r.Ok? ==> r.value == if name in rows && rows[name].status == Active then Some(rows[name].pubkey) else None
    {
      var valid := ValidateUsername(name);
      if valid.Err? {
        return Err(valid.error);
      }
      if name in rows && rows[name].status == Active {
        return Ok(Some(rows[name].pubkey));
      }
      return Ok(None);
    }

    method LookupByPubkey(pubkey: string) returns (r: Option<string>)
      ensures r.Some? <==> HasActive(View(), pubkey)
      ensures r.Some? ==> r.value in rows && Holds(View(), r.value, pubkey)
    {
      if name :| name in rows && rows[name].status == Active && rows[name].pubkey == pubkey {
        assert Holds(View(), name, pubkey);
        return Some(name);
      }
      return None;
    }

    /** UPDATE by pubkey; the value is normalised again. */
    method SetRealName(pubkey: string, raw: string) returns (r: Result<Option<string>, Error>)
      modifies this`rows
      ensures r == NormaliseRealName(raw)
      ensures View() == if r.Ok? then WithRealName(old(View()), pubkey, r.value) else old(View())
    {
      r := NormaliseRealName(raw);
      if r.Ok? {
        rows := WithRealName(View(), pubkey, r.value).rows;
      }
    }

    /** INSERT under both UNIQUE constraints. */
    method InsertReservation(name: string, row: Row) returns (ok: bool)
      modifies this`rows
      ensures ok <==> name !in old(rows) && !HasRow(old(View()), row.pubkey)
      ensures rows == if ok then old(rows)[name := row] else old(rows)
    {
      if name in rows || exists n :: n in rows && rows[n].pubkey == row.pubkey {
        return false;
      }
      rows := rows[name := row];
      return true;
    }

    method ClaimUsername(pubkey: string, name: string, realName: Option<string>, now: nat)
        returns (r: Result<Claim, Error>)
      requires OneToOne(View()) && KvCovers(View())
      modifies this
      ensures OneToOne(View()) && KvCovers(View()) && (old(KvExact(View())) ==> KvExact(View()))
      ensures View() == Claimed(old(View()), pubkey, name, realName, now)
      ensures r.Ok? ==> r.value == Claim(name, pubkey, now) && Holds(View(), name, pubkey)
      ensures ValidName(name) && (realName.Some? ==> NormaliseRealName(realName.value).Ok?) ==>
        && (r == Err(UsernameTaken) <==> name in old(rows) && old(rows)[name].status == Active && old(rows)[name].pubkey != pubkey)
        && (r == Err(PubkeyHasUsername) <==>
          && !(name in old(rows) && old(rows)[name].status == Active)
          && old(HasActive(View(), pubkey)))
        && (r == Err(Backend) <==>
          && !(name in old(rows) && old(rows)[name].status == Active)
          && !old(HasActive(View(), pubkey))
          && (name in old(rows) || old(HasRow(View(), pubkey))))
        && (r.Err? ==> View() == old(View()))
    {
      hide OneToOne, KvCovers, KvExact, ValidName, NormaliseRealName, KvKey;
      ghost var before := View();
      ClaimKeeps(before, pubkey, name, realName, now);
      var valid := ValidateUsername(name);
      if valid.Err? {
        return Err(valid.error);
      }
      var clean := None;
      if realName.Some? {
        var normal := NormaliseRealName(realName.value);
        if normal.Err? {
          return Err(normal.error);
        }
        clean := normal.value;
      }
      var inserted := InsertReservation(name, Row(pubkey, now, Active, clean));
      if !inserted {
        var existing := Check(name);
        if existing.Ok? && existing.value.Some? {
          if existing.value.value == pubkey {
            if clean.Some? {
              var _ := SetRealName(pubkey, realName.value);
            }
            return Ok(Claim(name, pubkey, now));
          }
          return Err(UsernameTaken);
        }
        var owned := LookupByPubkey(pubkey);
        if owned.Some? {
          return Err(PubkeyHasUsername);
        }
        return Err(Backend);
      }
      kv := kv[KvKey(name) := pubkey];
      return Ok(Claim(name, pubkey, now));
    }

    method Release(pubkey: string) returns (released: Option<string>)
      requires OneToOne(View()) && KvCovers(View())
      modifies this
      ensures OneToOne(View()) && KvCovers(View()) && (old(KvExact(View())) ==> KvExact(View()))
      ensures View() == Released(old(View()), pubkey)
      ensures released.Some? <==> old(HasActive(View(), pubkey))
      ensures released.Some? ==> old(Holds(View(), released.value, pubkey)) && released.value !in rows && KvKey(released.value) !in kv
      ensures !HasActive(View(), pubkey)
    {
      ReleaseKeeps(View(), pubkey);
      var existing := LookupByPubkey(pubkey);
      if existing.None? {
        return None;
      }
      rows := WithoutKey(rows, pubkey);
      kv := kv - {KvKey(existing.value)};
      return existing;
    }

    method DismissRegistration(pubkey: string) returns (r: Result<bool, AdminError>)
      modifies this`rows
      ensures r.Err? <==> !IsPubkey(Lower(pubkey))
      ensures r.Ok? ==> View() == DismissedBy(old(View()), Lower(pubkey)) && r.value == old(HasActive(View(), Lower(pubkey)))
      ensures r.Err? ==> r.error == InvalidPubkey && View() == old(View())
    {
      var key := Lower(pubkey);
      if !IsPubkey(key) {
        return Err(InvalidPubkey);
      }
      var dismissed := exists name :: name in rows && rows[name].status == Active && rows[name].pubkey == key;
      assert dismissed ==> HasActive(View(), key) by {
        if dismissed {
          var name :| name in rows && rows[name].status == Active && rows[name].pubkey == key;
          assert Holds(View(), name, key);
        }
      }
      rows := DismissedBy(View(), key).rows;
      return Ok(dismissed);
    }

    /** The key is not lower-cased here, unlike in the dismissal. */
    method DeleteMember(caller: string, pubkey: string) returns (r: Result<(), AdminError>)
      modifies this`rows
      ensures r == if !IsPubkey(pubkey) then Err(InvalidPubkey) else if pubkey == caller then Err(OwnAccount) else Ok(())
      ensures View() == Deletion(old(View()), caller, pubkey)
    {
      if !IsPubkey(pubkey) {
        return Err(InvalidPubkey);
      }
      if pubkey == caller {
        return Err(OwnAccount);
      }
      rows := WithoutKey(rows, pubkey);
      return Ok(());
    }
  }

  // -------------------------------------------------------------------------
  // What each step keeps
  // -------------------------------------------------------------------------

  lemma InsertKeeps(d: Directory, name: string, row: Row)
    requires OneToOne(d) && KvCovers(d) && name !in d.rows && !HasRow(d, row.pubkey) && row.status == Active
    ensures var e := Directory(d.rows[name := row], d.kv[KvKey(name) := row.pubkey]);
      OneToOne(e) && KvCovers(e) && (KvExact(d) ==> KvExact(e))
  {
    hide KvKey;
    forall a, b {
      KvKeyIsInjective(a, b);
    }
    assert forall n :: n in d.rows ==> d.rows[n].pubkey != row.pubkey;
  }

  lemma RealNameKeeps(d: Directory, pubkey: string, realName: Option<string>)
    requires OneToOne(d) && KvCovers(d)
    ensures var e := WithRealName(d, pubkey, realName);
      OneToOne(e) && KvCovers(e) && (KvExact(d) ==> KvExact(e))
  {
    hide KvKey;
  }

  lemma ClaimKeeps(d: Directory, pubkey: string, name: string, realName: Option<string>, now: nat)
    requires OneToOne(d) && KvCovers(d)
    ensures var e := Claimed(d, pubkey, name, realName, now);
      OneToOne(e) && KvCovers(e) && (KvExact(d) ==> KvExact(e))
  {
    hide ValidName, NormaliseRealName, KvKey, OneToOne, KvCovers, KvExact, WithRealName, HasRow;
    var clean := if realName.Some? && NormaliseRealName(realName.value).Ok? then NormaliseRealName(realName.value).value else None;
    RealNameKeeps(d, pubkey, clean);
    if name !in d.rows && !HasRow(d, pubkey) {
      InsertKeeps(d, name, Row(pubkey, now, Active, clean));
    }
  }

  lemma ReleaseKeeps(d: Directory, pubkey: string)
    requires OneToOne(d) && KvCovers(d)
    ensures var e := Released(d, pubkey);
      OneToOne(e) && KvCovers(e) && (KvExact(d) ==> KvExact(e))
  {
    hide KvKey;
    forall a, b {
      KvKeyIsInjective(a, b);
    }
  }

  lemma DismissKeeps(d: Directory, pubkey: string)
    requires OneToOne(d) && KvCovers(d)
    ensures OneToOne(DismissedBy(d, pubkey)) && KvCovers(DismissedBy(d, pubkey))
  {
    hide KvKey;
  }

  lemma DeleteKeeps(d: Directory, pubkey: string)
    requires OneToOne(d) && KvCovers(d)
    ensures OneToOne(MemberDeleted(d, pubkey)) && KvCovers(MemberDeleted(d, pubkey))
  {
    hide KvKey;
  }

  /** Neither of the two admin steps clears KV: the mirror stays exact only if the key held nothing. */
  lemma AdminStepsKeepTheMirrorIff(d: Directory, pubkey: string)
    requires OneToOne(d) && KvExact(d)
    ensures KvExact(DismissedBy(d, pubkey)) <==> !HasActive(d, pubkey)
    ensures KvExact(MemberDeleted(d, pubkey)) <==> !HasActive(d, pubkey)
  {
    hide KvKey;
    DismissKeeps(d, pubkey);
    DeleteKeeps(d, pubkey);
    if HasActive(d, pubkey) {
      var name :| name in d.rows && Holds(d, name, pubkey);
      assert KvKey(name) in d.kv;
      forall n {
        KvKeyIsInjective(n, name);
      }
    } else {
      forall k | k in d.kv
        ensures exists name :: name in DismissedBy(d, pubkey).rows && k == KvKey(name) && DismissedBy(d, pubkey).rows[name].status == Active
        ensures exists name :: name in MemberDeleted(d, pubkey).rows && k == KvKey(name) && MemberDeleted(d, pubkey).rows[name].status == Active
      {
        var name :| name in d.rows && k == KvKey(name) && d.rows[name].status == Active;
        assert Holds(d, name, d.rows[name].pubkey);
        assert name in DismissedBy(d, pubkey).rows && name in MemberDeleted(d, pubkey).rows;
      }
    }
  }

  // -------------------------------------------------------------------------
  // Runs
  // -------------------------------------------------------------------------

  /** What the handlers do past their guards; a dismissal comes with its key already in lower case. */
  datatype Event =
    | ClaimName(pubkey: string, name: string, realName: Option<string>, now: nat)
    | ReleaseName(pubkey: string)
    | DismissName(pubkey: string)
    | DropMember(pubkey: string)

  ghost function Step(d: Directory, e: Event): Directory {
    match e
    case ClaimName(pubkey, name, realName, now) => Claimed(d, pubkey, name, realName, now)
    case ReleaseName(pubkey) => Released(d, pubkey)
    case DismissName(pubkey) => DismissedBy(d, pubkey)
    case DropMember(pubkey) => MemberDeleted(d, pubkey)
  }

  ghost function Run(d: Directory, events: seq<Event>): Directory {
    if events == [] then d else Step(Run(d, events[..|events| - 1]), events[|events| - 1])
  }

  predicate MembersOnly(e: Event) {
    e.ClaimName? || e.ReleaseName?
  }

  lemma StepKeeps(d: Directory, e: Event)
    requires OneToOne(d) && KvCovers(d)
    ensures OneToOne(Step(d, e)) && KvCovers(Step(d, e))
    ensures MembersOnly(e) && KvExact(d) ==> KvExact(Step(d, e))
  {
    hide OneToOne, KvCovers, KvExact, Claimed, Released, DismissedBy, MemberDeleted;
    match e
    case ClaimName(pubkey, name, realName, now) => ClaimKeeps(d, pubkey, name, realName, now);
    case ReleaseName(pubkey) => ReleaseKeeps(d, pubkey);
    case DismissName(pubkey) => DismissKeeps(d, pubkey);
    case DropMember(pubkey) => DeleteKeeps(d, pubkey);
  }

  /**
   * After any run handles and keys are one to one and every active handle
   * resolves; while only members act, exactly the active handles do.
   */
  lemma {:induction false} RunKeepsDirectory(d: Directory, events: seq<Event>)
    requires OneToOne(d) && KvCovers(d)
    ensures OneToOne(Run(d, events)) && KvCovers(Run(d, events))
    ensures KvExact(d) && (forall e :: e in events ==> MembersOnly(e)) ==> KvExact(Run(d, events))
  {
    hide OneToOne, KvCovers, KvExact, Step, MembersOnly;
    if events != [] {
      var front, last := events[..|events| - 1], events[|events| - 1];
      assert last in events && forall e :: e in front ==> e in events;
      RunKeepsDirectory(d, front);
      StepKeeps(Run(d, front), last);
    }
  }

  /** Events that can take a handle from its holder. */
  predicate Frees(e: Event, pubkey: string) {
    (e.ReleaseName? || e.DismissName? || e.DropMember?) && e.pubkey == pubkey
  }

  lemma StepKeepsHandle(d: Directory, e: Event, name: string, pubkey: string)
    requires OneToOne(d) && Holds(d, name, pubkey) && !Frees(e, pubkey)
    ensures Holds(Step(d, e), name, pubkey)
  {
    hide ValidName, NormaliseRealName, KvKey;
  }

  /** A handle stays with its key, and resolves to it, whatever anyone else does. */
  lemma {:induction false} HandleIsKept(d: Directory, events: seq<Event>, name: string, pubkey: string)
    requires OneToOne(d) && KvCovers(d) && Holds(d, name, pubkey)
    requires forall e :: e in events ==> !Frees(e, pubkey)
    ensures Holds(Run(d, events), name, pubkey)
    ensures KvKey(name) in Run(d, events).kv && Run(d, events).kv[KvKey(name)] == pubkey
  {
    hide OneToOne, Step, Frees, KvKey;
    RunKeepsDirectory(d, events);
    if events != [] {
      var front, last := events[..|events| - 1], events[|events| - 1];
      assert last in events && forall e :: e in front ==> e in events;
      HandleIsKept(d, front, name, pubkey);
      RunKeepsDirectory(d, front);
      StepKeepsHandle(Run(d, front), last, name, pubkey);
    }
  }

  predicate IsDismissed(d: Directory, name: string, pubkey: string) {
    name in d.rows && d.rows[name].status == Dismissed && d.rows[name].pubkey == pubkey
  }

  lemma StepKeepsDismissal(d: Directory, e: Event, name: string, pubkey: string)
    requires OneToOne(d) && IsDismissed(d, name, pubkey) && e != DropMember(pubkey)
    ensures IsDismissed(Step(d, e), name, pubkey)
  {
    hide ValidName, NormaliseRealName, KvKey;
    if e.ReleaseName? && HasActive(d, e.pubkey) {
      var n :| n in d.rows && Holds(d, n, e.pubkey);
      assert d.rows[n].pubkey == e.pubkey;
    }
  }

  /**
   * A dismissed handle stays occupied and its key cannot reserve again, in any run
   * that does not delete the member.
   */
  lemma {:induction false} DismissalSticks(d: Directory, events: seq<Event>, name: string, pubkey: string)
    requires OneToOne(d) && KvCovers(d) && IsDismissed(d, name, pubkey)
    requires DropMember(pubkey) !in events
    ensures IsDismissed(Run(d, events), name, pubkey) && !HasActive(Run(d, events), pubkey)
  {
    hide Step, KvCovers;
    if events != [] {
      var front, last := events[..|events| - 1], events[|events| - 1];
      assert last in events && forall e :: e in front ==> e in events;
      DismissalSticks(d, front, name, pubkey);
      RunKeepsDirectory(d, front);
      StepKeepsDismissal(Run(d, front), last, name, pubkey);
    }
    RunKeepsDirectory(d, events);
  }

  // -------------------------------------------------------------------------
  // Names per key, whatever its spelling
  // -------------------------------------------------------------------------

  /** No two rows belong to one key; a NIP-98 token may spell its key in capitals. */
  ghost predicate KeysOneToOne(d: Directory) {
    forall a, b :: a in d.rows && b in d.rows && Lower(d.rows[a].pubkey) == Lower(d.rows[b].pubkey) ==> a == b
  }

  predicate Accepts(name: string, realName: Option<string>) {
    ValidName(name) && (realName.Some? ==> NormaliseRealName(realName.value).Ok?)
  }

  lemma RealNameKeepsKeys(d: Directory, pubkey: string, realName: Option<string>)
    ensures var e := WithRealName(d, pubkey, realName);
      e.rows.Keys == d.rows.Keys && forall n :: n in d.rows ==> e.rows[n].pubkey == d.rows[n].pubkey
  {
  }

  /**
   * UNIQUE(pubkey) compares spellings: a claim gives a key a second row exactly if it is well formed, its name
   * is free, and the key has a row in another spelling.
   */
  lemma SecondNameIff(d: Directory, pubkey: string, name: string, realName: Option<string>, now: nat)
    requires KeysOneToOne(d)
    ensures !KeysOneToOne(Claimed(d, pubkey, name, realName, now)) <==>
      && name !in d.rows && Accepts(name, realName)
      && exists n :: n in d.rows && Lower(d.rows[n].pubkey) == Lower(pubkey) && d.rows[n].pubkey != pubkey
  {
    hide ValidName, NormaliseRealName, KvKey, Lower, WithRealName;
    RealNameKeepsKeys(d, pubkey,
      if realName.Some? && NormaliseRealName(realName.value).Ok? then NormaliseRealName(realName.value).value else None);
    var e := Claimed(d, pubkey, name, realName, now);
    if name !in d.rows && Accepts(name, realName) && !HasRow(d, pubkey) {
      assert e.rows[name].pubkey == pubkey && forall n :: n in d.rows ==> e.rows[n] == d.rows[n];
      if n :| n in d.rows && Lower(d.rows[n].pubkey) == Lower(pubkey) {
        assert n in e.rows && n != name;
      }
    } else {
      assert forall n :: n in e.rows ==> n in d.rows && e.rows[n].pubkey == d.rows[n].pubkey;
    }
  }

  /** It happens: from the empty directory a key claims one name in one spelling and one in another. */
  lemma TwoNamesOfOneKey(pubkey: string, other: string, name: string, second: string, now: nat)
    requires Lower(pubkey) == Lower(other) && pubkey != other
    requires ValidName(name) && ValidName(second) && name != second
    ensures var d := Run(Directory(map[], map[]), [ClaimName(pubkey, name, None, now), ClaimName(other, second, None, now)]);
      Holds(d, name, pubkey) && Holds(d, second, other) && !KeysOneToOne(d)
  {
    hide ValidName, Lower;
    var first, last := ClaimName(pubkey, name, None, now), ClaimName(other, second, None, now);
    assert [first, last][..1] == [first] && [first][..0] == [];
    var none := Directory(map[], map[]);
    assert Run(none, []) == none && !HasRow(none, pubkey);
    var d := Run(none, [first]);
    assert d == Step(none, first);
    assert d.rows == map[name := Row(pubkey, now, Active, None)];
    assert !HasRow(d, other);
  }

  // -------------------------------------------------------------------------
  // What still stands after a run
  // -------------------------------------------------------------------------

  /** Event i starts something that no later event ends. */
  ghost predicate StandsFrom(d: Directory, events: seq<Event>, i: int, starts: (Directory, Event) -> bool,
      ends: (Directory, Event) -> bool) {
    && 0 <= i < |events|
    && starts(Run(d, events[..i]), events[i])
    && forall j :: i < j < |events| ==> !ends(Run(d, events[..j]), events[j])
  }

  ghost predicate Standing(d: Directory, events: seq<Event>, starts: (Directory, Event) -> bool,
      ends: (Directory, Event) -> bool) {
    exists i :: StandsFrom(d, events, i, starts, ends)
  }

  lemma StandsFromStep(d: Directory, events: seq<Event>, last: Event, i: int, starts: (Directory, Event) -> bool,
      ends: (Directory, Event) -> bool)
    ensures StandsFrom(d, events + [last], i, starts, ends) <==>
      if i == |events| then starts(Run(d, events), last)
      else StandsFrom(d, events, i, starts, ends) && !ends(Run(d, events), last)
  {
    hide Run;
    var all := events + [last];
    assert all[..|events|] == events && all[|events|] == last;
    assert forall j :: 0 <= j < |events| ==> all[..j] == events[..j] && all[j] == events[j];
  }

  lemma StandingStep(d: Directory, events: seq<Event>, last: Event, starts: (Directory, Event) -> bool,
      ends: (Directory, Event) -> bool)
    ensures Standing(d, events + [last], starts, ends) <==>
      starts(Run(d, events), last) || (Standing(d, events, starts, ends) && !ends(Run(d, events), last))
  {
    hide Run, StandsFrom;
    forall i {
      StandsFromStep(d, events, last, i, starts, ends);
    }
    if starts(Run(d, events), last) {
      assert StandsFrom(d, events + [last], |events|, starts, ends);
    }
    forall i | StandsFrom(d, events, i, starts, ends)
      ensures i != |events|
    {
      StandsInside(d, events, i, starts, ends);
    }
  }

  lemma StandsInside(d: Directory, events: seq<Event>, i: int, starts: (Directory, Event) -> bool,
      ends: (Directory, Event) -> bool)
    requires StandsFrom(d, events, i, starts, ends)
    ensures 0 <= i < |events|
  {
  }

  lemma NothingStanding(d: Directory, starts: (Directory, Event) -> bool, ends: (Directory, Event) -> bool)
    ensures !Standing(d, [], starts, ends)
  {
  }

  /** The claim stores a row. */
  ghost predicate Inserts(d: Directory, e: Event) {
    e.ClaimName? && Accepts(e.name, e.realName) && e.name !in d.rows && !HasRow(d, e.pubkey)
  }

  /** The event takes the row of this spelling away. */
  ghost predicate Removes(d: Directory, e: Event, pubkey: string) {
    e == DropMember(pubkey) || (e == ReleaseName(pubkey) && HasActive(d, pubkey))
  }

  lemma RowsAfter(d: Directory, e: Event, pubkey: string)
    requires OneToOne(d)
    ensures HasRow(Step(d, e), pubkey) <==>
      (HasRow(d, pubkey) && !Removes(d, e, pubkey)) || (Inserts(d, e) && e.pubkey == pubkey)
  {
    hide ValidName, NormaliseRealName, KvKey, OneToOne;
    var d' := Step(d, e);
    if HasRow(d, pubkey) && !Removes(d, e, pubkey) {
      var n :| n in d.rows && d.rows[n].pubkey == pubkey;
      assert n in d'.rows && d'.rows[n].pubkey == pubkey;
    }
    if Inserts(d, e) {
      assert e.name in d'.rows && d'.rows[e.name].pubkey == e.pubkey;
    }
  }

  // -------------------------------------------------------------------------
  // One name per key, over runs
  // -------------------------------------------------------------------------

  ghost predicate TwoSpellings(d: Directory, p: string, q: string) {
    p != q && Lower(p) == Lower(q) && HasRow(d, p) && HasRow(d, q)
  }

  lemma TwoSpellingsIff(d: Directory)
    requires OneToOne(d)
    ensures KeysOneToOne(d) <==> forall p, q :: !TwoSpellings(d, p, q)
  {
    hide Lower;
    if !KeysOneToOne(d) {
      var a, b :| a in d.rows && b in d.rows && Lower(d.rows[a].pubkey) == Lower(d.rows[b].pubkey) && a != b;
      assert TwoSpellings(d, d.rows[a].pubkey, d.rows[b].pubkey);
    }
  }

  /** The claim gives the key of p, which has a row as q, one as p. */
  ghost predicate ClaimsSecond(d: Directory, e: Event, p: string, q: string) {
    Inserts(d, e) && e.pubkey == p && p != q && Lower(p) == Lower(q) && HasRow(d, q)
  }

  ghost function Second(p: string, q: string): (Directory, Event) -> bool {
    (d: Directory, e: Event) => ClaimsSecond(d, e, p, q) || ClaimsSecond(d, e, q, p)
  }

  ghost function RemovesEither(p: string, q: string): (Directory, Event) -> bool {
    (d: Directory, e: Event) => Removes(d, e, p) || Removes(d, e, q)
  }

  lemma TwoSpellingsStep(d: Directory, e: Event, p: string, q: string)
    requires OneToOne(d)
    ensures TwoSpellings(Step(d, e), p, q) <==>
      Second(p, q)(d, e) || (TwoSpellings(d, p, q) && !RemovesEither(p, q)(d, e))
  {
    hide Lower, HasRow, Step, HasActive, Accepts;
    RowsAfter(d, e, p);
    RowsAfter(d, e, q);
  }

  lemma {:induction false} TwoSpellingsRun(d: Directory, events: seq<Event>, p: string, q: string)
    requires OneToOne(d) && KvCovers(d) && !TwoSpellings(d, p, q)
    ensures TwoSpellings(Run(d, events), p, q) <==> Standing(d, events, Second(p, q), RemovesEither(p, q))
  {
    hide OneToOne, KvCovers, TwoSpellings, Standing, Step, Second, RemovesEither;
    if events == [] {
      NothingStanding(d, Second(p, q), RemovesEither(p, q));
    } else {
      var front, last := events[..|events| - 1], events[|events| - 1];
      assert events == front + [last];
      RunKeepsDirectory(d, front);
      TwoSpellingsRun(d, front, p, q);
      TwoSpellingsStep(Run(d, front), last, p, q);
      StandingStep(d, front, last, Second(p, q), RemovesEither(p, q));
    }
  }

  /**
   * After any run each key has at most one name exactly if every claim that gave a key a row beside one in
   * another spelling was followed by the removal of one of the two.
   */
  lemma KeysKeepOneNameIff(d: Directory, events: seq<Event>)
    requires OneToOne(d) && KvCovers(d) && KeysOneToOne(d)
    ensures KeysOneToOne(Run(d, events)) <==>
      forall p, q :: !Standing(d, events, Second(p, q), RemovesEither(p, q))
  {
    hide OneToOne, KvCovers, KeysOneToOne, TwoSpellings, Standing, Run, Second, RemovesEither;
    RunKeepsDirectory(d, events);
    TwoSpellingsIff(d);
    TwoSpellingsIff(Run(d, events));
    forall p, q {
      TwoSpellingsRun(d, events, p, q);
    }
    assert forall p, q :: TwoSpellings(Run(d, events), p, q) <==> Standing(d, events, Second(p, q), RemovesEither(p, q));
  }

  // -------------------------------------------------------------------------
  // The mirror, over runs
  // -------------------------------------------------------------------------

  /** KV resolves a name that nobody holds. */
  ghost predicate Stray(d: Directory, name: string) {
    KvKey(name) in d.kv && !(name in d.rows && d.rows[name].status == Active)
  }

  ghost predicate KvNames(d: Directory) {
    forall k :: k in d.kv ==> exists name :: k == KvKey(name)
  }

  /** A dismissal or deletion that meets the active holder of this name. */
  ghost function Strands(name: string): (Directory, Event) -> bool {
    (d: Directory, e: Event) => (e.DismissName? || e.DropMember?) && Holds(d, name, e.pubkey)
  }

  ghost function Reclaims(name: string): (Directory, Event) -> bool {
    (d: Directory, e: Event) => Inserts(d, e) && e.name == name
  }

  lemma KvExactIff(d: Directory)
    requires KvCovers(d)
    ensures KvExact(d) <==> KvNames(d) && forall name :: !Stray(d, name)
  {
    hide KvKey;
    forall a, b {
      KvKeyIsInjective(a, b);
    }
    if KvNames(d) && forall name :: !Stray(d, name) {
      forall k | k in d.kv
        ensures exists name :: name in d.rows && k == KvKey(name) && d.rows[name].status == Active
      {
        var name :| k == KvKey(name);
        assert !Stray(d, name);
      }
    }
  }

  lemma StrayStep(d: Directory, e: Event, name: string)
    requires OneToOne(d) && KvCovers(d)
    ensures Stray(Step(d, e), name) <==> Strands(name)(d, e) || (Stray(d, name) && !Reclaims(name)(d, e))
    ensures KvNames(d) ==> KvNames(Step(d, e))
  {
    hide KvKey, ValidName, NormaliseRealName;
    forall a, b {
      KvKeyIsInjective(a, b);
    }
  }

  lemma {:induction false} StrayRun(d: Directory, events: seq<Event>, name: string)
    requires OneToOne(d) && KvCovers(d) && KvNames(d) && !Stray(d, name)
    ensures Stray(Run(d, events), name) <==> Standing(d, events, Strands(name), Reclaims(name))
    ensures KvNames(Run(d, events))
  {
    hide OneToOne, KvCovers, KvNames, Stray, Standing, Step, Strands, Reclaims;
    if events == [] {
      NothingStanding(d, Strands(name), Reclaims(name));
    } else {
      var front, last := events[..|events| - 1], events[|events| - 1];
      assert events == front + [last];
      RunKeepsDirectory(d, front);
      StrayRun(d, front, name);
      StrayStep(Run(d, front), last, name);
      StandingStep(d, front, last, Strands(name), Reclaims(name));
    }
  }

  /**
   * After any run the mirror is exact exactly if every name whose active holder was dismissed or deleted has
   * been claimed again since.
   */
  lemma MirrorIsExactIff(d: Directory, events: seq<Event>)
    requires OneToOne(d) && KvExact(d)
    ensures KvExact(Run(d, events)) <==> forall name :: !Standing(d, events, Strands(name), Reclaims(name))
  {
    hide OneToOne, KvNames, Stray, Standing, Run, Strands, Reclaims, KvCovers;
    assert KvCovers(d);
    KvExactIff(d);
    hide KvExact;
    RunKeepsDirectory(d, events);
    KvExactIff(Run(d, events));
    forall name {
      StrayRun(d, events, name);
    }
    StrayRun(d, events, "");
    assert forall name :: Stray(Run(d, events), name) <==> Standing(d, events, Strands(name), Reclaims(name));
  }

  // -------------------------------------------------------------------------
  // Admins and keys
  // -------------------------------------------------------------------------

  ghost predicate KeyHolds(d: Directory, name: string, pubkey: string) {
    name in d.rows && d.rows[name].status == Active && Lower(d.rows[name].pubkey) == Lower(pubkey)
  }

  /** A dismissal lower-cases the key it is given: the key keeps an active name exactly if it holds one in capitals. */
  lemma DismissalMissesIff(d: Directory, pubkey: string)
    ensures (exists name :: KeyHolds(DismissedBy(d, Lower(pubkey)), name, pubkey)) <==>
      exists name :: KeyHolds(d, name, pubkey) && d.rows[name].pubkey != Lower(pubkey)
  {
    hide Lower;
    var d' := DismissedBy(d, Lower(pubkey));
    forall name
      ensures KeyHolds(d', name, pubkey) <==> KeyHolds(d, name, pubkey) && d.rows[name].pubkey != Lower(pubkey)
    {
    }
  }

  /** The deletion guard compares spellings: admins lose a row of their own key exactly if they name it in another. */
  lemma OwnRowIsDeletedIff(d: Directory, caller: string, pubkey: string)
    ensures (exists name :: name in d.rows && Lower(d.rows[name].pubkey) == Lower(caller) && name !in Deletion(d, caller, pubkey).rows)
      <==> IsPubkey(pubkey) && Lower(pubkey) == Lower(caller) && pubkey != caller && HasRow(d, pubkey)
  {
    hide Lower;
    if IsPubkey(pubkey) && Lower(pubkey) == Lower(caller) && pubkey != caller && HasRow(d, pubkey) {
      var name :| name in d.rows && d.rows[name].pubkey == pubkey;
      assert name !in Deletion(d, caller, pubkey).rows;
    }
  }

  // -------------------------------------------------------------------------
  // While claims come in lower case
  // -------------------------------------------------------------------------

  ghost predicate RowsLower(d: Directory) {
    forall n :: n in d.rows ==> d.rows[n].pubkey == Lower(d.rows[n].pubkey)
  }

  lemma LowerStep(d: Directory, e: Event)
    requires RowsLower(d) && (e.ClaimName? ==> e.pubkey == Lower(e.pubkey))
    ensures RowsLower(Step(d, e))
  {
    hide ValidName, NormaliseRealName, KvKey, Lower;
  }

  lemma {:induction false} RowsStayLower(d: Directory, events: seq<Event>)
    requires RowsLower(d) && forall e :: e in events && e.ClaimName? ==> e.pubkey == Lower(e.pubkey)
    ensures RowsLower(Run(d, events))
  {
    hide Step, RowsLower;
    if events != [] {
      var front, last := events[..|events| - 1], events[|events| - 1];
      assert last in events && forall e :: e in front ==> e in events;
      RowsStayLower(d, front);
      LowerStep(Run(d, front), last);
    }
  }

  /** While claims come in lower case, each key has at most one name. */
  lemma KeysKeepOneName(d: Directory, events: seq<Event>)
    requires OneToOne(d) && KvCovers(d) && RowsLower(d)
    requires forall e :: e in events && e.ClaimName? ==> e.pubkey == Lower(e.pubkey)
    ensures KeysOneToOne(Run(d, events))
  {
    hide Run;
    RunKeepsDirectory(d, events);
    RowsStayLower(d, events);
  }
}
