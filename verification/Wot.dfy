/**
 * The web-of-trust table: follow-list refreshes, manual overrides and the
 * registration gate, refining two disjoint sets of keys.
 */
module Wot {
  import opened Results
  import opened Sequences
  import opened Texts

  datatype Source = Referente | ManualOverride

  datatype Entry = Entry(addedAt: int, source: Source)

  datatype Settings = Settings(enabled: bool, referente: Option<string>, lastFetched: Option<int>, followCount: Option<nat>)

  /** A signed event, with the verdict of its signature check. */
  datatype Event = Event(pubkey: string, kind: nat, tags: seq<seq<string>>, verified: bool)

  datatype Error = BadPubkey | NoReferente | WrongKind | WrongSigner | BadSignature | NoList

  ghost predicate Spells(list: seq<string>, key: string) {
    exists i :: 0 <= i < |list| && Lower(list[i]) == key
  }

  lemma SpellsStarts(list: seq<string>, key: string)
    requires list != []
    ensures Spells(list, key) <==> Lower(list[0]) == key || Spells(list[1..], key)
  {
    hide Lower;
    if Spells(list[1..], key) {
      var i :| 0 <= i < |list[1..]| && Lower(list[1..][i]) == key;
      assert list[i + 1] == list[1..][i];
    }
    if Spells(list, key) && Lower(list[0]) != key {
      var i :| 0 <= i < |list| && Lower(list[i]) == key;
      assert list[1..][i - 1] == list[i];
    }
  }

  /** Lower-cased keys of a list that are 64 hex digits, in order, repeats included. */
  function ValidKeys(list: seq<string>): (r: seq<string>)
    ensures forall k :: k in r <==> IsPubkey(k) && Spells(list, k)
    ensures |r| <= |list|
  {
    if list == [] then []
    else
      ValidKeysStart(list, ValidKeys(list[1..]));
      (if IsPubkey(Lower(list[0])) then [Lower(list[0])] else []) + ValidKeys(list[1..])
  }

  lemma ValidKeysStart(list: seq<string>, rest: seq<string>)
    requires list != [] && forall k :: k in rest <==> IsPubkey(k) && Spells(list[1..], k)
    ensures forall k :: k in (if IsPubkey(Lower(list[0])) then [Lower(list[0])] else []) + rest <==> IsPubkey(k) && Spells(list, k)
  {
    hide Spells, IsPubkey, Lower;
    forall k {
      SpellsStarts(list, k);
    }
  }

  /** The second fields of the p tags. */
  function PTagValues(tags: seq<seq<string>>): (r: seq<string>)
    ensures forall v :: v in r <==> exists t :: t in tags && |t| >= 2 && t[0] == "p" && t[1] == v
    ensures |r| <= |tags|
  {
    if tags == [] then []
    else
      assert tags == [tags[0]] + tags[1..];
      (if |tags[0]| >= 2 && tags[0][0] == "p" then [tags[0][1]] else []) + PTagValues(tags[1..])
  }

  function ExtractFollowPubkeys(event: Event): seq<string> {
    ValidKeys(PTagValues(event.tags))
  }

  /** The keys an event follows: what a p tag holds second, in lower case, if that is a key. */
  lemma FollowsIff(event: Event, k: string)
    ensures k in ExtractFollowPubkeys(event) <==>
      IsPubkey(k) && exists t :: t in event.tags && |t| >= 2 && t[0] == "p" && Lower(t[1]) == k
  {
    hide Lower, IsPubkey;
    var values := PTagValues(event.tags);
    if Spells(values, k) {
      var i :| 0 <= i < |values| && Lower(values[i]) == k;
      assert values[i] in values;
    }
    if t :| t in event.tags && |t| >= 2 && t[0] == "p" && Lower(t[1]) == k {
      assert t[1] in values;
      var i :| 0 <= i < |values| && values[i] == t[1];
    }
  }

  function Spelling(key: string): string -> bool {
    (k: string) => Lower(k) == key
  }

  lemma {:induction false} ListedFilter(list: seq<string>, key: string)
    ensures multiset(ValidKeys(list))[key] == if IsPubkey(key) then |Filter(list, Spelling(key))| else 0
  {
    hide Lower, IsPubkey, Spells;
    if list != [] {
      ListedFilter(list[1..], key);
    }
  }

  /** A key is listed as often as it occurs, in whatever spelling. */
  lemma ListedAsOften(list: seq<string>, key: string)
    requires IsPubkey(key)
    ensures multiset(ValidKeys(list))[key] == |set i | 0 <= i < |list| && Lower(list[i]) == key|
  {
    hide Filter, ValidKeys;
    ListedFilter(list, key);
    FilterCountsPlaces(list, Spelling(key));
    assert Places(list, Spelling(key), Spelling(key)) == set i | 0 <= i < |list| && Lower(list[i]) == key;
  }

  // -------------------------------------------------------------------------
  // The two sets
  // -------------------------------------------------------------------------

  datatype Trust = Trust(followed: set<string>, overridden: set<string>)

  function Refreshed(t: Trust, list: seq<string>): Trust {
    Trust(Elements(list), t.overridden - Elements(list))
  }

  function OverrideAdded(t: Trust, pubkey: string): Trust {
    Trust(t.followed - {pubkey}, t.overridden + {pubkey})
  }

  function OverrideRemoved(t: Trust, pubkey: string): Trust {
    t.(overridden := t.overridden - {pubkey})
  }

  function With(entries: map<string, Entry>, source: Source): set<string> {
    set k | k in entries && entries[k].source == source
  }

  /** The rows a follow list leaves. */
  function Listed(keys: set<string>, now: int): map<string, Entry> {
    map k | k in keys :: Entry(now, Referente)
  }

  /** DELETE ... WHERE source = 'referente'. */
  function WithoutFollowed(entries: map<string, Entry>): map<string, Entry> {
    map k | k in entries && entries[k].source != Referente :: entries[k]
  }

  lemma NothingListed(kept: map<string, Entry>, now: int)
    ensures kept + Listed(Elements([]), now) == kept
  {
  }

  lemma OneMoreListed(kept: map<string, Entry>, list: seq<string>, k: string, now: int)
    ensures kept + Listed(Elements(list + [k]), now) == (kept + Listed(Elements(list), now))[k := Entry(now, Referente)]
  {
    assert Elements(list + [k]) == Elements(list) + {k};
  }

  lemma ElementsOf(list: seq<string>)
    ensures forall k :: k in list <==> k in Elements(list)
  {
  }

  /** The delete and the upserts together. */
  lemma DeletedThenListed(entries: map<string, Entry>, keys: set<string>, now: int)
    ensures var after := WithoutFollowed(entries) + Listed(keys, now);
      && With(after, Referente) == keys && With(after, ManualOverride) == With(entries, ManualOverride) - keys
      && (forall k :: k in keys ==> k in after && after[k] == Entry(now, Referente))
      && forall k :: k in entries && k in With(after, ManualOverride) ==> k in after && after[k] == entries[k]
  {
  }

  class WotStore {
    var entries: map<string, Entry>
    var settings: Option<Settings>

    /** What the table stands for. */
    function View(): (t: Trust)
      reads this`entries
      ensures t.followed !! t.overridden && t.followed + t.overridden == entries.Keys
    {
      Trust(With(entries, Referente), With(entries, ManualOverride))
    }

    constructor (settings: Option<Settings>)
      ensures View() == Trust({}, {}) && this.settings == settings
    {
      this.settings := settings;
      entries := map[];
    }

    method SetReferente(pubkey: Option<string>, enabled: Option<bool>) returns (r: Result<(), Error>)
      modifies this`settings
      ensures r.Err? <==> pubkey.Some? && !IsPubkey(pubkey.value)
      ensures settings == if r.Ok? && old(settings).Some?
        then Some(old(settings).value.(referente := pubkey, enabled := if enabled.Some? then enabled.value else pubkey.Some?))
        else old(settings)
    {
      if pubkey.Some? && !IsPubkey(pubkey.value) {
        return Err(BadPubkey);
      }
      var on := if enabled.Some? then enabled.value else pubkey.Some?;
      if settings.Some? {
        settings := Some(settings.value.(referente := pubkey, enabled := on));
      }
      return Ok(());
    }

    /** The list a refresh uses: a verified kind-3 event of the referente, else plain keys. */
    method ResolveList(event: Option<Event>, pubkeys: Option<seq<string>>) returns (r: Result<seq<string>, Error>)
      ensures r.Ok? <==>
        && settings.Some? && settings.value.referente.Some?
        && (event.Some? || pubkeys.Some?)
        && (event.Some? ==> event.value.kind == 3 && Some(Lower(event.value.pubkey)) == settings.value.referente && event.value.verified)
      ensures r.Ok? && event.Some? ==> r.value == ExtractFollowPubkeys(event.value)
      ensures r.Ok? && event.Some? ==> settings.value.referente.value == Lower(settings.value.referente.value)
      ensures r.Ok? && event.None? ==> r.value == ValidKeys(pubkeys.value)
    {
      if settings.None? || settings.value.referente.None? {
        return Err(NoReferente);
      }
      if event.Some? {
        if event.value.kind != 3 {
          return Err(WrongKind);
        }
        if Lower(event.value.pubkey) != settings.value.referente.value {
          return Err(WrongSigner);
        }
        ReferenteSignsIff(settings.value.referente.value);
        if !event.value.verified {
          return Err(BadSignature);
        }
        return Ok(ExtractFollowPubkeys(event.value));
      }
      if pubkeys.Some? {
        return Ok(ValidKeys(pubkeys.value));
      }
      return Err(NoList);
    }

    /** Delete the referente's rows, then upsert the list one row at a time. */
    method ReplaceFollowed(list: seq<string>, now: int)
      modifies this`entries
      ensures View() == Refreshed(old(View()), list)
      ensures forall k :: k in list ==> k in entries && entries[k] == Entry(now, Referente)
      ensures forall k :: k in old(entries) && k in View().overridden ==> entries[k] == old(entries)[k]
    {
      hide With, Elements, Listed;
      entries := WithoutFollowed(entries);
      ghost var kept := entries;
      NothingListed(kept, now);
      var i := 0;
      assert list[..0] == [];
      while i < |list|
        invariant 0 <= i <= |list|
        invariant entries == kept + Listed(Elements(list[..i]), now)
      {
        assert list[..i + 1] == list[..i] + [list[i]];
        OneMoreListed(kept, list[..i], list[i], now);
        entries := entries[list[i] := Entry(now, Referente)];
        i := i + 1;
      }
      assert list[..|list|] == list;
      DeletedThenListed(old(entries), Elements(list), now);
      ElementsOf(list);
    }

    method Refresh(event: Option<Event>, pubkeys: Option<seq<string>>, now: int) returns (r: Result<nat, Error>)
      modifies this
      ensures r.Err? ==> entries == old(entries) && settings == old(settings)
      ensures r.Ok? ==>
        var list := if event.Some? then ExtractFollowPubkeys(event.value) else if pubkeys.Some? then ValidKeys(pubkeys.value) else [];
        && (event.Some? || pubkeys.Some?)
        && old(settings).Some?
        && View() == Refreshed(old(View()), list)
        && r.value == |list|
        && settings == Some(old(settings).value.(lastFetched := Some(now), followCount := Some(|list|)))
        && (event.Some? ==>
          && event.value.verified && event.value.kind == 3
          && Some(Lower(event.value.pubkey)) == old(settings).value.referente
          && old(settings).value.referente.value == Lower(old(settings).value.referente.value))
    {
      hide ExtractFollowPubkeys, ValidKeys;
      var list :- ResolveList(event, pubkeys);
      ReplaceFollowed(list, now);
      settings := Some(settings.value.(lastFetched := Some(now), followCount := Some(|list|)));
      return Ok(|list|);
    }

    /** An override keeps the row's first timestamp; a removal leaves followed rows alone. */
    method Override(isAdd: bool, pubkey: string, now: int) returns (r: Result<(), Error>)
      modifies this`entries
      ensures r.Err? <==> !IsPubkey(pubkey)
      ensures r.Err? ==> entries == old(entries)
      ensures r.Ok? ==> View() == if isAdd then OverrideAdded(old(View()), pubkey) else OverrideRemoved(old(View()), pubkey)
      ensures r.Ok? && isAdd ==> entries[pubkey].addedAt == if pubkey in old(entries) then old(entries)[pubkey].addedAt else now
      ensures forall k :: k in entries && k != pubkey ==> k in old(entries) && entries[k] == old(entries)[k]
    {
      if !IsPubkey(pubkey) {
        return Err(BadPubkey);
      }
      if isAdd {
        if pubkey in entries {
          entries := entries[pubkey := entries[pubkey].(source := ManualOverride)];
        } else {
          entries := entries[pubkey := Entry(now, ManualOverride)];
        }
        assert With(entries, Referente) == With(old(entries), Referente) - {pubkey};
        assert With(entries, ManualOverride) == With(old(entries), ManualOverride) + {pubkey};
      } else {
        entries := map k | k in entries && !(k == pubkey && entries[k].source == ManualOverride) :: entries[k];
        assert With(entries, Referente) == With(old(entries), Referente);
        assert With(entries, ManualOverride) == With(old(entries), ManualOverride) - {pubkey};
      }
      return Ok(());
    }

    /** The registration gate, on a healthy database. */
    method IsAllowed(pubkey: string) returns (allowed: bool)
      ensures allowed <==> Admits(View(), settings.Some? && settings.value.enabled, pubkey)
    {
      var enabled := settings.Some? && settings.value.enabled;
      if !enabled {
        return true;
      }
      return pubkey in entries;
    }
  }

  /** Everyone while the gate is off, the union of the two sets while it is on. */
  predicate Admits(t: Trust, enabled: bool, pubkey: string) {
    enabled ==> pubkey in t.followed + t.overridden
  }

  /** Some key, in some spelling, signs events that count as the referente's. */
  ghost predicate SignerPossible(referente: string) {
    exists signer: string :: Lower(signer) == referente
  }

  /** The referente is stored as given but compared with lower-cased signers: in capitals it matches none. */
  lemma ReferenteSignsIff(referente: string)
    ensures SignerPossible(referente) <==> referente == Lower(referente)
  {
    forall signer: string {
      LowerTwice(signer);
    }
  }

  // -------------------------------------------------------------------------
  // Runs
  // -------------------------------------------------------------------------

  datatype Step = Refresh(list: seq<string>) | Add(pubkey: string) | Remove(pubkey: string)

  function Next(t: Trust, s: Step): Trust {
    match s
    case Refresh(list) => Refreshed(t, list)
    case Add(pubkey) => OverrideAdded(t, pubkey)
    case Remove(pubkey) => OverrideRemoved(t, pubkey)
  }

  function Run(steps: seq<Step>): Trust {
    if steps == [] then Trust({}, {}) else Next(Run(steps[..|steps| - 1]), steps[|steps| - 1])
  }

  predicate Grants(s: Step, k: string) {
    (s.Refresh? && k in s.list) || s == Add(k)
  }

  /** A list's grant ends at the next refresh, an override's at its removal. */
  predicate Ends(s: Step, grant: Step, k: string) {
    (grant.Refresh? && s.Refresh?) || (grant.Add? && s == Remove(k))
  }

  /** Step i is the last to grant k, and nothing has ended that grant. */
  predicate Stands(steps: seq<Step>, i: int, k: string) {
    && 0 <= i < |steps|
    && Grants(steps[i], k)
    && forall j :: i < j < |steps| ==> !Grants(steps[j], k) && !Ends(steps[j], steps[i], k)
  }

  ghost predicate StandsBy(steps: seq<Step>, k: string, refresh: bool) {
    exists i :: 0 <= i < |steps| && Stands(steps, i, k) && steps[i].Refresh? == refresh
  }

  lemma StandsStep(steps: seq<Step>, last: Step, k: string, i: int)
    ensures Stands(steps + [last], i, k) <==>
      if i == |steps| then Grants(last, k)
      else Stands(steps, i, k) && !Grants(last, k) && !Ends(last, steps[i], k)
  {
    var all := steps + [last];
    assert all[|steps|] == last;
    assert forall j :: 0 <= j < |steps| ==> all[j] == steps[j];
  }

  lemma StandsByStep(steps: seq<Step>, last: Step, k: string, refresh: bool)
    ensures StandsBy(steps + [last], k, refresh) <==>
      if Grants(last, k) then last.Refresh? == refresh
      else StandsBy(steps, k, refresh) && !(if refresh then last.Refresh? else last == Remove(k))
  {
    hide Stands;
    var all := steps + [last];
    assert all[|steps|] == last;
    forall i {
      StandsStep(steps, last, k, i);
    }
    if Grants(last, k) {
      assert Stands(all, |steps|, k);
    } else {
      forall i | Stands(steps, i, k)
        ensures 0 <= i < |steps| && all[i] == steps[i] && Grants(steps[i], k)
      {
        StandsAt(steps, i, k);
      }
    }
  }

  lemma StandsAt(steps: seq<Step>, i: int, k: string)
    requires Stands(steps, i, k)
    ensures 0 <= i < |steps| && Grants(steps[i], k)
  {
  }

  /**
   * Membership over a whole history: a key is followed when a follow list was the
   * last to grant it and no refresh came since, overridden when an override was and
   * it has not been removed since; the two sets stay disjoint.
   */
  lemma {:induction false} HistoryDecides(steps: seq<Step>, k: string)
    ensures k in Run(steps).followed <==> StandsBy(steps, k, true)
    ensures k in Run(steps).overridden <==> StandsBy(steps, k, false)
    ensures !(k in Run(steps).followed && k in Run(steps).overridden)
  {
    hide StandsBy;
    if steps == [] {
      NothingStands(k);
    } else {
      var front, last := steps[..|steps| - 1], steps[|steps| - 1];
      HistoryDecides(front, k);
      assert steps == front + [last];
      StandsByStep(front, last, k, true);
      StandsByStep(front, last, k, false);
    }
  }

  lemma NothingStands(k: string)
    ensures !StandsBy([], k, true) && !StandsBy([], k, false)
  {
  }

  /**
   * The source says overrides survive a refresh. They do exactly when the list does
   * not name them; a named one becomes a followed key and goes with the next list.
   */
  lemma OverrideSurvivesIff(t: Trust, list: seq<string>, next: seq<string>, k: string)
    requires k in t.overridden
    ensures k in Refreshed(t, list).overridden <==> k !in list
    ensures k in Refreshed(t, list).followed + Refreshed(t, list).overridden
    ensures var after := Refreshed(Refreshed(t, list), next);
      k !in after.followed + after.overridden <==> k in list && k !in next
  {
  }

  /** The stored follow count counts repeats: it is the number of keys exactly when none repeats. */
  lemma {:induction false} FollowCountIff(list: seq<string>)
    ensures |Elements(list)| <= |list|
    ensures |Elements(list)| == |list| <==> forall i, j :: 0 <= i < j < |list| ==> list[i] != list[j]
  {
    if list != [] {
      var front, last := list[..|list| - 1], list[|list| - 1];
      FollowCountIff(front);
      assert list == front + [last];
      assert Elements(list) == Elements(front) + {last};
      if last in front {
        var i :| 0 <= i < |front| && front[i] == last;
        assert list[i] == list[|front|];
        assert Elements(list) == Elements(front);
      } else {
        assert forall i :: 0 <= i < |front| ==> front[i] == list[i] && front[i] in front;
      }
    }
  }

  // -------------------------------------------------------------------------
  // Keys, whatever their spelling
  // -------------------------------------------------------------------------

  /** The registration handler asks the gate about the lower-cased key. */
  predicate AdmitsKey(t: Trust, enabled: bool, pubkey: string) {
    Admits(t, enabled, Lower(pubkey))
  }

  /** An override is stored as given: adding one admits its key exactly in lower case, or if it was admitted already. */
  lemma AddedKeyIsAdmittedIff(t: Trust, pubkey: string)
    ensures AdmitsKey(OverrideAdded(t, pubkey), true, pubkey) <==> pubkey == Lower(pubkey) || AdmitsKey(t, true, pubkey)
  {
  }

  /** And removing one ends the key's override exactly if it was removed in lower case, or had none there. */
  lemma RemovedKeyIsAdmittedIff(t: Trust, pubkey: string)
    requires t.followed !! t.overridden
    ensures AdmitsKey(OverrideRemoved(t, pubkey), true, pubkey) <==>
      AdmitsKey(t, true, pubkey) && (pubkey == Lower(pubkey) ==> pubkey in t.followed)
  {
  }

  /**
   * From the empty table, for a key given in capitals: its override does not admit it, its removal does
   * not end the override made in lower case, and a refresh leaves it followed and overridden at once.
   */
  lemma CapitalsMissTheGate(capitals: string)
    requires IsPubkey(capitals) && capitals != Lower(capitals)
    ensures !AdmitsKey(Run([Add(capitals)]), true, capitals)
    ensures AdmitsKey(Run([Add(Lower(capitals)), Remove(capitals)]), true, capitals)
    ensures var t := Run([Add(capitals), Refresh(ValidKeys([capitals]))]);
      Lower(capitals) in t.followed && capitals in t.overridden
  {
    var key := Lower(capitals);
    RunOfOne(Add(capitals));
    RunOfTwo(Add(key), Remove(capitals));
    RunOfTwo(Add(capitals), Refresh(ValidKeys([capitals])));
    LowerTwice(capitals);
    assert Spells([capitals], key) by {
      assert Lower([capitals][0]) == key;
    }
    assert IsPubkey(key);
    assert !Spells([capitals], capitals);
  }

  lemma RunOfOne(s: Step)
    ensures Run([s]) == Next(Trust({}, {}), s)
  {
    assert [s][..0] == [];
  }

  lemma RunOfTwo(s: Step, s': Step)
    ensures Run([s, s']) == Next(Next(Trust({}, {}), s), s')
  {
    RunOfOne(s);
    assert [s, s'][..1] == [s];
  }

  /** Over any history, the gate admits a key exactly when a grant that names it in lower case stands. */
  lemma GateDecides(steps: seq<Step>, pubkey: string)
    ensures AdmitsKey(Run(steps), true, pubkey) <==>
      StandsBy(steps, Lower(pubkey), true) || StandsBy(steps, Lower(pubkey), false)
  {
    hide StandsBy, Lower;
    HistoryDecides(steps, Lower(pubkey));
  }

  /** The overrides come in lower case, as follow lists always do. */
  predicate InLowerCase(s: Step) {
    match s
    case Refresh(list) => forall k <- list :: k == Lower(k)
    case Add(pubkey) => pubkey == Lower(pubkey)
    case Remove(_) => true
  }

  lemma FollowListsAreLower(list: seq<string>)
    ensures InLowerCase(Refresh(ValidKeys(list)))
  {
    forall k | k in ValidKeys(list)
      ensures k == Lower(k)
    {
      var i :| 0 <= i < |list| && Lower(list[i]) == k;
      LowerTwice(list[i]);
    }
  }

  ghost predicate AllLower(t: Trust) {
    forall k <- t.followed + t.overridden :: k == Lower(k)
  }

  lemma {:induction false} RunStaysLower(steps: seq<Step>)
    requires forall s <- steps :: InLowerCase(s)
    ensures AllLower(Run(steps))
  {
    hide Lower;
    if steps != [] {
      var front, last := steps[..|steps| - 1], steps[|steps| - 1];
      assert last in steps && forall s <- front :: s in steps;
      RunStaysLower(front);
    }
  }

  /** A key is among these, in some spelling. */
  ghost predicate HasKey(keys: set<string>, pubkey: string) {
    exists k <- keys :: Lower(k) == Lower(pubkey)
  }

  /**
   * So while overrides come in lower case the history decides about keys: in any spelling a key is followed,
   * or overridden, exactly when the last standing grant is of that kind, never both, and the gate agrees.
   */
  lemma HistoryDecidesForKeys(steps: seq<Step>, pubkey: string)
    requires forall s <- steps :: InLowerCase(s)
    ensures HasKey(Run(steps).followed, pubkey) <==> StandsBy(steps, Lower(pubkey), true)
    ensures HasKey(Run(steps).overridden, pubkey) <==> StandsBy(steps, Lower(pubkey), false)
    ensures !(HasKey(Run(steps).followed, pubkey) && HasKey(Run(steps).overridden, pubkey))
    ensures AdmitsKey(Run(steps), true, pubkey) <==> HasKey(Run(steps).followed + Run(steps).overridden, pubkey)
  {
    hide StandsBy, Lower;
    RunStaysLower(steps);
    HistoryDecides(steps, Lower(pubkey));
    LowerTwice(pubkey);
  }

  /** Step by step that is exact: a table without capitals gains one exactly when a step brings one. */
  lemma CapitalsArriveIff(t: Trust, s: Step)
    requires AllLower(t)
    ensures AllLower(Next(t, s)) <==> InLowerCase(s)
  {
    hide Lower;
  }
}
