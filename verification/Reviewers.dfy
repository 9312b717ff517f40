/**
 * Reviewer telemetry: how decided cases are grouped, sorted and aggregated per
 * reviewer. The f64 values are exact rationals; the override rate is held in
 * ten-thousandths.
 */
module Reviewers {
  import opened Arithmetic
  import opened Ordering
  import opened Sequences

  datatype Row = Row(
    broker: string,
    decisionId: string,
    outcome: string,
    decidedAt: int,
    requestedAt: int,
    calibration: bool,
    probe: bool,
    superseded: bool)

  datatype Stats = Stats(
    pubkey: string,
    decisions: nat,
    median: int,
    p90: int,
    overrideRate: nat,
    superseded: nat,
    calibrationShown: nat,
    calibrationDecided: nat,
    probesSeen: nat,
    probesCaught: nat)

  predicate Any(r: Row) { true }

  predicate InCalibration(r: Row) { r.calibration }

  predicate IsProbe(r: Row) { r.probe }

  predicate Superseded(r: Row) { r.superseded }

  predicate Overrides(r: Row) { r.outcome != "approve" }

  predicate Catches(r: Row) { r.probe && r.outcome == "reject" }

  function By(key: string): Row -> bool {
    (r: Row) => r.broker == key
  }

  function Took(t: int): Row -> bool {
    (r: Row) => r.decidedAt - r.requestedAt == t
  }

  function AtMost(t: int): int -> bool {
    (d: int) => d <= t
  }

  function AtLeast(t: int): int -> bool {
    (d: int) => d >= t
  }

  /** Times to decision; one that predates its own request is dropped. */
  function Times(rows: seq<Row>): (r: seq<int>)
    ensures |r| <= |rows|
    ensures forall t :: t in r ==> t >= 0
  {
    if rows == [] then []
    else
      var t := rows[0].decidedAt - rows[0].requestedAt;
      (if t >= 0 then [t] else []) + Times(rows[1..])
  }

  /** The smallest whole number not below 9n/10. */
  function NineTenths(n: nat): nat {
    (9 * n + 9) / 10
  }

  function P90(sorted: seq<int>): int {
    if sorted == [] then 0
    else
      var rank := if NineTenths(|sorted|) > 1 then NineTenths(|sorted|) else 1;
      sorted[(if rank < |sorted| then rank else |sorted|) - 1]
  }

  function Median(sorted: seq<int>): int {
    var n := |sorted|;
    if n == 0 then 0
    else if n % 2 == 1 then sorted[n / 2]
    else (sorted[n / 2 - 1] + sorted[n / 2]) / 2
  }

  /** overrides / decisions in ten-thousandths, rounded half away from zero. */
  function OverrideRate(overrides: nat, decisions: nat): nat {
    if decisions == 0 then 0 else (20000 * overrides + decisions) / (2 * decisions)
  }

  /** One reviewer's statistics, from that reviewer's rows and two corpus counts. */
  function StatsOf(key: string, own: seq<Row>, shown: nat, probes: nat): Stats {
    var times := Sorted(Times(own));
    Stats(key, |own|, Median(times), P90(times),
      OverrideRate(|Filter(own, Overrides)|, |own|),
      |Filter(own, Superseded)|,
      shown, |Filter(own, InCalibration)|,
      probes, |Filter(own, Catches)|)
  }

  function Keys(report: seq<Stats>): (r: seq<string>)
    ensures |r| == |report|
    ensures forall i :: 0 <= i < |report| ==> r[i] == report[i].pubkey
  {
    if report == [] then [] else [report[0].pubkey] + Keys(report[1..])
  }

  ghost predicate Decided(rows: seq<Row>, key: string) {
    exists r :: r in rows && r.broker == key
  }

  /**
   * What a report is: one entry per reviewer with a decision, in key order, each
   * computed from the rows carrying that key wherever they stand.
   */
  ghost predicate IsReport(rows: seq<Row>, report: seq<Stats>) {
    && Ascending(Keys(report))
    && (forall k :: k in Keys(report) <==> Decided(rows, k))
    && forall s :: s in report ==>
      s == StatsOf(s.pubkey, Filter(rows, By(s.pubkey)), |Filter(rows, InCalibration)|, |Filter(rows, IsProbe)|)
  }

  // -------------------------------------------------------------------------
  // The fold
  // -------------------------------------------------------------------------

  /** Where a new key goes among the ordered keys of a BTreeMap. */
  function InsertKey(keys: seq<string>, key: string): (r: seq<string>)
    requires Ascending(keys) && key !in keys
    ensures Ascending(r)
    ensures forall k :: k in r <==> k == key || k in keys
    ensures forall i :: 0 <= i < |r| ==> r[i] == key || r[i] in keys
  {
    if keys == [] then [key]
    else if Less(key, keys[0]) then
      BeforeAll(keys, key);
      [key] + keys
    else
      assert keys == [keys[0]] + keys[1..];
      LessTotal(key, keys[0]);
      [keys[0]] + InsertKey(keys[1..], key)
  }

  lemma BeforeAll(keys: seq<string>, key: string)
    requires Ascending(keys) && keys != [] && Less(key, keys[0])
    ensures forall k :: k in keys ==> Less(key, k)
  {
    forall i | 0 < i < |keys|
      ensures Less(key, keys[i])
    {
      LessTransitive(key, keys[0], keys[i]);
    }
  }

  /** The map after some rows: each key seen holds its own rows, in order. */
  ghost predicate Grouped(rows: seq<Row>, keys: seq<string>, groups: map<string, seq<Row>>) {
    && Ascending(keys)
    && (forall k :: k in keys <==> k in groups)
    && (forall k :: k in groups <==> Decided(rows, k))
    && forall k :: k in groups ==> groups[k] == Filter(rows, By(k))
  }

  lemma OneMoreRow(rows: seq<Row>, row: Row, key: string)
    ensures Decided(rows + [row], key) <==> row.broker == key || Decided(rows, key)
    ensures Filter(rows + [row], By(key)) == Filter(rows, By(key)) + (if row.broker == key then [row] else [])
    ensures !Decided(rows, key) ==> Filter(rows, By(key)) == []
  {
    FilterOneMore(rows, row, By(key));
    if row.broker == key {
      assert row in rows + [row];
    }
    if Filter(rows, By(key)) != [] {
      var first := Filter(rows, By(key))[0];
      assert first in Filter(rows, By(key));
    }
  }

  method AggregateReviewers(rows: seq<Row>) returns (report: seq<Stats>)
    ensures IsReport(rows, report)
  {
    hide Filter, InsertKey, StatsOf, Decided, Ascending;
    var calibrationShown := |Filter(rows, InCalibration)|;
    var probesSeen := |Filter(rows, IsProbe)|;
    var keys, byReviewer := [], map[];
    NothingGrouped();
    var i := 0;
    while i < |rows|
      invariant 0 <= i <= |rows|
      invariant Grouped(rows[..i], keys, byReviewer)
    {
      var row := rows[i];
      assert rows[..i + 1] == rows[..i] + [row];
      forall k {
        OneMoreRow(rows[..i], row, k);
      }
      if row.broker in byReviewer {
        byReviewer := byReviewer[row.broker := byReviewer[row.broker] + [row]];
      } else {
        keys := InsertKey(keys, row.broker);
        byReviewer := byReviewer[row.broker := [row]];
      }
      i := i + 1;
    }
    assert rows[..|rows|] == rows;
    report := [];
    i := 0;
    while i < |keys|
      invariant 0 <= i <= |keys|
      invariant Keys(report) == keys[..i]
      invariant forall s :: s in report ==> s == StatsOf(s.pubkey, Filter(rows, By(s.pubkey)), calibrationShown, probesSeen)
    {
      var entry := StatsOf(keys[i], byReviewer[keys[i]], calibrationShown, probesSeen);
      KeysOneMore(report, entry);
      StatsCarryTheirKey(keys[i], byReviewer[keys[i]], calibrationShown, probesSeen);
      report := report + [entry];
      i := i + 1;
    }
    assert keys[..|keys|] == keys;
  }

  lemma NothingGrouped()
    ensures Grouped([], [], map[])
  {
  }

  lemma StatsCarryTheirKey(key: string, own: seq<Row>, shown: nat, probes: nat)
    ensures StatsOf(key, own, shown, probes).pubkey == key
  {
  }

  lemma KeysOneMore(report: seq<Stats>, entry: Stats)
    ensures Keys(report + [entry]) == Keys(report) + [entry.pubkey]
  {
  }

  // -------------------------------------------------------------------------
  // Row order does not matter
  // -------------------------------------------------------------------------

  lemma {:induction false} TimesCounts(rows: seq<Row>, t: int)
    ensures multiset(Times(rows))[t] == if t >= 0 then |Filter(rows, Took(t))| else 0
  {
    if rows != [] {
      TimesCounts(rows[1..], t);
    }
  }

  lemma TimesPermute(a: seq<Row>, b: seq<Row>)
    requires multiset(a) == multiset(b)
    ensures Sorted(Times(a)) == Sorted(Times(b))
  {
    forall t
      ensures multiset(Times(a))[t] == multiset(Times(b))[t]
    {
      TimesCounts(a, t);
      TimesCounts(b, t);
      FilterPermutes(a, b, Took(t));
    }
    assert multiset(Times(a)) == multiset(Times(b));
    SortedUnique(Sorted(Times(a)), Sorted(Times(b)));
  }

  lemma StatsPermute(key: string, a: seq<Row>, b: seq<Row>, shown: nat, probes: nat)
    requires multiset(a) == multiset(b)
    ensures StatsOf(key, a, shown, probes) == StatsOf(key, b, shown, probes)
  {
    hide Sorted, Median, P90, OverrideRate, Filter, Times;
    TimesPermute(a, b);
    FilterPermutes(a, b, Overrides);
    FilterPermutes(a, b, Superseded);
    FilterPermutes(a, b, InCalibration);
    FilterPermutes(a, b, Catches);
    assert |a| == |multiset(a)| == |multiset(b)| == |b|;
  }

  /** Two reports over the same decisions, in whatever order, are equal. */
  lemma ReportIgnoresRowOrder(a: seq<Row>, ra: seq<Stats>, b: seq<Row>, rb: seq<Stats>)
    requires multiset(a) == multiset(b)
    requires IsReport(a, ra) && IsReport(b, rb)
    ensures ra == rb
  {
    hide StatsOf, Filter, Sorted;
    assert forall r :: r in a <==> r in multiset(a);
    assert forall r :: r in b <==> r in multiset(b);
    AscendingUnique(Keys(ra), Keys(rb));
    FilterPermutes(a, b, InCalibration);
    FilterPermutes(a, b, IsProbe);
    forall i | 0 <= i < |ra|
      ensures ra[i] == rb[i]
    {
      var key := Keys(ra)[i];
      assert ra[i] in ra && rb[i] in rb && ra[i].pubkey == key && rb[i].pubkey == key;
      FilterPermutes(a, b, By(key));
      StatsPermute(key, Filter(a, By(key)), Filter(b, By(key)), |Filter(a, InCalibration)|, |Filter(a, IsProbe)|);
    }
  }

  // -------------------------------------------------------------------------
  // Nothing is lost or counted twice
  // -------------------------------------------------------------------------

  /** Over the listed reviewers, how many of their rows satisfy p. */
  function Tally(rows: seq<Row>, keys: seq<string>, p: Row -> bool): nat {
    if keys == [] then 0
    else |Filter(Filter(rows, By(keys[0])), p)| + Tally(rows, keys[1..], p)
  }

  predicate Distinct(keys: seq<string>) {
    forall i, j :: 0 <= i < j < |keys| ==> keys[i] != keys[j]
  }

  lemma {:induction false} TallyNothing(keys: seq<string>, p: Row -> bool)
    ensures Tally([], keys, p) == 0
  {
    if keys != [] {
      TallyNothing(keys[1..], p);
    }
  }

  lemma {:induction false} TallyOneRow(rows: seq<Row>, keys: seq<string>, p: Row -> bool)
    requires rows != [] && Distinct(keys)
    ensures Tally(rows, keys, p) == Tally(rows[1..], keys, p) + if p(rows[0]) && rows[0].broker in keys then 1 else 0
  {
    hide Filter, By;
    if keys != [] {
      TallyOneRow(rows, keys[1..], p);
      FilterTwiceOneRow(rows, keys[0], p);
      assert keys == [keys[0]] + keys[1..];
      assert keys[0] !in keys[1..];
    }
  }

  lemma FilterTwiceOneRow(rows: seq<Row>, key: string, p: Row -> bool)
    requires rows != []
    ensures |Filter(Filter(rows, By(key)), p)| == |Filter(Filter(rows[1..], By(key)), p)| + if p(rows[0]) && rows[0].broker == key then 1 else 0
  {
    if rows[0].broker == key {
      var rest := Filter(rows[1..], By(key));
      assert Filter(rows, By(key)) == [rows[0]] + rest;
      assert ([rows[0]] + rest)[1..] == rest;
    } else {
      assert Filter(rows, By(key)) == Filter(rows[1..], By(key));
    }
  }

  /** Splitting the rows among all their reviewers keeps every count. */
  lemma {:induction false} TallyIsTotal(rows: seq<Row>, keys: seq<string>, p: Row -> bool)
    requires Distinct(keys) && forall r :: r in rows ==> r.broker in keys
    ensures Tally(rows, keys, p) == |Filter(rows, p)|
  {
    if rows == [] {
      TallyNothing(keys, p);
    } else {
      assert rows == [rows[0]] + rows[1..];
      assert rows[0] in rows;
      TallyOneRow(rows, keys, p);
      TallyIsTotal(rows[1..], keys, p);
    }
  }

  function SumOf(report: seq<Stats>, f: Stats -> nat): nat {
    if report == [] then 0 else f(report[0]) + SumOf(report[1..], f)
  }

  lemma {:induction false} SumIsTally(rows: seq<Row>, report: seq<Stats>, f: Stats -> nat, p: Row -> bool)
    requires forall s :: s in report ==> f(s) == |Filter(Filter(rows, By(s.pubkey)), p)|
    ensures SumOf(report, f) == Tally(rows, Keys(report), p)
  {
    if report != [] {
      assert report == [report[0]] + report[1..];
      assert Keys(report) == [report[0].pubkey] + Keys(report[1..]);
      SumIsTally(rows, report[1..], f, p);
    }
  }

  lemma FilterAll(rows: seq<Row>)
    ensures Filter(rows, Any) == rows
  {
    FilterEverything(rows, Any);
  }

  lemma {:induction false} FilterWeaker(rows: seq<Row>)
    ensures |Filter(rows, Catches)| <= |Filter(rows, IsProbe)|
  {
    if rows != [] {
      FilterWeaker(rows[1..]);
    }
  }

  lemma ReportKeysCover(rows: seq<Row>, report: seq<Stats>)
    requires IsReport(rows, report)
    ensures Distinct(Keys(report)) && forall r :: r in rows ==> r.broker in Keys(report)
  {
    hide StatsOf;
    forall i, j | 0 <= i < j < |report|
      ensures Keys(report)[i] != Keys(report)[j]
    {
      LessIrreflexive(Keys(report)[i]);
    }
  }

  function Decisions(s: Stats): nat { s.decisions }

  function Overturned(s: Stats): nat { s.superseded }

  function Calibrated(s: Stats): nat { s.calibrationDecided }

  function Caught(s: Stats): nat { s.probesCaught }

  /**
   * The columns add up: decisions to the rows, superseded and calibration
   * columns to their corpus counts, probes caught to at most the probes seen.
   */
  lemma ReportAddsUp(rows: seq<Row>, report: seq<Stats>)
    requires IsReport(rows, report)
    ensures SumOf(report, Decisions) == |rows|
    ensures SumOf(report, Overturned) == |Filter(rows, Superseded)|
    ensures forall s :: s in report ==> SumOf(report, Calibrated) == s.calibrationShown && SumOf(report, Caught) <= s.probesSeen
  {
    hide Filter, Sorted, Median, P90, OverrideRate, Times;
    ReportKeysCover(rows, report);
    forall s | s in report
      ensures Decisions(s) == |Filter(Filter(rows, By(s.pubkey)), Any)|
    {
      FilterAll(Filter(rows, By(s.pubkey)));
    }
    FilterAll(rows);
    FilterWeaker(rows);
    ColumnTotal(rows, report, Decisions, Any);
    ColumnTotal(rows, report, Overturned, Superseded);
    ColumnTotal(rows, report, Calibrated, InCalibration);
    ColumnTotal(rows, report, Caught, Catches);
  }

  lemma ColumnTotal(rows: seq<Row>, report: seq<Stats>, f: Stats -> nat, p: Row -> bool)
    requires Distinct(Keys(report)) && forall r :: r in rows ==> r.broker in Keys(report)
    requires forall s :: s in report ==> f(s) == |Filter(Filter(rows, By(s.pubkey)), p)|
    ensures SumOf(report, f) == |Filter(rows, p)|
  {
    SumIsTally(rows, report, f, p);
    TallyIsTotal(rows, Keys(report), p);
  }

  // -------------------------------------------------------------------------
  // What the rank statistics mean
  // -------------------------------------------------------------------------

  lemma {:induction false} FilterAtLeastRank(s: seq<int>, t: int, n: nat)
    requires n <= |s|
    requires forall i :: 0 <= i < n ==> s[i] <= t
    ensures |Filter(s, AtMost(t))| >= n
  {
    if n > 0 {
      FilterAtLeastRank(s[1..], t, n - 1);
    }
  }

  lemma {:induction false} FilterAboveRank(s: seq<int>, t: int, n: nat)
    requires n <= |s|
    requires forall i :: n <= i < |s| ==> s[i] >= t
    ensures |Filter(s, AtLeast(t))| >= |s| - n
  {
    if s != [] {
      FilterAboveRank(s[1..], t, if n == 0 then 0 else n - 1);
    }
  }

  lemma {:induction false} FilterBelowRank(s: seq<int>, t: int, n: nat)
    requires n <= |s|
    requires forall i :: n <= i < |s| ==> s[i] > t
    ensures |Filter(s, AtMost(t))| <= n
  {
    if s != [] {
      FilterBelowRank(s[1..], t, if n == 0 then 0 else n - 1);
    }
  }

  lemma SortedKeepsCounts(times: seq<int>, p: int -> bool)
    ensures |Filter(Sorted(times), p)| == |Filter(times, p)|
  {
    FilterPermutes(Sorted(times), times, p);
  }

  lemma SortedKeepsMembers(times: seq<int>)
    ensures forall t :: t in Sorted(times) <==> t in times
  {
    assert forall t :: t in times <==> t in multiset(times);
    assert forall t :: t in Sorted(times) <==> t in multiset(Sorted(times));
  }

  /**
   * p90 is the least of the reviewer's own times that at least nine tenths of
   * them do not exceed.
   */
  lemma P90IsTheLeast(times: seq<int>)
    requires times != []
    ensures var r := P90(Sorted(times));
      && r in times
      && 10 * |Filter(times, AtMost(r))| >= 9 * |times|
      && forall t :: t in times && 10 * |Filter(times, AtMost(t))| >= 9 * |times| ==> r <= t
  {
    hide Filter, Sorted;
    var s := Sorted(times);
    SortedKeepsMembers(times);
    var rank := NineTenths(|s|);
    assert 1 <= rank <= |s| && P90(s) == s[rank - 1];
    assert s[rank - 1] in s;
    FilterAtLeastRank(s, s[rank - 1], rank);
    SortedKeepsCounts(times, AtMost(s[rank - 1]));
    forall t | t in times && 10 * |Filter(times, AtMost(t))| >= 9 * |times|
      ensures s[rank - 1] <= t
    {
      SortedKeepsCounts(times, AtMost(t));
      if t < s[rank - 1] {
        FilterBelowRank(s, t, rank - 1);
      }
    }
  }

  /** Half the times are at most the median and half at least; it never passes p90. */
  lemma MedianIsTheMiddle(times: seq<int>)
    requires times != []
    ensures var m := Median(Sorted(times));
      && 2 * |Filter(times, AtMost(m))| >= |times|
      && 2 * |Filter(times, AtLeast(m))| >= |times|
      && m <= P90(Sorted(times))
  {
    hide Filter, Sorted;
    var s := Sorted(times);
    var n := |s|;
    var m := Median(s);
    assert s[(n - 1) / 2] <= m <= s[n / 2];
    FilterAtLeastRank(s, m, (n - 1) / 2 + 1);
    FilterAboveRank(s, m, n / 2);
    SortedKeepsCounts(times, AtMost(m));
    SortedKeepsCounts(times, AtLeast(m));
    assert n / 2 <= NineTenths(n) - 1;
  }

  /** In every report entry. */
  lemma ReportTimes(rows: seq<Row>, report: seq<Stats>, s: Stats)
    requires IsReport(rows, report) && s in report
    ensures 0 <= s.median <= s.p90
    ensures var times := Times(Filter(rows, By(s.pubkey)));
      && (times == [] ==> s.p90 == 0)
      && (times != [] ==> s.p90 in times && |Filter(times, AtMost(s.p90))| >= NineTenths(|times|))
  {
    hide Filter, Sorted, Median, P90, OverrideRate, Ascending;
    var times := Times(Filter(rows, By(s.pubkey)));
    if times == [] {
      EmptyTimes();
    } else {
      P90IsTheLeast(times);
      MedianIsTheMiddle(times);
      MedianNotNegative(times);
    }
  }

  lemma EmptyTimes()
    ensures Median(Sorted([])) == 0 && P90(Sorted([])) == 0
  {
  }

  lemma MedianNotNegative(times: seq<int>)
    requires times != [] && forall t :: t in times ==> t >= 0
    ensures Median(Sorted(times)) >= 0
  {
    SortedKeepsMembers(times);
    var s := Sorted(times);
    assert forall i :: 0 <= i < |s| ==> s[i] in s;
  }

  /** The stored rate is the closest ten-thousandth to overrides / decisions. */
  lemma OverrideRateIsNearest(overrides: nat, decisions: nat, other: int)
    requires 0 < decisions && overrides <= decisions
    ensures OverrideRate(overrides, decisions) <= 10000
    ensures var error: int := OverrideRate(overrides, decisions) * decisions - 10000 * overrides; 2 * error <= decisions && 0 < 2 * error + decisions
    ensures Distance(other * decisions, 10000 * overrides) >= Distance(OverrideRate(overrides, decisions) * decisions, 10000 * overrides)
  {
    hide OverrideRate;
    var rate := OverrideRate(overrides, decisions);
    RateBounds(overrides, decisions);
    if rate > 10000 {
      ScaledOrder(10001, rate, decisions);
    }
    if other > rate {
      ScaledOrder(rate + 1, other, decisions);
      assert (rate + 1) * decisions == rate * decisions + decisions;
    } else if other < rate {
      ScaledOrder(other, rate - 1, decisions);
      assert (rate - 1) * decisions == rate * decisions - decisions;
    }
  }

  lemma RateBounds(overrides: nat, decisions: nat)
    requires 0 < decisions
    ensures var error: int := OverrideRate(overrides, decisions) * decisions - 10000 * overrides; 2 * error <= decisions && 0 < 2 * error + decisions
  {
    QuotientBounds(20000 * overrides + decisions, 2 * decisions);
    var rate := OverrideRate(overrides, decisions);
    assert 2 * decisions * rate == 2 * (rate * decisions);
  }

  lemma RateZero(overrides: nat, decisions: nat)
    requires 0 < decisions
    ensures OverrideRate(overrides, decisions) == 0 <==> 20000 * overrides < decisions
  {
    QuotientBounds(20000 * overrides + decisions, 2 * decisions);
    if OverrideRate(overrides, decisions) > 0 {
      ScaledOrder(1, OverrideRate(overrides, decisions), 2 * decisions);
    }
  }

  lemma OwnRows(rows: seq<Row>, report: seq<Stats>, s: Stats)
    requires IsReport(rows, report) && s in report
    ensures Filter(rows, By(s.pubkey)) != []
  {
    hide StatsOf, Ascending, Filter;
    var i :| 0 <= i < |report| && report[i] == s;
    assert s.pubkey == Keys(report)[i];
    assert Decided(rows, s.pubkey);
    var r :| r in rows && r.broker == s.pubkey;
    assert r in Filter(rows, By(s.pubkey));
  }

  /**
   * In every report entry: the reviewer has decided something, and the rate is the
   * share of those decisions that were not "approve", to half a ten-thousandth.
   */
  lemma ReportRates(rows: seq<Row>, report: seq<Stats>, s: Stats)
    requires IsReport(rows, report) && s in report
    ensures 0 < s.decisions && s.overrideRate <= 10000
    ensures var overrides := |Filter(Filter(rows, By(s.pubkey)), Overrides)|;
      && (s.overrideRate == 0 <==> 20000 * overrides < s.decisions)
      && 2 * Distance(s.overrideRate * s.decisions, 10000 * overrides) <= s.decisions
  {
    hide Filter, Sorted, Median, P90, Times, Ascending, OverrideRate, Decided, By, Overrides;
    var own := Filter(rows, By(s.pubkey));
    OwnRows(rows, report, s);
    OverrideRateIsNearest(|Filter(own, Overrides)|, |own|, 0);
    RateZero(|Filter(own, Overrides)|, |own|);
  }

  // -------------------------------------------------------------------------
  // An entry, over the rows themselves
  // -------------------------------------------------------------------------

  /** How many rows are this reviewer's and satisfy p. */
  ghost function OwnPlaces(rows: seq<Row>, key: string, p: Row -> bool): (places: set<int>) {
    set i | 0 <= i < |rows| && rows[i].broker == key && p(rows[i])
  }

  lemma OwnCount(rows: seq<Row>, key: string, p: Row -> bool)
    ensures |Filter(Filter(rows, By(key)), p)| == |OwnPlaces(rows, key, p)|
  {
    hide Filter;
    FilterTwiceCounts(rows, By(key), p);
    assert Places(rows, By(key), p) == OwnPlaces(rows, key, p);
  }

  /** The columns of an entry count rows: the reviewer's own, or for the two corpus columns anybody's. */
  lemma ColumnsCountRows(rows: seq<Row>, report: seq<Stats>, s: Stats)
    requires IsReport(rows, report) && s in report
    ensures s.decisions == |set i | 0 <= i < |rows| && rows[i].broker == s.pubkey|
    ensures s.superseded == |set i | 0 <= i < |rows| && rows[i].broker == s.pubkey && rows[i].superseded|
    ensures s.calibrationDecided == |set i | 0 <= i < |rows| && rows[i].broker == s.pubkey && rows[i].calibration|
    ensures s.probesCaught ==
      |set i | 0 <= i < |rows| && rows[i].broker == s.pubkey && rows[i].probe && rows[i].outcome == "reject"|
    ensures s.calibrationShown == |set i | 0 <= i < |rows| && rows[i].calibration|
    ensures s.probesSeen == |set i | 0 <= i < |rows| && rows[i].probe|
  {
    hide Filter, Sorted, Median, P90, OverrideRate, Times, Ascending, Decided;
    var k := s.pubkey;
    FilterAll(Filter(rows, By(k)));
    OwnCount(rows, k, Any);
    OwnCount(rows, k, Superseded);
    OwnCount(rows, k, InCalibration);
    OwnCount(rows, k, Catches);
    FilterCountsPlaces(rows, InCalibration);
    FilterCountsPlaces(rows, IsProbe);
    assert OwnPlaces(rows, k, Any) == set i | 0 <= i < |rows| && rows[i].broker == k;
    assert OwnPlaces(rows, k, Superseded) == set i | 0 <= i < |rows| && rows[i].broker == k && rows[i].superseded;
    assert OwnPlaces(rows, k, InCalibration) == set i | 0 <= i < |rows| && rows[i].broker == k && rows[i].calibration;
    assert OwnPlaces(rows, k, Catches) == set i | 0 <= i < |rows| && rows[i].broker == k && rows[i].probe && rows[i].outcome == "reject";
    assert Places(rows, InCalibration, InCalibration) == set i | 0 <= i < |rows| && rows[i].calibration;
    assert Places(rows, IsProbe, IsProbe) == set i | 0 <= i < |rows| && rows[i].probe;
  }

  /** The rate is the nearest ten-thousandth to the share of rows whose outcome is not "approve", halves up. */
  lemma RateCountsRows(rows: seq<Row>, report: seq<Stats>, s: Stats)
    requires IsReport(rows, report) && s in report
    ensures var overrides := |set i | 0 <= i < |rows| && rows[i].broker == s.pubkey && rows[i].outcome != "approve"|;
      2 * (s.overrideRate * s.decisions) <= 20000 * overrides + s.decisions < 2 * (s.overrideRate * s.decisions) + 2 * s.decisions
  {
    hide Filter, Sorted, Median, P90, OverrideRate, Times, Ascending, Decided;
    var k := s.pubkey;
    OwnRows(rows, report, s);
    OwnCount(rows, k, Overrides);
    assert OwnPlaces(rows, k, Overrides) == set i | 0 <= i < |rows| && rows[i].broker == k && rows[i].outcome != "approve";
    RateBounds(|OwnPlaces(rows, k, Overrides)|, s.decisions);
  }

  /** The row is timed, and its time satisfies p. */
  function Timed(p: int -> bool): Row -> bool {
    (r: Row) => r.decidedAt >= r.requestedAt && p(r.decidedAt - r.requestedAt)
  }

  lemma {:induction false} TimesFilter(rows: seq<Row>, p: int -> bool)
    ensures |Filter(Times(rows), p)| == |Filter(rows, Timed(p))|
  {
    if rows != [] {
      TimesFilter(rows[1..], p);
      var t := rows[0].decidedAt - rows[0].requestedAt;
      if t >= 0 {
        assert Times(rows) == [t] + Times(rows[1..]);
        assert ([t] + Times(rows[1..]))[1..] == Times(rows[1..]);
      } else {
        assert Times(rows) == Times(rows[1..]);
      }
    }
  }

  /** The reviewer's rows that took from 0 to t. */
  ghost function TookUpTo(rows: seq<Row>, key: string, t: int): (places: set<int>) {
    set i | 0 <= i < |rows| && rows[i].broker == key && 0 <= rows[i].decidedAt - rows[i].requestedAt <= t
  }

  ghost function TimedRows(rows: seq<Row>, key: string): (places: set<int>) {
    set i | 0 <= i < |rows| && rows[i].broker == key && rows[i].requestedAt <= rows[i].decidedAt
  }

  lemma TimesCountRows(rows: seq<Row>, key: string, t: int)
    ensures var times := Times(Filter(rows, By(key)));
      |times| == |TimedRows(rows, key)| && |Filter(times, AtMost(t))| == |TookUpTo(rows, key, t)|
    ensures t in Times(Filter(rows, By(key))) <==>
      exists i :: 0 <= i < |rows| && rows[i].broker == key && 0 <= rows[i].decidedAt - rows[i].requestedAt == t
  {
    hide Filter, Times;
    var own := Filter(rows, By(key));
    var always := (d: int) => true;
    TimesFilter(own, always);
    FilterEverything(Times(own), always);
    OwnCount(rows, key, Timed(always));
    assert OwnPlaces(rows, key, Timed(always)) == TimedRows(rows, key);
    TimesFilter(own, AtMost(t));
    OwnCount(rows, key, Timed(AtMost(t)));
    assert OwnPlaces(rows, key, Timed(AtMost(t))) == TookUpTo(rows, key, t);
    TimesAre(own);
    assert forall i :: 0 <= i < |rows| ==> rows[i] in rows;
  }

  lemma {:induction false} TimesAre(rows: seq<Row>)
    ensures forall t :: t in Times(rows) <==> exists r :: r in rows && 0 <= r.decidedAt - r.requestedAt == t
  {
    if rows != [] {
      TimesAre(rows[1..]);
      assert rows == [rows[0]] + rows[1..];
    }
  }

  lemma NthSmallest(times: seq<int>, k: nat)
    requires k < |times|
    ensures var v := Sorted(times)[k];
      v in times && |Filter(times, AtMost(v - 1))| <= k < |Filter(times, AtMost(v))|
  {
    hide Filter, Sorted;
    var s := Sorted(times);
    SortedKeepsMembers(times);
    assert s[k] in s;
    FilterBelowRank(s, s[k] - 1, k);
    FilterAtLeastRank(s, s[k], k + 1);
    SortedKeepsCounts(times, AtMost(s[k] - 1));
    SortedKeepsCounts(times, AtMost(s[k]));
  }

  /** This reviewer's time of rank k, from 0: at most k of the rows took less, more than k took no longer. */
  ghost predicate IsRank(rows: seq<Row>, key: string, k: nat, t: int) {
    && (exists i :: 0 <= i < |rows| && rows[i].broker == key && 0 <= rows[i].decidedAt - rows[i].requestedAt == t)
    && |TookUpTo(rows, key, t - 1)| <= k < |TookUpTo(rows, key, t)|
  }

  lemma RankOfRows(rows: seq<Row>, key: string, k: nat)
    requires k < |Times(Filter(rows, By(key)))|
    ensures IsRank(rows, key, k, Sorted(Times(Filter(rows, By(key))))[k])
  {
    hide Filter, Times, Sorted;
    var times := Times(Filter(rows, By(key)));
    NthSmallest(times, k);
    TimesCountRows(rows, key, Sorted(times)[k]);
    TimesCountRows(rows, key, Sorted(times)[k] - 1);
  }

  lemma RanksOf(sorted: seq<int>)
    requires sorted != [] && IsSorted(sorted)
    ensures var n := |sorted|;
      && 2 * Median(sorted) <= sorted[(n - 1) / 2] + sorted[n / 2] <= 2 * Median(sorted) + 1
      && 1 <= NineTenths(n) <= n && P90(sorted) == sorted[NineTenths(n) - 1] && 10 * (NineTenths(n) - 1) < 9 * n <= 10 * NineTenths(n)
  {
  }

  /**
   * p90 is the reviewer's time of rank ceil(9n/10) among n timed rows, the median that of the middle rank, or
   * half the sum of the two middle ones, rounded down; both are 0 without a timed row.
   */
  lemma TimesCountRanks(rows: seq<Row>, report: seq<Stats>, s: Stats) returns (low: int, high: int)
    requires IsReport(rows, report) && s in report
    ensures var n := |TimedRows(rows, s.pubkey)|;
      && (n == 0 ==> s.p90 == 0 && s.median == 0)
      && (n > 0 ==>
            && (exists k: nat :: 10 * k < 9 * n <= 10 * (k + 1) && IsRank(rows, s.pubkey, k, s.p90))
            && IsRank(rows, s.pubkey, (n - 1) / 2, low) && IsRank(rows, s.pubkey, n / 2, high)
            && 2 * s.median <= low + high <= 2 * s.median + 1)
  {
    hide Filter, Sorted, OverrideRate, Ascending, Times, IsRank, TimedRows, Median, P90, NineTenths;
    var key := s.pubkey;
    var times := Times(Filter(rows, By(key)));
    TimesCountRows(rows, key, 0);
    var n := |times|;
    if n == 0 {
      EmptyTimes();
      low, high := 0, 0;
    } else {
      var sorted := Sorted(times);
      low, high := sorted[(n - 1) / 2], sorted[n / 2];
      RanksOf(sorted);
      RankOfRows(rows, key, (n - 1) / 2);
      RankOfRows(rows, key, n / 2);
      RankOfRows(rows, key, NineTenths(n) - 1);
    }
  }

  function Distance(a: int, b: int): nat {
    if a < b then b - a else a - b
  }

}
