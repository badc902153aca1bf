/** Accounting of bad readings per source contract over a whole assessment
    (src/fl_op/snapshot/assessment.py, assess_observations). */
module Assessment {
  import opened Wrappers
  import opened Ordering
  import opened Sums
  import opened Tables
  import opened Downsampling

  type Key = (string, string)

  const CLOCK_SKEW_TOLERANCE_S := 300.0
  const SUSPECT_SERIES_CONFIDENCE := 0.0

  /** The part of the source reference before its first colon. */
  function ContractOf(ref: string): string {
    if ref == "" || ref[0] == ':' then "" else [ref[0]] + ContractOf(ref[1..])
  }

  /** The statistics are parameters: which values of a series are outliers, and whether a clean
      series looks like an instrument fault. */
  datatype Statistics = Statistics(outliers: seq<real> -> seq<bool>, fault: (string, seq<real>) -> bool)

  /** It holds no colon, and what follows it begins with one or is nothing. */
  lemma {:induction false} ContractOfMeans(ref: string)
    ensures var c := ContractOf(ref);
            && |c| <= |ref| && ref[..|c|] == c && (forall k :: 0 <= k < |c| ==> c[k] != ':')
            && (|c| < |ref| ==> ref[|c|] == ':')
  {
    if ref != "" && ref[0] != ':' { ContractOfMeans(ref[1..]); }
  }

  ghost predicate FlagsEveryValue(stats: Statistics) {
    forall v :: |stats.outliers(v)| == |v|
  }

  // ---- Accounting -----------------------------------------------------------------------------------------

  /** One addition to the counters: counted readings of a contract, bad ones among them. */
  datatype Entry = Entry(contract: string, counted: nat, bad: nat)

  ghost predicate Sound(entries: seq<Entry>) { forall e :: e in entries ==> e.bad <= e.counted }

  function Counted(entries: seq<Entry>, c: string): nat {
    if entries == [] then 0
    else
      var last := entries[|entries| - 1];
      Counted(entries[..|entries| - 1], c) + (if last.contract == c then last.counted else 0)
  }

  function Bad(entries: seq<Entry>, c: string): nat {
    if entries == [] then 0
    else
      var last := entries[|entries| - 1];
      Bad(entries[..|entries| - 1], c) + (if last.contract == c then last.bad else 0)
  }

  function AllCounted(entries: seq<Entry>): nat {
    if entries == [] then 0 else AllCounted(entries[..|entries| - 1]) + entries[|entries| - 1].counted
  }

  lemma {:induction false} BadWithinCounted(entries: seq<Entry>, c: string)
    requires Sound(entries)
    ensures Bad(entries, c) <= Counted(entries, c) <= AllCounted(entries)
  {
    if entries != [] {
      assert entries[|entries| - 1] in entries;
      BadWithinCounted(entries[..|entries| - 1], c);
    }
  }

  function At(m: map<string, nat>, c: string): nat { if c in m then m[c] else 0 }

  /** The two counter dictionaries hold the sums of the entries. */
  ghost predicate Tallies(totals: map<string, nat>, bad: map<string, nat>, entries: seq<Entry>) {
    && Sound(entries)
    && forall c :: At(totals, c) == Counted(entries, c) && At(bad, c) == Bad(entries, c)
  }

  lemma TallyNext(totals: map<string, nat>, bad: map<string, nat>, entries: seq<Entry>, e: Entry)
    requires Tallies(totals, bad, entries) && e.bad <= e.counted
    ensures Tallies(totals[e.contract := At(totals, e.contract) + e.counted],
                    bad[e.contract := At(bad, e.contract) + e.bad], entries + [e])
  {
    var next := entries + [e];
    assert next[..|entries|] == entries && next[|entries|] == e;
    assert forall x :: x in next <==> x in entries || x == e;
    var t, b := totals[e.contract := At(totals, e.contract) + e.counted], bad[e.contract := At(bad, e.contract) + e.bad];
    forall c ensures At(t, c) == Counted(next, c) && At(b, c) == Bad(next, c) {
      assert At(totals, c) == Counted(entries, c);
    }
  }

  // ---- Rows of one series ------------------------------------------------------------------------------------

  /** The rows of s for which keep gives want, in order. */
  function Where(s: Series, keep: Observation -> bool, want: bool): Series {
    if s == [] then []
    else
      var last := s[|s| - 1];
      Where(s[..|s| - 1], keep, want) + (if keep(last) == want then [last] else [])
  }

  lemma {:induction false} WhereFilters(s: Series, keep: Observation -> bool, want: bool)
    ensures Where(s, keep, want) == Filter((o: Observation) => keep(o) == want, s)
  {
    if s != [] {
      var front, last := s[..|s| - 1], s[|s| - 1];
      WhereFilters(front, keep, want);
      FilterLast((o: Observation) => keep(o) == want, front, last);
      assert s == front + [last];
    }
  }

  lemma {:induction false} WhereMembers(s: Series, keep: Observation -> bool, want: bool, o: Observation)
    ensures o in Where(s, keep, want) <==> o in s && keep(o) == want
  {
    if s != [] {
      var front, last := s[..|s| - 1], s[|s| - 1];
      WhereMembers(front, keep, want, o);
      assert s == front + [last];
    }
  }

  lemma {:induction false} WhereByTime(s: Series, keep: Observation -> bool, want: bool)
    requires ByTime(s)
    ensures ByTime(Where(s, keep, want))
  {
    if s != [] {
      var front, last := s[..|s| - 1], s[|s| - 1];
      WhereByTime(front, keep, want);
      forall o | o in Where(front, keep, want) ensures Ts(o) <= Ts(last) { WhereMembers(front, keep, want, o); }
      LaterLast(Where(front, keep, want), last);
    }
  }

  lemma LaterLast(r: Series, last: Observation)
    requires ByTime(r) && forall o :: o in r ==> Ts(o) <= Ts(last)
    ensures ByTime(r + [last]) && ByTime(r + [])
  {
    assert r + [] == r;
  }

  predicate IsNumeric(o: Observation) { o.value.Some? }

  /** Readings that claim a time beyond the clock-skew tolerance. */
  function Future(asOf: Option<real>): Observation -> bool {
    (o: Observation) => asOf.Some? && o.at.Some? && Ts(o) > asOf.value + CLOCK_SKEW_TOLERANCE_S
  }

  /** A reading is from the future when it is more than five minutes ahead of the reference time. */
  lemma FutureMeans(asOf: Option<real>, o: Observation)
    ensures Future(asOf)(o) <==> asOf.Some? && o.at.Some? && o.at.value > asOf.value + 300.0
  {
  }

  predicate IsFlagged(o: Observation) { o.flagFactor <= 0.0 }

  function Lesser(a: real, b: real): real { if b < a then b else a }

  function WithConfidence(o: Observation, c: real): Observation {
    o.(confidence := Some(if o.confidence.None? then c else Lesser(o.confidence.value, c)))
  }

  function NumericCount(s: Series): nat {
    if s == [] then 0 else NumericCount(s[..|s| - 1]) + (if IsNumeric(s[|s| - 1]) then 1 else 0)
  }

  lemma {:induction false} NumericIsCount(s: Series)
    ensures |Where(s, IsNumeric, true)| == NumericCount(s)
  {
    if s != [] { NumericIsCount(s[..|s| - 1]); }
  }

  lemma {:induction false} NumericSplits(s: Series, keep: Observation -> bool)
    ensures NumericCount(Where(s, keep, true)) + NumericCount(Where(s, keep, false)) == NumericCount(s)
  {
    if s != [] {
      var front, last := s[..|s| - 1], s[|s| - 1];
      NumericSplits(front, keep);
      NumericAppend(Where(front, keep, true), last);
      NumericAppend(Where(front, keep, false), last);
    }
  }

  lemma NumericAppend(s: Series, o: Observation)
    ensures NumericCount(s + [o]) == NumericCount(s) + (if IsNumeric(o) then 1 else 0)
    ensures NumericCount(s + []) == NumericCount(s)
  {
    assert (s + [o])[..|s|] == s && s + [] == s;
  }

  method Pick(s: Series, keep: Observation -> bool, want: bool) returns (r: Series)
    ensures r == Where(s, keep, want)
  {
    r := [];
    for k := 0 to |s|
      invariant r == Where(s[..k], keep, want)
    {
      assert s[..k + 1][..k] == s[..k] && s[..k + 1][k] == s[k];
      if keep(s[k]) == want { r := r + [s[k]]; }
    }
    assert s[..|s|] == s;
  }

  /** The counters, with the entries that made them. */
  class Counters {
    var totals: map<string, nat>
    var bad: map<string, nat>
    ghost var entries: seq<Entry>

    ghost predicate Valid()
      reads this
    {
      Tallies(totals, bad, entries)
    }

    constructor ()
      ensures Valid() && entries == []
    {
      totals, bad, entries := map[], map[], [];
    }

    method Add(e: Entry)
      requires Valid() && e.bad <= e.counted
      modifies this
      ensures Valid() && entries == old(entries) + [e]
    {
      TallyNext(totals, bad, entries, e);
      totals := totals[e.contract := At(totals, e.contract) + e.counted];
      bad := bad[e.contract := At(bad, e.contract) + e.bad];
      entries := entries + [e];
    }

    /** Readings excluded one by one: each numeric one counts, and counts as bad. */
    method AddExcluded(rows: Series)
      requires Valid()
      modifies this
      ensures Valid() && entries == old(entries) + Excluded(rows)
    {
      for k := 0 to |rows|
        invariant Valid() && entries == old(entries) + Excluded(rows[..k])
      {
        assert rows[..k + 1][..k] == rows[..k] && rows[..k + 1][k] == rows[k];
        if IsNumeric(rows[k]) { Add(Entry(ContractOf(rows[k].sourceRef), 1, 1)); }
      }
      assert rows[..|rows|] == rows;
    }
  }

  /** One wholly bad entry for each numeric reading, under its own contract. */
  ghost function Excluded(rows: Series): seq<Entry> {
    if rows == [] then []
    else
      var last := rows[|rows| - 1];
      Excluded(rows[..|rows| - 1]) + (if IsNumeric(last) then [Entry(ContractOf(last.sourceRef), 1, 1)] else [])
  }

  /** The numeric readings, one entry each. */
  lemma {:induction false} ExcludedAre(rows: Series)
    ensures var numeric := Filter((o: Observation) => o.value.Some?, rows);
            && |Excluded(rows)| == |numeric|
            && forall i :: 0 <= i < |numeric| ==> Excluded(rows)[i] == Entry(ContractOf(numeric[i].sourceRef), 1, 1)
  {
    if rows != [] {
      var front, last := rows[..|rows| - 1], rows[|rows| - 1];
      ExcludedAre(front);
      FilterLast((o: Observation) => o.value.Some?, front, last);
      assert rows == front + [last];
    }
  }

  lemma {:induction false} ExcludedCount(rows: Series)
    ensures AllCounted(Excluded(rows)) == NumericCount(rows)
  {
    if rows != [] {
      ExcludedCount(rows[..|rows| - 1]);
      var e := Entry(ContractOf(rows[|rows| - 1].sourceRef), 1, 1);
      CountedJoin(Excluded(rows[..|rows| - 1]), [e]);
      CountedOne(e);
      assert Excluded(rows[..|rows| - 1]) + [] == Excluded(rows[..|rows| - 1]);
    }
  }

  lemma CountedOne(e: Entry)
    ensures AllCounted([e]) == e.counted
  {
    assert AllCounted([e][..0]) == 0;
  }

  lemma {:induction false} CountedJoin(a: seq<Entry>, b: seq<Entry>)
    ensures AllCounted(a + b) == AllCounted(a) + AllCounted(b)
  {
    if b == [] {
      assert a + b == a;
    } else {
      CountedJoin(a, b[..|b| - 1]);
      assert (a + b)[..|a + b| - 1] == a + b[..|b| - 1];
    }
  }

  function ValuesOf(rows: Series): seq<real>
    requires forall o :: o in rows ==> IsNumeric(o)
  {
    seq(|rows|, k requires 0 <= k < |rows| => assert IsNumeric(rows[k]); rows[k].value.value)
  }

  function Unflagged(rows: Series, flags: seq<bool>): Series
    requires |flags| == |rows|
  {
    if rows == [] then []
    else
      var n := |rows| - 1;
      Unflagged(rows[..n], flags[..n]) + (if flags[n] then [] else [rows[n]])
  }

  lemma {:induction false} UnflaggedMembers(rows: Series, flags: seq<bool>)
    requires |flags| == |rows|
    ensures |Unflagged(rows, flags)| <= |rows|
    ensures forall o :: o in Unflagged(rows, flags) ==> o in rows
  {
    if rows != [] { UnflaggedMembers(rows[..|rows| - 1], flags[..|rows| - 1]); }
  }

  /** Exactly the readings without a flag are left, as many as are not flagged. */
  lemma {:induction false} UnflaggedAre(rows: Series, flags: seq<bool>)
    requires |flags| == |rows|
    ensures |Unflagged(rows, flags)| + HowMany(flags) == |rows|
    ensures forall o :: o in Unflagged(rows, flags) <==> exists k :: 0 <= k < |rows| && rows[k] == o && !flags[k]
  {
    if rows != [] {
      var n := |rows| - 1;
      UnflaggedAre(rows[..n], flags[..n]);
      forall o ensures o in Unflagged(rows, flags) <==> exists k :: 0 <= k < |rows| && rows[k] == o && !flags[k] {
        LastUnflagged(rows, flags, o);
      }
    }
  }

  lemma LastUnflagged(rows: Series, flags: seq<bool>, o: Observation)
    requires |flags| == |rows| && rows != []
    ensures var n := |rows| - 1;
            (exists k :: 0 <= k < |rows| && rows[k] == o && !flags[k])
            <==> (exists k :: 0 <= k < n && rows[..n][k] == o && !flags[..n][k]) || (rows[n] == o && !flags[n])
  {
    var n := |rows| - 1;
    if k :| 0 <= k < n && rows[..n][k] == o && !flags[..n][k] { assert rows[k] == o && !flags[k]; }
    if k :| 0 <= k < |rows| && rows[k] == o && !flags[k] { assert k < n ==> rows[..n][k] == o && !flags[..n][k]; }
  }

  /** The readings left keep their order. */
  lemma {:induction false} UnflaggedSplits(rows: Series, flags: seq<bool>, k: nat)
    requires k <= |rows| == |flags|
    ensures Unflagged(rows, flags) == Unflagged(rows[..k], flags[..k]) + Unflagged(rows[k..], flags[k..])
  {
    var n := |rows| - 1;
    if k == |rows| { assert rows[..k] == rows && flags[..k] == flags; }
    else {
      UnflaggedSplits(rows[..n], flags[..n], k);
      assert rows[..n][..k] == rows[..k] && flags[..n][..k] == flags[..k];
      assert rows[..n][k..] == rows[k..][..n - k] && flags[..n][k..] == flags[k..][..n - k];
    }
  }

  method DropOutliers(rows: Series, flags: seq<bool>) returns (kept: Series)
    requires |flags| == |rows|
    ensures kept == Unflagged(rows, flags)
  {
    kept := [];
    for k := 0 to |rows|
      invariant kept == Unflagged(rows[..k], flags[..k])
    {
      assert rows[..k + 1][..k] == rows[..k] && flags[..k + 1][..k] == flags[..k];
      if !flags[k] { kept := kept + [rows[k]]; }
    }
    assert rows[..|rows|] == rows && flags[..|flags|] == flags;
  }

  // ---- The numeric part of one series ---------------------------------------------------------------------------

  /** What a series leaves: the kept readings, with the series confidence capped by each flag. */
  ghost predicate NumericOutcome(stats: Statistics, metric: string, numeric: Series, outcome: Series, e: Entry) {
    && numeric != [] && (forall o :: o in numeric ==> IsNumeric(o))
    && |stats.outliers(ValuesOf(numeric))| == |numeric|
    && var kept := Unflagged(numeric, stats.outliers(ValuesOf(numeric)));
    && (forall o :: o in kept ==> IsNumeric(o)) && |kept| <= |numeric|
    && var suspect := kept != [] && stats.fault(metric, ValuesOf(kept));
    && var outlying := |numeric| - |kept|;
    && var confidence := if suspect then SUSPECT_SERIES_CONFIDENCE else 1.0 - outlying as real / |numeric| as real;
    && e == Entry(ContractOf(numeric[0].sourceRef), |numeric|, if suspect then |numeric| else outlying)
    && |outcome| == |kept|
    && forall k :: 0 <= k < |kept| ==> outcome[k] == WithConfidence(kept[k], Lesser(confidence, kept[k].flagFactor))
  }

  method AssessNumeric(stats: Statistics, metric: string, numeric: Series, counters: Counters)
    returns (outcome: Series, ghost e: Entry)
    requires counters.Valid() && FlagsEveryValue(stats) && numeric != [] && forall o :: o in numeric ==> IsNumeric(o)
    modifies counters
    ensures counters.Valid() && counters.entries == old(counters.entries) + [e]
    ensures NumericOutcome(stats, metric, numeric, outcome, e)
  {
    hide Tallies;
    var flags := stats.outliers(ValuesOf(numeric));
    var kept := DropOutliers(numeric, flags);
    UnflaggedMembers(numeric, flags);
    var outlying := |numeric| - |kept|;
    var suspect := |kept| != 0 && stats.fault(metric, ValuesOf(kept));
    var contract := ContractOf(numeric[0].sourceRef);
    var entry := Entry(contract, |numeric|, if suspect then |numeric| else outlying);
    counters.Add(entry);
    e := entry;
    var confidence := if suspect then SUSPECT_SERIES_CONFIDENCE else 1.0 - outlying as real / |numeric| as real;
    outcome := [];
    for k := 0 to |kept|
      invariant |outcome| == k
      invariant forall i :: 0 <= i < k ==> outcome[i] == WithConfidence(kept[i], Lesser(confidence, kept[i].flagFactor))
    {
      outcome := outcome + [WithConfidence(kept[k], Lesser(confidence, kept[k].flagFactor))];
    }
  }

  /** A suspected series is wholly bad and leaves its readings with no confidence; any other
      one is as trusted as its share of readings that are not outliers. */
  lemma ConfidenceIsGoodShare(stats: Statistics, metric: string, numeric: Series, outcome: Series, e: Entry, k: nat)
    requires NumericOutcome(stats, metric, numeric, outcome, e) && k < |outcome|
    ensures e.bad <= e.counted == |numeric|
    ensures outcome[k].confidence.Some?
    ensures outcome[k].confidence.value <= 1.0 - e.bad as real / e.counted as real <= 1.0
  {
    var kept := Unflagged(numeric, stats.outliers(ValuesOf(numeric)));
    var share := e.bad as real / e.counted as real;
    ShareInUnit(e.bad, e.counted);
    assert e.bad == e.counted ==> share == 1.0;
  }

  /** c is the least of the limits, of which the reading's own confidence is one if it has any. */
  ghost predicate LeastOf(c: real, limit: real, factor: real, own: Option<real>) {
    && c <= limit && c <= factor && (own.Some? ==> c <= own.value)
    && (c == limit || c == factor || own == Some(c))
  }

  /** A reading's confidence is the least of the share of good readings in its series, its flag's
      factor and its own; a suspected series has no good readings. */
  lemma ConfidenceIs(stats: Statistics, metric: string, numeric: Series, outcome: Series, e: Entry, k: nat)
    requires NumericOutcome(stats, metric, numeric, outcome, e) && k < |outcome|
    ensures var flags := stats.outliers(ValuesOf(numeric)); var kept := Unflagged(numeric, flags);
            && k < |kept| && outcome[k] == kept[k].(confidence := outcome[k].confidence)
            && outcome[k].confidence.Some?
            && LeastOf(outcome[k].confidence.value, 1.0 - e.bad as real / e.counted as real, kept[k].flagFactor,
                       kept[k].confidence)
            && e == Entry(ContractOf(numeric[0].sourceRef), |numeric|,
                          if stats.fault(metric, ValuesOf(kept)) then |numeric| else HowMany(flags))
  {
    hide Unflagged, HowMany, ContractOf, ValuesOf;
    UnflaggedAre(numeric, stats.outliers(ValuesOf(numeric)));
    ShareInUnit(e.bad, e.counted);
  }

  /** A categorical reading is as trusted as its flag and its own confidence allow, a reading with a
      worthless flag is gone, and every other numeric one goes through the statistics. */
  lemma SeriesMeans(stats: Statistics, metric: string, retained: Series, out: Series, entries: seq<Entry>)
    requires SeriesOutcome(stats, metric, retained, out, entries)
    ensures var categorical := Filter((o: Observation) => o.value.None?, Filter((o: Observation) => o.flagFactor > 0.0, retained));
            var numeric := Filter((o: Observation) => o.value.Some?, Filter((o: Observation) => o.flagFactor > 0.0, retained));
            var excluded := Excluded(Filter((o: Observation) => o.flagFactor <= 0.0, retained));
            && |categorical| <= |out|
            && (forall k :: 0 <= k < |categorical| ==>
                  && out[k] == categorical[k].(confidence := out[k].confidence) && out[k].confidence.Some?
                  && LeastOf(out[k].confidence.value, categorical[k].flagFactor, categorical[k].flagFactor, categorical[k].confidence))
            && (if numeric == [] then |out| == |categorical| && entries == excluded
                else exists e: Entry ::
                  NumericOutcome(stats, metric, numeric, out[|categorical|..], e) && entries == excluded + [e])
  {
    hide NumericOutcome, Excluded;
    var unflagged := Where(retained, IsFlagged, false);
    WhereIs(retained, IsFlagged, false, (o: Observation) => o.flagFactor > 0.0);
    WhereIs(retained, IsFlagged, true, (o: Observation) => o.flagFactor <= 0.0);
    WhereIs(unflagged, IsNumeric, false, (o: Observation) => o.value.None?);
    WhereIs(unflagged, IsNumeric, true, (o: Observation) => o.value.Some?);
  }

  lemma {:induction false} WhereIs(s: Series, keep: Observation -> bool, want: bool, other: Observation -> bool)
    requires forall o :: (keep(o) == want) == other(o)
    ensures Where(s, keep, want) == Filter(other, s)
  {
    if s != [] {
      var front, last := s[..|s| - 1], s[|s| - 1];
      WhereIs(front, keep, want, other);
      FilterLast(other, front, last);
      assert s == front + [last];
    }
  }

  lemma ShareInUnit(bad: nat, counted: nat)
    requires bad <= counted && counted > 0
    ensures 0.0 <= bad as real / counted as real <= 1.0
    ensures bad as real / counted as real == 1.0 <==> bad == counted
  {
    var share := bad as real / counted as real;
    assert share * counted as real == bad as real;
    SignOfFactor(share, counted as real);
    assert (1.0 - share) * counted as real == (counted - bad) as real;
    SignOfFactor(1.0 - share, counted as real);
  }

  // ---- One series -----------------------------------------------------------------------------------------------

  /** What the retained readings leave and what is counted: the flagged ones are gone, the
      categorical ones pass with their flag's confidence, and the numeric ones are assessed
      together under the contract of the first. */
  ghost predicate SeriesOutcome(stats: Statistics, metric: string, retained: Series, out: Series, entries: seq<Entry>) {
    var unflagged := Where(retained, IsFlagged, false);
    var categorical, numeric := Where(unflagged, IsNumeric, false), Where(unflagged, IsNumeric, true);
    var excluded := Excluded(Where(retained, IsFlagged, true));
    && |categorical| <= |out|
    && (forall k :: 0 <= k < |categorical| ==> out[k] == WithConfidence(categorical[k], categorical[k].flagFactor))
    && (if numeric == [] then |out| == |categorical| && entries == excluded
        else exists e: Entry ::
          NumericOutcome(stats, metric, numeric, out[|categorical|..], e) && entries == excluded + [e])
  }

  /** What is left of the trusted readings of a series by retention and downsampling. */
  ghost predicate RetainedOf(trusted: Series, asOf: Option<real>, limit: nat, retained: Series) {
    var s := Recent(trusted, asOf);
    if |s| <= limit then retained == s
    else if Span(s) <= 0.0 then retained == s[|s| - limit..]
    else Compact(s, limit, retained)
  }

  /** added holds the entries of the retained readings; those of the future ones come before. */
  method AssessSeries(stats: Statistics, metric: string, series: Series, asOf: Option<real>, limit: nat,
                      counters: Counters)
    returns (out: Series, ghost retained: Series, ghost added: seq<Entry>)
    requires counters.Valid() && FlagsEveryValue(stats) && limit > 0 && ByTime(series)
    modifies counters
    ensures counters.Valid()
    ensures counters.entries == old(counters.entries) + Excluded(Where(series, Future(asOf), true)) + added
    ensures RetainedOf(Where(series, Future(asOf), false), asOf, limit, retained)
    ensures SeriesOutcome(stats, metric, retained, out, added)
  {
    hide Tallies, Compact, SeriesOutcome, Where, Excluded, FlagsEveryValue;
    var trusted := Pick(series, Future(asOf), false);
    var future := Pick(series, Future(asOf), true);
    counters.AddExcluded(future);
    WhereByTime(series, Future(asOf), false);
    var kept := Retained(trusted, asOf, limit);
    retained := kept;
    out, added := AssessRetained(stats, metric, kept, counters);
  }

  method AssessRetained(stats: Statistics, metric: string, retained: Series, counters: Counters)
    returns (out: Series, ghost added: seq<Entry>)
    requires counters.Valid() && FlagsEveryValue(stats)
    modifies counters
    ensures counters.Valid() && counters.entries == old(counters.entries) + added
    ensures SeriesOutcome(stats, metric, retained, out, added)
  {
    hide Tallies, NumericOutcome, Where, Excluded, FlagsEveryValue;
    var flagged := Pick(retained, IsFlagged, true);
    counters.AddExcluded(flagged);
    added := Excluded(flagged);
    var unflagged := Pick(retained, IsFlagged, false);
    var numeric := Pick(unflagged, IsNumeric, true);
    var categorical := Pick(unflagged, IsNumeric, false);
    out := PassThrough(categorical);
    if |numeric| != 0 {
      forall o | o in numeric ensures IsNumeric(o) { WhereMembers(unflagged, IsNumeric, true, o); }
      var assessed;
      ghost var e;
      assessed, e := AssessNumeric(stats, metric, numeric, counters);
      ghost var front := out;
      out := out + assessed;
      added := added + [e];
      assert out[|front|..] == assessed;
      assert NumericOutcome(stats, metric, numeric, out[|categorical|..], e);
    }
  }

  /** Every numeric reading that was retained is counted, and counted once. */
  lemma RetainedAreCounted(stats: Statistics, metric: string, retained: Series, out: Series, entries: seq<Entry>)
    requires SeriesOutcome(stats, metric, retained, out, entries)
    ensures AllCounted(entries) == NumericCount(retained)
  {
    hide Where, Excluded, NumericOutcome, AllCounted, NumericCount;
    var unflagged := Where(retained, IsFlagged, false);
    var flagged, numeric := Where(retained, IsFlagged, true), Where(unflagged, IsNumeric, true);
    NumericSplits(retained, IsFlagged);
    NumericIsCount(unflagged);
    ExcludedCount(flagged);
    if numeric != [] {
      var e: Entry :| NumericOutcome(stats, metric, numeric, out[|Where(unflagged, IsNumeric, false)|..], e)
                      && entries == Excluded(flagged) + [e];
      CountsAll(stats, metric, numeric, out[|Where(unflagged, IsNumeric, false)|..], e);
      CountedJoin(Excluded(flagged), [e]);
      CountedOne(e);
    }
  }

  lemma CountsAll(stats: Statistics, metric: string, numeric: Series, outcome: Series, e: Entry)
    requires NumericOutcome(stats, metric, numeric, outcome, e)
    ensures e.counted == |numeric|
  {
  }

  method PassThrough(rows: Series) returns (out: Series)
    ensures |out| == |rows| && forall k :: 0 <= k < |rows| ==> out[k] == WithConfidence(rows[k], rows[k].flagFactor)
  {
    out := [];
    for k := 0 to |rows|
      invariant |out| == k && forall i :: 0 <= i < k ==> out[i] == WithConfidence(rows[i], rows[i].flagFactor)
    {
      out := out + [WithConfidence(rows[k], rows[k].flagFactor)];
    }
  }

  // ---- The whole assessment ---------------------------------------------------------------------------------------

  predicate TsLe(a: Observation, b: Observation) { Ts(a) <= Ts(b) }

  predicate KeyPairLe(a: Key, b: Key) { if a.0 == b.0 then StringLe(a.1, b.1) else StringLe(a.0, b.0) }

  /** The readings of one (entity, metric) pair, in input order. */
  function Group(observations: Series, key: Key): Series {
    if observations == [] then []
    else
      var last := observations[|observations| - 1];
      Group(observations[..|observations| - 1], key) + (if (last.entity, last.metric) == key then [last] else [])
  }

  lemma {:induction false} GroupFilters(observations: Series, key: Key)
    ensures Group(observations, key) == Filter((o: Observation) => o.entity == key.0 && o.metric == key.1, observations)
  {
    if observations != [] {
      var front, last := observations[..|observations| - 1], observations[|observations| - 1];
      GroupFilters(front, key);
      FilterLast((o: Observation) => o.entity == key.0 && o.metric == key.1, front, last);
      assert observations == front + [last];
    }
  }

  function RowAt(history: map<Key, Series>, key: Key): Series { if key in history then history[key] else [] }

  ghost predicate Grouped(observations: Series, keys: seq<Key>, history: map<Key, Series>) {
    && Distinct(keys) && (forall key :: key in keys <==> key in history)
    && (forall key :: RowAt(history, key) == Group(observations, key))
  }

  lemma GroupNext(observations: Series, k: nat, keys: seq<Key>, history: map<Key, Series>)
    requires k < |observations| && Grouped(observations[..k], keys, history)
    ensures var o := observations[k];
            Grouped(observations[..k + 1], if (o.entity, o.metric) in history then keys else keys + [(o.entity, o.metric)],
                    AppendTo(history, (o.entity, o.metric), o))
  {
    hide Group;
    var o, next := observations[k], AppendTo(history, (observations[k].entity, observations[k].metric), observations[k]);
    forall key ensures RowAt(next, key) == Group(observations[..k + 1], key) { GroupStep(observations, k, history, key); }
  }

  lemma GroupStep(observations: Series, k: nat, history: map<Key, Series>, key: Key)
    requires k < |observations| && RowAt(history, key) == Group(observations[..k], key)
    ensures var o := observations[k];
            RowAt(AppendTo(history, (o.entity, o.metric), o), key) == Group(observations[..k + 1], key)
  {
    assert observations[..k + 1][..k] == observations[..k] && observations[..k + 1][k] == observations[k];
  }

  method GroupByKey(observations: Series) returns (keys: seq<Key>, history: map<Key, Series>)
    ensures Grouped(observations, keys, history)
  {
    hide Grouped;
    keys, history := [], map[];
    NothingGrouped(observations[..0]);
    for k := 0 to |observations|
      invariant Grouped(observations[..k], keys, history)
    {
      var o := observations[k];
      var key := (o.entity, o.metric);
      GroupNext(observations, k, keys, history);
      if key !in history { keys := keys + [key]; }
      history := AppendTo(history, key, o);
    }
    assert observations[..|observations|] == observations;
  }

  lemma NothingGrouped(none: Series)
    requires none == []
    ensures Grouped(none, [], map[])
  {
  }

  lemma SortedByTime(s: Series)
    ensures ByTime(SortBy(TsLe, s))
  {
    SortBySorted(TsLe, s);
    var r := SortBy(TsLe, s);
    forall i, j | 0 <= i < j < |r| ensures Ts(r[i]) <= Ts(r[j]) { assert TsLe(r[i], r[j]); }
  }

  /** Each contract with counted readings gets the share of bad ones among them. */
  ghost predicate RatesOf(rates: map<string, real>, entries: seq<Entry>) {
    && (forall c :: c in rates <==> Counted(entries, c) > 0)
    && (forall c :: c in rates && Counted(entries, c) > 0 ==>
          rates[c] == Bad(entries, c) as real / Counted(entries, c) as real)
  }

  /** One series of the assessment: its key, what retention left of it, its output, and the
      entries its retained readings made. */
  datatype Part = Part(key: Key, retained: Series, out: Series, entries: seq<Entry>)

  function SeriesOf(observations: Series, key: Key): Series { SortBy(TsLe, Group(observations, key)) }

  ghost predicate PartOk(observations: Series, stats: Statistics, asOf: Option<real>, limit: nat, p: Part) {
    && RetainedOf(Where(SeriesOf(observations, p.key), Future(asOf), false), asOf, limit, p.retained)
    && SeriesOutcome(stats, p.key.1, p.retained, p.out, p.entries)
  }

  /** The outputs of the series, in key order. */
  ghost function Outputs(parts: seq<Part>): Series {
    if parts == [] then [] else Outputs(parts[..|parts| - 1]) + parts[|parts| - 1].out
  }

  /** The entries of the series, each one's future readings first. */
  ghost function Entries(observations: Series, asOf: Option<real>, parts: seq<Part>): seq<Entry> {
    if parts == [] then []
    else
      var last := parts[|parts| - 1];
      Entries(observations, asOf, parts[..|parts| - 1])
      + Excluded(Where(SeriesOf(observations, last.key), Future(asOf), true)) + last.entries
  }

  lemma OutputsNext(observations: Series, asOf: Option<real>, parts: seq<Part>, p: Part)
    ensures Outputs(parts + [p]) == Outputs(parts) + p.out
    ensures Entries(observations, asOf, parts + [p]) == Entries(observations, asOf, parts)
              + Excluded(Where(SeriesOf(observations, p.key), Future(asOf), true)) + p.entries
  {
    assert (parts + [p])[..|parts|] == parts;
  }

  /** The loop over the sorted keys. */
  method AssessKeys(observations: Series, keys: seq<Key>, history: map<Key, Series>, stats: Statistics,
                    asOf: Option<real>, limit: nat, counters: Counters)
    returns (out: Series, ghost parts: seq<Part>)
    requires FlagsEveryValue(stats) && limit > 0 && counters.Valid() && counters.entries == []
    requires forall key :: key in keys ==> key in history && history[key] == Group(observations, key)
    modifies counters
    ensures counters.Valid() && counters.entries == Entries(observations, asOf, parts)
    ensures |parts| == |keys| && forall i :: 0 <= i < |keys| ==> parts[i].key == keys[i]
    ensures forall i :: 0 <= i < |keys| ==> PartOk(observations, stats, asOf, limit, parts[i])
    ensures out == Outputs(parts)
  {
    hide Tallies, PartOk, FlagsEveryValue, Outputs, Entries, Excluded, SeriesOf;
    out, parts := [], [];
    NothingAssessed(observations, asOf);
    for k := 0 to |keys|
      invariant counters.Valid() && counters.entries == Entries(observations, asOf, parts)
      invariant |parts| == k && forall i :: 0 <= i < k ==> parts[i].key == keys[i]
      invariant forall i :: 0 <= i < k ==> PartOk(observations, stats, asOf, limit, parts[i])
      invariant out == Outputs(parts)
    {
      var series := SortBy(TsLe, history[keys[k]]);
      IsSeries(observations, keys[k], history[keys[k]]);
      var assessed;
      ghost var retained, added;
      assessed, retained, added := AssessSeries(stats, keys[k].1, series, asOf, limit, counters);
      ghost var p := Part(keys[k], retained, assessed, added);
      IsPart(observations, stats, asOf, limit, p, series);
      OutputsNext(observations, asOf, parts, p);
      out := out + assessed;
      parts := parts + [p];
    }
  }

  lemma NothingAssessed(observations: Series, asOf: Option<real>)
    ensures Entries(observations, asOf, []) == [] && Outputs([]) == []
  {
  }

  lemma IsSeries(observations: Series, key: Key, group: Series)
    requires group == Group(observations, key)
    ensures SortBy(TsLe, group) == SeriesOf(observations, key) && ByTime(SortBy(TsLe, group))
  {
    SortedByTime(group);
  }

  lemma IsPart(observations: Series, stats: Statistics, asOf: Option<real>, limit: nat, p: Part, series: Series)
    requires series == SeriesOf(observations, p.key)
    requires RetainedOf(Where(series, Future(asOf), false), asOf, limit, p.retained)
    requires SeriesOutcome(stats, p.key.1, p.retained, p.out, p.entries)
    ensures PartOk(observations, stats, asOf, limit, p)
  {
  }

  method AssessObservations(observations: Series, stats: Statistics, asOf: Option<real>, limit: nat)
    returns (out: Series, rates: map<string, real>, ghost parts: seq<Part>)
    requires FlagsEveryValue(stats) && limit > 0
    ensures Sound(Entries(observations, asOf, parts)) && RatesOf(rates, Entries(observations, asOf, parts))
    ensures forall c :: c in rates ==> 0.0 <= rates[c] <= 1.0
    ensures forall i :: 0 <= i < |parts| ==> PartOk(observations, stats, asOf, limit, parts[i])
    ensures forall i, j :: 0 <= i < j < |parts| ==>
              && parts[i].key != parts[j].key && StringLe(parts[i].key.0, parts[j].key.0)
              && (parts[i].key.0 == parts[j].key.0 ==> StringLe(parts[i].key.1, parts[j].key.1))
    ensures forall o :: o in observations ==> exists i :: 0 <= i < |parts| && parts[i].key == (o.entity, o.metric)
    ensures out == Outputs(parts)
  {
    hide Tallies, PartOk, FlagsEveryValue, Grouped, Outputs, Entries, Sound, RatesOf, StringLe, KeyPairLe, Group;
    var keys, history := GroupByKey(observations);
    GroupsAreKnown(observations, keys, history);
    var ordered := SortBy(KeyPairLe, keys);
    SameMembers(ordered, keys);
    var counters := new Counters();
    out, parts := AssessKeys(observations, ordered, history, stats, asOf, limit, counters);
    PartsInOrder(observations, keys, parts);
    rates := Rates(counters);
    TalliesAreSound(counters.totals, counters.bad, counters.entries);
    forall c | c in rates ensures 0.0 <= rates[c] <= 1.0 { RatesInUnit(rates, counters.entries, c); }
  }

  /** The keys are assessed in order, each once. */
  lemma PartsInOrder(observations: Series, keys: seq<Key>, parts: seq<Part>)
    requires Distinct(keys) && forall o :: o in observations ==> (o.entity, o.metric) in keys
    requires var ordered := SortBy(KeyPairLe, keys); |parts| == |ordered| && forall i :: 0 <= i < |ordered| ==> parts[i].key == ordered[i]
    ensures forall i, j :: 0 <= i < j < |parts| ==>
              && parts[i].key != parts[j].key && StringLe(parts[i].key.0, parts[j].key.0)
              && (parts[i].key.0 == parts[j].key.0 ==> StringLe(parts[i].key.1, parts[j].key.1))
    ensures forall o :: o in observations ==> exists i :: 0 <= i < |parts| && parts[i].key == (o.entity, o.metric)
  {
    hide StringLe, KeyPairLe;
    var ordered := SortBy(KeyPairLe, keys);
    SameMembers(ordered, keys);
    PermutationDistinct(keys, ordered);
    KeysInOrder(keys);
    forall o | o in observations ensures exists i :: 0 <= i < |parts| && parts[i].key == (o.entity, o.metric) {
      var i :| 0 <= i < |ordered| && ordered[i] == (o.entity, o.metric);
      assert parts[i].key == ordered[i];
    }
  }

  /** Series are assessed by entity, then by metric. */
  lemma KeysInOrder(keys: seq<Key>)
    ensures var ordered := SortBy(KeyPairLe, keys);
            forall i, j :: 0 <= i < j < |ordered| ==>
              && StringLe(ordered[i].0, ordered[j].0)
              && (ordered[i].0 == ordered[j].0 ==> StringLe(ordered[i].1, ordered[j].1))
  {
    forall x, y ensures KeyPairLe(x, y) || KeyPairLe(y, x) {
      StringLeTotal(x.0, y.0);
      StringLeTotal(x.1, y.1);
    }
    forall x, y, z | KeyPairLe(x, y) && KeyPairLe(y, z) ensures KeyPairLe(x, z) {
      StringLeTotal(x.0, y.0);
      StringLeTotal(y.0, z.0);
      if StringLe(x.0, y.0) && StringLe(y.0, z.0) { StringLeTransitive(x.0, y.0, z.0); }
      if StringLe(x.1, y.1) && StringLe(y.1, z.1) { StringLeTransitive(x.1, y.1, z.1); }
    }
    SortBySorted(KeyPairLe, keys);
    var ordered := SortBy(KeyPairLe, keys);
    forall i, j | 0 <= i < j < |ordered|
      ensures StringLe(ordered[i].0, ordered[j].0)
      ensures ordered[i].0 == ordered[j].0 ==> StringLe(ordered[i].1, ordered[j].1)
    {
      assert KeyPairLe(ordered[i], ordered[j]);
      StringLeTotal(ordered[i].0, ordered[j].0);
    }
  }

  lemma GroupsAreKnown(observations: Series, keys: seq<Key>, history: map<Key, Series>)
    requires Grouped(observations, keys, history)
    ensures Distinct(keys)
    ensures forall key :: key in keys ==> key in history && history[key] == Group(observations, key)
    ensures forall o :: o in observations ==> (o.entity, o.metric) in keys
  {
    forall o | o in observations ensures (o.entity, o.metric) in keys {
      GroupHolds(observations, o);
      assert RowAt(history, (o.entity, o.metric)) == Group(observations, (o.entity, o.metric));
    }
    forall key | key in keys ensures key in history && history[key] == Group(observations, key) {
      assert RowAt(history, key) == Group(observations, key);
    }
  }

  lemma {:induction false} GroupHolds(observations: Series, o: Observation)
    requires o in observations
    ensures o in Group(observations, (o.entity, o.metric))
  {
    var front, last := observations[..|observations| - 1], observations[|observations| - 1];
    assert observations == front + [last];
    if o != last { GroupHolds(front, o); }
  }

  lemma TalliesAreSound(totals: map<string, nat>, bad: map<string, nat>, entries: seq<Entry>)
    requires Tallies(totals, bad, entries)
    ensures Sound(entries) && forall c :: At(totals, c) == Counted(entries, c) && At(bad, c) == Bad(entries, c)
  {
  }

  method Rates(counters: Counters) returns (rates: map<string, real>)
    requires counters.Valid()
    ensures RatesOf(rates, counters.entries)
  {
    hide Tallies, Counted, Bad;
    TalliesAreSound(counters.totals, counters.bad, counters.entries);
    rates := map c | c in counters.totals && counters.totals[c] > 0 ::
      At(counters.bad, c) as real / counters.totals[c] as real;
    forall c ensures c in rates <==> Counted(counters.entries, c) > 0 {
      assert At(counters.totals, c) == Counted(counters.entries, c);
    }
    forall c | c in rates && Counted(counters.entries, c) > 0
      ensures rates[c] == Bad(counters.entries, c) as real / Counted(counters.entries, c) as real
    {
      assert At(counters.totals, c) == Counted(counters.entries, c) && At(counters.bad, c) == Bad(counters.entries, c);
    }
  }

  /** Every error rate is a share: between 0 and 1, and 1 exactly when all counted readings are bad. */
  lemma RatesInUnit(rates: map<string, real>, entries: seq<Entry>, c: string)
    requires Sound(entries) && RatesOf(rates, entries) && c in rates
    ensures 0.0 <= rates[c] <= 1.0
    ensures rates[c] == 1.0 <==> Bad(entries, c) == Counted(entries, c)
  {
    hide Bad, Counted;
    BadWithinCounted(entries, c);
    assert Counted(entries, c) > 0;
    ShareInUnit(Bad(entries, c), Counted(entries, c));
  }
}
