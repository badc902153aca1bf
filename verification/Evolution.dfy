/** Reviewed snapshot histories: checking adjacent steps, freezing new snapshots, and what that
    means for consumers several versions behind
    (src/fl_op/contracts/evolution.py, _pairwise_history_errors, _merge_history, check_evolution). */
module Evolution {
  import opened Wrappers
  import opened VersionPolicy
  import Schema = SchemaChange
  import Sem = SemanticChange

  datatype Semantic = Semantic(mappingVersion: string, blocks: Sem.Blocks)

  /** artifact holds the compared entries the policy does not look into: ids, other
      fingerprints, the registry artifact. metadataHash "" is an absent fingerprint. */
  datatype Snapshot = Snapshot(version: string, fields: Schema.Fields, semantic: Option<Semantic>,
                               metadataHash: string, artifact: map<string, string>)

  datatype Subject = SchemaSubject | SemanticSubject
  datatype EvolutionError = Policy(subject: Subject, rule: PolicyError) | MetadataDrift | StoredHashDrift | NoHistory

  // ---- One step -------------------------------------------------------------------------------------

  ghost predicate SchemaAllowed(a: Snapshot, b: Snapshot) {
    Allowed(Parse(a.version), Parse(b.version), Schema.ChangeOf(a.fields, b.fields))
  }

  ghost predicate MappingAllowed(a: Semantic, b: Semantic) {
    Allowed(Parse(a.mappingVersion), Parse(b.mappingVersion), Sem.ChangeOf(a.blocks, b.blocks))
  }

  ghost predicate SemanticAllowed(a: Snapshot, b: Snapshot) {
    a.semantic.Some? && b.semantic.Some? ==> MappingAllowed(a.semantic.value, b.semantic.value)
  }

  ghost predicate StepAllowed(a: Snapshot, b: Snapshot) { SchemaAllowed(a, b) && SemanticAllowed(a, b) }

  /** What passing means for two schemas and for two mappings. */
  lemma StepMeans(a: Snapshot, b: Snapshot, x: Semantic, y: Semantic)
    ensures var was, now := Parse(a.version), Parse(b.version);
            SchemaAllowed(a, b) <==>
            && NoNewer(was, now)
            && (was.major == now.major ==> Schema.NonBreaking(a.fields, b.fields))
            && (was.major == now.major && was.minor == now.minor ==> a.fields == b.fields)
    ensures var was, now := Parse(x.mappingVersion), Parse(y.mappingVersion);
            MappingAllowed(x, y) <==>
            && NoNewer(was, now)
            && (was.major == now.major ==> Sem.Keeps(x.blocks, y.blocks))
            && (was.major == now.major && was.minor == now.minor ==> Sem.Unchanged(x.blocks, y.blocks))
  {
    hide Parse, PolicyErrors, Sem.Keeps, Sem.Unchanged;
    AllowedMeans(Parse(a.version), Parse(b.version), Schema.ChangeOf(a.fields, b.fields));
    AllowedMeans(Parse(x.mappingVersion), Parse(y.mappingVersion), Sem.ChangeOf(x.blocks, y.blocks));
    Sem.UnchangedKeeps(x.blocks, y.blocks);
  }

  function Tag(subject: Subject, rules: seq<PolicyError>): (r: seq<EvolutionError>)
    ensures r == [] <==> rules == []
  {
    seq(|rules|, k requires 0 <= k < |rules| => Policy(subject, rules[k]))
  }

  /** The policy errors of one step, subject by subject. */
  ghost function SchemaErrorsOf(a: Snapshot, b: Snapshot): (r: seq<EvolutionError>)
    ensures r == [] <==> SchemaAllowed(a, b)
  {
    Tag(SchemaSubject, PolicyErrors(Parse(a.version), Parse(b.version), Schema.ChangeOf(a.fields, b.fields)))
  }

  ghost function MappingErrorsOf(a: Semantic, b: Semantic): (r: seq<EvolutionError>)
    ensures r == [] <==> MappingAllowed(a, b)
  {
    Tag(SemanticSubject, PolicyErrors(Parse(a.mappingVersion), Parse(b.mappingVersion), Sem.ChangeOf(a.blocks, b.blocks)))
  }

  ghost function SemanticErrorsOf(a: Snapshot, b: Snapshot): (r: seq<EvolutionError>)
    ensures r == [] <==> SemanticAllowed(a, b)
  {
    if a.semantic.Some? && b.semantic.Some? then MappingErrorsOf(a.semantic.value, b.semantic.value) else []
  }

  /** The errors of every adjacent step, oldest first. */
  ghost function HistoryErrors(history: seq<Snapshot>): seq<EvolutionError> {
    if |history| < 2 then []
    else
      var n := |history| - 1;
      HistoryErrors(history[..n]) + SchemaErrorsOf(history[n - 1], history[n])
      + SemanticErrorsOf(history[n - 1], history[n])
  }

  /** The errors of a history are those of its older part and then those of the rest. */
  lemma {:induction false} OldestFirst(history: seq<Snapshot>, k: nat)
    requires k < |history|
    ensures HistoryErrors(history) == HistoryErrors(history[..k + 1]) + HistoryErrors(history[k..])
  {
    hide HistoryErrors, SchemaErrorsOf, SemanticErrorsOf;
    var n := |history| - 1;
    if k == n {
      assert history[..k + 1] == history;
      NoStep(history[k..]);
    } else {
      OldestFirst(history[..n], k);
      NewestLast(history, k);
    }
  }

  lemma NewestLast(history: seq<Snapshot>, k: nat)
    requires k < |history| - 1
    requires var front := history[..|history| - 1];
             HistoryErrors(front) == HistoryErrors(front[..k + 1]) + HistoryErrors(front[k..])
    ensures HistoryErrors(history) == HistoryErrors(history[..k + 1]) + HistoryErrors(history[k..])
  {
    hide *;
    var n := |history| - 1;
    var front, rest := history[..n], history[k..];
    assert front[..k + 1] == history[..k + 1];
    assert front[k..] == rest[..|rest| - 1];
    assert rest[|rest| - 1] == history[n] && rest[|rest| - 2] == history[n - 1];
    LastStep(history);
    LastStep(rest);
  }

  lemma NoStep(history: seq<Snapshot>)
    requires |history| < 2
    ensures HistoryErrors(history) == []
  {
  }

  lemma LastStep(history: seq<Snapshot>)
    requires |history| >= 2
    ensures var n := |history| - 1;
            HistoryErrors(history) ==
              HistoryErrors(history[..n]) + (SchemaErrorsOf(history[n - 1], history[n]) + SemanticErrorsOf(history[n - 1], history[n]))
  {
    hide SchemaErrorsOf, SemanticErrorsOf;
  }

  method SchemaErrors(a: Snapshot, b: Snapshot) returns (errors: seq<EvolutionError>)
    ensures errors == SchemaErrorsOf(a, b)
  {
    hide Parse, PolicyErrors;
    var change := Schema.ClassifyChange(a.fields, b.fields);
    var was := ParseVersion(a.version);
    var now := ParseVersion(b.version);
    errors := Tag(SchemaSubject, PolicyErrors(was, now, change));
  }

  method MappingErrors(a: Semantic, b: Semantic) returns (errors: seq<EvolutionError>, change: Change)
    ensures errors == MappingErrorsOf(a, b)
    ensures change == Sem.ChangeOf(a.blocks, b.blocks)
  {
    hide Parse, PolicyErrors;
    change := Sem.ClassifySemanticChange(a.blocks, b.blocks);
    var was := ParseVersion(a.mappingVersion);
    var now := ParseVersion(b.mappingVersion);
    errors := Tag(SemanticSubject, PolicyErrors(was, now, change));
  }

  ghost predicate AllowedAt(history: seq<Snapshot>, i: int) {
    0 <= i < |history| - 1 ==> StepAllowed(history[i], history[i + 1])
  }

  /** Every adjacent step of the history is allowed. */
  ghost predicate AdjacentAllowed(history: seq<Snapshot>) {
    forall i :: AllowedAt(history, i)
  }

  method PairwiseHistoryErrors(history: seq<Snapshot>) returns (errors: seq<EvolutionError>)
    ensures errors == HistoryErrors(history)
    ensures errors == [] <==> AdjacentAllowed(history)
  {
    hide SchemaErrorsOf, MappingErrorsOf, AdjacentAllowed;
    errors := [];
    var steps := if |history| == 0 then 0 else |history| - 1;
    for k := 0 to steps
      invariant errors == HistoryErrors(if |history| == 0 then history else history[..k + 1])
    {
      var prev, next := history[k], history[k + 1];
      assert history[..k + 2][..k + 1] == history[..k + 1];
      var schema := SchemaErrors(prev, next);
      errors := errors + schema;
      if prev.semantic.Some? && next.semantic.Some? {
        var semantic, change := MappingErrors(prev.semantic.value, next.semantic.value);
        errors := errors + semantic;
      }
    }
    assert |history| > 0 ==> history[..steps + 1] == history;
    NoErrorsIff(history);
  }

  lemma {:induction false} NoErrorsIff(history: seq<Snapshot>)
    ensures HistoryErrors(history) == [] <==> AdjacentAllowed(history)
  {
    hide SchemaErrorsOf, SemanticErrorsOf, StepAllowed;
    if |history| < 2 {
      NoSteps(history);
    } else {
      hide AdjacentAllowed;
      var n := |history| - 1;
      NoErrorsIff(history[..n]);
      ExtendAllowed(history[..n], history[n]);
      assert history[..n] + [history[n]] == history;
      StepErrorsIff(history[n - 1], history[n]);
    }
  }

  lemma StepErrorsIff(a: Snapshot, b: Snapshot)
    ensures SchemaErrorsOf(a, b) == [] && SemanticErrorsOf(a, b) == [] <==> StepAllowed(a, b)
  {
  }

  // ---- Adjacent steps are enough: schemas --------------------------------------------------------------

  lemma SchemaStepRefl(a: Snapshot)
    ensures SchemaAllowed(a, a)
  {
  }

  lemma SchemaStepComposes(a: Snapshot, b: Snapshot, c: Snapshot)
    requires SchemaAllowed(a, b) && SchemaAllowed(b, c)
    ensures SchemaAllowed(a, c)
  {
    hide Parse, PolicyErrors, Schema.ChangeOf;
    Schema.ChangeComposes(a.fields, b.fields, c.fields);
    AllowedComposes(Parse(a.version), Parse(b.version), Parse(c.version),
                    Schema.ChangeOf(a.fields, b.fields), Schema.ChangeOf(b.fields, c.fields),
                    Schema.ChangeOf(a.fields, c.fields));
  }

  /** A consumer any number of versions behind is covered by the adjacent checks. */
  lemma {:induction false} SchemaAllPairs(history: seq<Snapshot>, i: nat, j: nat)
    requires AdjacentAllowed(history) && i <= j < |history|
    ensures SchemaAllowed(history[i], history[j])
    decreases j - i
  {
    hide SchemaAllowed, SemanticAllowed;
    if i == j {
      SchemaStepRefl(history[i]);
    } else {
      SchemaAllPairs(history, i, j - 1);
      assert AllowedAt(history, j - 1);
      SchemaStepComposes(history[i], history[j - 1], history[j]);
    }
  }

  /** What that means: within a major version nothing a consumer reads disappears or changes and
      no new field is required; within a minor version the fields are the same; versions never
      go back. */
  lemma ConsumerIsCovered(history: seq<Snapshot>, i: nat, j: nat)
    requires AdjacentAllowed(history) && i <= j < |history|
    ensures var was, now := Parse(history[i].version), Parse(history[j].version);
            && NoNewer(was, now)
            && (was.major == now.major ==> Schema.NonBreaking(history[i].fields, history[j].fields))
            && (was.major == now.major && was.minor == now.minor ==> history[i].fields == history[j].fields)
  {
    hide Parse, PolicyErrors, AdjacentAllowed;
    SchemaAllPairs(history, i, j);
    AllowedMeans(Parse(history[i].version), Parse(history[j].version),
                 Schema.ChangeOf(history[i].fields, history[j].fields));
  }

  // ---- Adjacent steps are enough: semantic metadata -------------------------------------------------------

  lemma MappingRefl(a: Semantic)
    ensures MappingAllowed(a, a)
  {
    Sem.EqualIsUnchanged(a.blocks);
  }

  lemma MappingComposes(a: Semantic, b: Semantic, c: Semantic)
    requires MappingAllowed(a, b) && MappingAllowed(b, c)
    ensures MappingAllowed(a, c)
  {
    hide Parse, PolicyErrors, Sem.ChangeOf;
    Sem.ChangeComposes(a.blocks, b.blocks, c.blocks);
    AllowedComposes(Parse(a.mappingVersion), Parse(b.mappingVersion), Parse(c.mappingVersion),
                    Sem.ChangeOf(a.blocks, b.blocks), Sem.ChangeOf(b.blocks, c.blocks),
                    Sem.ChangeOf(a.blocks, c.blocks));
  }

  ghost predicate SemanticAt(history: seq<Snapshot>, i: int) {
    0 <= i < |history| - 1 ==> SemanticAllowed(history[i], history[i + 1])
  }

  ghost predicate AdjacentSemantic(history: seq<Snapshot>) { forall i :: SemanticAt(history, i) }

  ghost predicate AllPairsSemantic(history: seq<Snapshot>) {
    forall i, j :: 0 <= i <= j < |history| ==> SemanticAllowed(history[i], history[j])
  }

  /** Which snapshots carry semantic metadata. */
  function Carriers(history: seq<Snapshot>): (r: seq<bool>)
    ensures |r| == |history| && forall i :: 0 <= i < |r| ==> r[i] == history[i].semantic.Some?
  {
    seq(|history|, i requires 0 <= i < |history| => history[i].semantic.Some?)
  }

  /** No snapshot without metadata lies between two that carry it. */
  ghost predicate Contiguous(pattern: seq<bool>) {
    forall i, j, k :: 0 <= i < j < k < |pattern| && pattern[i] && pattern[k] ==> pattern[j]
  }

  lemma {:induction false} SemanticPair(history: seq<Snapshot>, i: nat, j: nat)
    requires AdjacentSemantic(history) && Contiguous(Carriers(history)) && i <= j < |history|
    ensures SemanticAllowed(history[i], history[j])
    decreases j - i
  {
    hide MappingAllowed;
    if history[i].semantic.Some? && history[j].semantic.Some? {
      if i == j {
        MappingRefl(history[i].semantic.value);
      } else {
        SemanticPair(history, i, j - 1);
        assert i < j - 1 ==> Carriers(history)[j - 1];
        assert SemanticAt(history, j - 1);
        MappingComposes(history[i].semantic.value, history[j - 1].semantic.value, history[j].semantic.value);
      }
    }
  }

  /** The adjacent checks cover every pair of snapshots with metadata, whatever the metadata is,
      exactly when the snapshots carrying it are contiguous: of the semantic checks alone, and of
      all checks together. A gap hides any change. */
  lemma SemanticAllPairsIff(pattern: seq<bool>)
    ensures Contiguous(pattern) <==>
            forall history :: Carriers(history) == pattern && AdjacentSemantic(history) ==> AllPairsSemantic(history)
    ensures Contiguous(pattern) <==>
            forall history :: Carriers(history) == pattern && AdjacentAllowed(history) ==> AllPairsSemantic(history)
  {
    hide SemanticAllowed, AdjacentAllowed, AdjacentSemantic, AllPairsSemantic;
    forall history | AdjacentAllowed(history) ensures AdjacentSemantic(history) { AllowedIsSemantic(history); }
    if Contiguous(pattern) {
      forall history | Carriers(history) == pattern && AdjacentSemantic(history) ensures AllPairsSemantic(history) {
        ContiguousCovers(history);
      }
    } else {
      var i, j, k :| 0 <= i < j < k < |pattern| && pattern[i] && pattern[k] && !pattern[j];
      var history := GapHistory(pattern, i, j, k);
      assert Carriers(history) == pattern;
    }
  }

  lemma ContiguousCovers(history: seq<Snapshot>)
    requires AdjacentSemantic(history) && Contiguous(Carriers(history))
    ensures AllPairsSemantic(history)
  {
    hide SemanticAllowed, AdjacentSemantic;
    forall i, j | 0 <= i <= j < |history| ensures SemanticAllowed(history[i], history[j]) {
      SemanticPair(history, i, j);
    }
  }

  lemma AllowedIsSemantic(history: seq<Snapshot>)
    requires AdjacentAllowed(history)
    ensures AdjacentSemantic(history)
  {
    hide SchemaAllowed, SemanticAllowed;
    forall i ensures SemanticAt(history, i) { assert AllowedAt(history, i); }
  }

  function Bare(semantic: Option<Semantic>): Snapshot { Snapshot("", map[], semantic, "", map[]) }

  /** full before j, empty after it, where the pattern carries metadata at all. */
  function AcrossGap(pattern: seq<bool>, j: nat, full: Semantic, empty: Semantic): (r: seq<Snapshot>)
    ensures |r| == |pattern|
    ensures forall n :: 0 <= n < |r| ==> r[n] == Bare(if pattern[n] then Some(if n < j then full else empty) else None)
  {
    seq(|pattern|, n requires 0 <= n < |pattern| =>
      Bare(if pattern[n] then Some(if n < j then full else empty) else None))
  }

  lemma SameSchemaIsAllowed(a: Snapshot, b: Snapshot)
    requires a.version == b.version && a.fields == b.fields
    ensures SchemaAllowed(a, b)
  {
    SchemaStepRefl(a);
  }

  /** A history that passes every check and drops a semantic block, under one mapping version,
      across a gap at j. */
  lemma GapHistory(pattern: seq<bool>, i: nat, j: nat, k: nat) returns (history: seq<Snapshot>)
    requires i < j < k < |pattern| && pattern[i] && pattern[k] && !pattern[j]
    ensures Carriers(history) == pattern && AdjacentAllowed(history) && !AllPairsSemantic(history)
  {
    hide MappingAllowed, SemanticAllowed, SchemaAllowed;
    var full, empty := Semantic("1.0.0", map["field:area" := Sem.Null]), Semantic("1.0.0", map[]);
    history := AcrossGap(pattern, j, full, empty);
    assert Carriers(history) == pattern;
    forall n ensures AllowedAt(history, n) {
      if 0 <= n < |history| - 1 {
        StepInGap(pattern, j, full, empty, n);
        SameSchemaIsAllowed(history[n], history[n + 1]);
      }
    }
    GapBreaks(full, empty);
    AcrossBreaks(history[i], history[k], full, empty);
  }

  lemma StepInGap(pattern: seq<bool>, j: nat, full: Semantic, empty: Semantic, n: nat)
    requires j < |pattern| && !pattern[j] && n + 1 < |pattern|
    ensures var h := AcrossGap(pattern, j, full, empty); SemanticAllowed(h[n], h[n + 1])
  {
    hide MappingAllowed;
    MappingRefl(full);
    MappingRefl(empty);
  }

  lemma AcrossBreaks(a: Snapshot, b: Snapshot, full: Semantic, empty: Semantic)
    requires a.semantic == Some(full) && b.semantic == Some(empty) && !MappingAllowed(full, empty)
    ensures !SemanticAllowed(a, b)
  {
    hide MappingAllowed;
  }

  lemma GapBreaks(full: Semantic, empty: Semantic)
    requires full == Semantic("1.0.0", map["field:area" := Sem.Null]) && empty == Semantic("1.0.0", map[])
    ensures !MappingAllowed(full, empty)
  {
    hide Parse;
    assert "field:area" in full.blocks && "field:area" !in empty.blocks;
    AllowedMeans(Parse("1.0.0"), Parse("1.0.0"), Sem.ChangeOf(full.blocks, empty.blocks));
  }

  lemma ExtendAllowed(history: seq<Snapshot>, current: Snapshot)
    requires history != []
    ensures AdjacentAllowed(history + [current]) <==>
            AdjacentAllowed(history) && StepAllowed(history[|history| - 1], current)
  {
    hide StepAllowed;
    var all := history + [current];
    assert forall i :: 0 <= i < |history| ==> all[i] == history[i];
    if AdjacentAllowed(all) {
      forall i ensures AllowedAt(history, i) { assert AllowedAt(all, i); }
      assert AllowedAt(all, |history| - 1);
    }
    if AdjacentAllowed(history) && StepAllowed(history[|history| - 1], current) {
      forall i ensures AllowedAt(all, i) { assert AllowedAt(history, i); }
    }
  }

  // ---- Freezing ---------------------------------------------------------------------------------------

  /** A committed baseline: the latest snapshot with, in newer files, its history. */
  datatype Document = Document(top: Snapshot, history: Option<seq<Snapshot>>)

  /** The reviewed snapshots: the recorded history, or in older files the one snapshot there is. */
  function BaselineHistory(document: Option<Document>): (history: seq<Snapshot>)
    ensures document.None? ==> history == []
    ensures document.Some? && document.value.history.None? ==> history == [document.value.top]
    ensures document.Some? && document.value.history.Some? ==> history == document.value.history.value
  {
    if document.None? then []
    else if document.value.history.Some? then document.value.history.value
    else [document.value.top]
  }

  function MergeHistory(existing: Option<Document>, snapshot: Snapshot): seq<Snapshot> {
    var history := BaselineHistory(existing);
    if history != [] && history[|history| - 1] == snapshot then history else history + [snapshot]
  }

  function Freeze(existing: Option<Document>, snapshot: Snapshot): Document {
    Document(snapshot, Some(MergeHistory(existing, snapshot)))
  }

  lemma StepRefl(a: Snapshot)
    ensures StepAllowed(a, a)
  {
    SchemaStepRefl(a);
    if a.semantic.Some? { MappingRefl(a.semantic.value); }
  }

  /** Freezing keeps what was reviewed, ends with the frozen snapshot, and does nothing when
      repeated. It cannot hide a step: the new history passes exactly when the old one does and
      the step to the new snapshot is allowed. */
  lemma FreezeRecords(existing: Option<Document>, snapshot: Snapshot)
    ensures var before, after := BaselineHistory(existing), BaselineHistory(Some(Freeze(existing, snapshot)));
            && after == (if before != [] && before[|before| - 1] == snapshot then before else before + [snapshot])
            && after != [] && after[|after| - 1] == snapshot
            && Freeze(Some(Freeze(existing, snapshot)), snapshot) == Freeze(existing, snapshot)
            && (AdjacentAllowed(after) <==>
                AdjacentAllowed(before) && (before != [] ==> StepAllowed(before[|before| - 1], snapshot)))
  {
    hide StepAllowed, AdjacentAllowed;
    var before := BaselineHistory(existing);
    StepRefl(snapshot);
    if before == [] {
      assert before + [snapshot] == [snapshot];
      NoSteps([snapshot]);
      NoSteps(before);
    } else {
      ExtendAllowed(before, snapshot);
    }
  }

  /** The baseline after freezing each snapshot of a run in turn. */
  function FreezeAll(snapshots: seq<Snapshot>): Option<Document> {
    if snapshots == [] then None
    else Some(Freeze(FreezeAll(snapshots[..|snapshots| - 1]), snapshots[|snapshots| - 1]))
  }

  /** Over a whole run of reviews, the committed history passes exactly when every review step
      was allowed. */
  lemma {:induction false} RunsArePoliced(snapshots: seq<Snapshot>)
    ensures AdjacentAllowed(BaselineHistory(FreezeAll(snapshots))) <==> AdjacentAllowed(snapshots)
    ensures snapshots != [] ==>
              var h := BaselineHistory(FreezeAll(snapshots)); h != [] && h[|h| - 1] == snapshots[|snapshots| - 1]
    ensures snapshots == [] ==> BaselineHistory(FreezeAll(snapshots)) == []
  {
    hide StepAllowed, AdjacentAllowed, MergeHistory;
    if snapshots == [] {
      NoSteps(snapshots);
    } else {
      var front, last := snapshots[..|snapshots| - 1], snapshots[|snapshots| - 1];
      RunsArePoliced(front);
      FreezeRecords(FreezeAll(front), last);
      assert snapshots == front + [last];
      if front != [] { ExtendAllowed(front, last); } else { NoSteps(snapshots); NoSteps(BaselineHistory(FreezeAll(front))); }
    }
  }

  lemma NoSteps(history: seq<Snapshot>)
    requires |history| <= 1
    ensures AdjacentAllowed(history)
  {
  }

  // ---- Checking the current contract ---------------------------------------------------------------------

  /** The current mapping semantics are the reviewed ones: by content when both snapshots carry
      them, else by fingerprint as far as known. */
  ghost predicate Reviewed(reviewed: Snapshot, current: Snapshot) {
    if reviewed.semantic.Some? && current.semantic.Some?
    then Sem.Unchanged(reviewed.semantic.value.blocks, current.semantic.value.blocks)
    else reviewed.metadataHash == current.metadataHash || reviewed.metadataHash == "" || current.metadataHash == ""
  }

  ghost function DriftErrorsOf(reviewed: Snapshot, current: Snapshot): (r: seq<EvolutionError>)
    ensures r == [] <==> SemanticAllowed(reviewed, current) && Reviewed(reviewed, current)
  {
    if reviewed.semantic.None? || current.semantic.None?
    then if Reviewed(reviewed, current) then [] else [MetadataDrift]
    else
      MappingErrorsOf(reviewed.semantic.value, current.semantic.value)
      + (if Sem.ChangeOf(reviewed.semantic.value.blocks, current.semantic.value.blocks) == Identical then []
         else [MetadataDrift])
  }

  /** Semantic drift against the latest reviewed snapshot. */
  method SemanticDriftErrors(reviewed: Snapshot, current: Snapshot) returns (errors: seq<EvolutionError>)
    ensures errors == DriftErrorsOf(reviewed, current)
    ensures reviewed.semantic.Some? && current.semantic.Some? ==>
              errors == MappingErrorsOf(reviewed.semantic.value, current.semantic.value)
                        + (if Reviewed(reviewed, current) then [] else [MetadataDrift])
    ensures errors == [] <==> SemanticAllowed(reviewed, current) && Reviewed(reviewed, current)
  {
    hide MappingErrorsOf, MappingAllowed;
    errors := [];
    if reviewed.semantic.None? || current.semantic.None? {
      if reviewed.metadataHash != "" && current.metadataHash != "" && reviewed.metadataHash != current.metadataHash {
        errors := [MetadataDrift];
      }
      return;
    }
    var change;
    errors, change := MappingErrors(reviewed.semantic.value, current.semantic.value);
    if change != Identical { errors := errors + [MetadataDrift]; }
  }

  /** The fingerprint on record is the current one, as far as both are known. */
  ghost predicate StoredHashFits(storedHash: string, current: Snapshot) {
    storedHash == current.metadataHash || storedHash == "" || current.metadataHash == ""
  }

  /** One contract's check. storedHash "" is an absent stored fingerprint. */
  method CheckContract(history: seq<Snapshot>, current: Snapshot, storedHash: string) returns (errors: seq<EvolutionError>)
    ensures history == [] ==> errors == [NoHistory]
    ensures history != [] ==>
              errors == SchemaErrorsOf(history[|history| - 1], current) + DriftErrorsOf(history[|history| - 1], current)
                + HistoryErrors(history) + (if StoredHashFits(storedHash, current) then [] else [StoredHashDrift])
    ensures errors == [] <==>
            && history != [] && AdjacentAllowed(history + [current])
            && Reviewed(history[|history| - 1], current) && StoredHashFits(storedHash, current)
  {
    hide SchemaAllowed, SemanticAllowed, AdjacentAllowed, Reviewed, HistoryErrors, SchemaErrorsOf, DriftErrorsOf;
    if |history| == 0 { return [NoHistory]; }
    var latest := history[|history| - 1];
    var schema := SchemaErrors(latest, current);
    var semantic := SemanticDriftErrors(latest, current);
    var pairwise := PairwiseHistoryErrors(history);
    errors := schema + semantic + pairwise;
    if storedHash != "" && current.metadataHash != "" && storedHash != current.metadataHash {
      errors := errors + [StoredHashDrift];
    }
    ExtendAllowed(history, current);
  }

  /** A contract that passes covers consumers of every reviewed version: of the schema
      always, of the semantic metadata when the snapshots carrying it are contiguous. */
  lemma CheckedCoversAll(history: seq<Snapshot>, current: Snapshot, i: nat)
    requires AdjacentAllowed(history + [current]) && i < |history|
    ensures SchemaAllowed(history[i], current)
    ensures Contiguous(Carriers(history + [current])) ==> SemanticAllowed(history[i], current)
  {
    hide SchemaAllowed, SemanticAllowed, AdjacentAllowed, AdjacentSemantic;
    assert (history + [current])[i] == history[i];
    SchemaAllPairs(history + [current], i, |history|);
    AllowedIsSemantic(history + [current]);
    if Contiguous(Carriers(history + [current])) { SemanticPair(history + [current], i, |history|); }
  }
}
