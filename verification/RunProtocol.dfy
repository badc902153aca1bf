/** Publishers, readers and materialising readers interleaved step by step
    (src/fl_op/serving/objectstore.py, publish_run, list_run_ids and _materialize). */
module RunProtocol {
  import opened Wrappers
  import opened Text
  import opened RunKeys
  import opened Publication
  import ArtifactStore

  type Objects = map<string, Bytes>

  /** Who publishes what: one publisher per run id, under one subdirectory, with its files as
      they are handed to it. */
  datatype Deployment = Deployment(prefix: string, subdir: string, marker: string, plans: map<string, Files>)

  function Prefix(d: Deployment): string { TrimSlashes(d.prefix) }

  function Safe(d: Deployment, run: string): Files
    requires run in d.plans
  {
    SafeFiles(d.plans[run])
  }

  function LocalOf(d: Deployment, run: string, rel: string): string { DirKey(d.subdir, run, rel) }

  function KeyOf(d: Deployment, run: string, rel: string): string { Key(Prefix(d), LocalOf(d, run, rel)) }

  /** Run ids without slashes, runs that keep the commit-marker contract, and never two
      contents under one name: what a caller has to see to. */
  ghost predicate WellBehaved(d: Deployment) {
    && Aligned(d.prefix, d.subdir)
    && forall run :: run in d.plans ==>
         Lacks(run, '/') && CommitOk(d.plans[run], d.marker) && NamesAgree(Safe(d, run))
  }

  /** A materialisation under way: the keys it listed and how many it has dealt with. whole is
      the run it copies, when that run was already listed as committed. */
  datatype Call = Call(keys: seq<string>, done: nat, whole: Option<string>)

  datatype State = State(store: Objects, progress: map<string, nat>, local: Objects, calls: seq<Call>)

  ghost predicate Init(d: Deployment, s: State) {
    s == State(map[], map run | run in d.plans :: 0, map[], [])
  }

  /** What list_run_ids returns. */
  ghost predicate Listed(d: Deployment, s: State, run: string) {
    ArtifactStore.Committed(s.store, ListBase(d.prefix, d.subdir), d.marker, run)
  }

  datatype Step = PutNext(run: string) | Begin(dir: string, call: Call) | CopyNext(index: nat)

  ghost predicate Next(d: Deployment, s: State, step: Step, t: State) {
    match step
    case PutNext(run) =>
      && run in d.plans && run in s.progress && s.progress[run] < PutCount(d.plans[run])
      && var n := s.progress[run]; var put := Put(Safe(d, run), d.marker, n);
      && t == s.(store := s.store[ArtifactStore.Under(PublishBase(d.prefix, d.subdir, run), put.0) := put.1],
                 progress := s.progress[run := n + 1])
    case Begin(dir, call) =>
      && call.done == 0
      && (forall key :: key in call.keys <==> key in s.store && StartsWith(key, Key(Prefix(d), dir) + "/"))
      && (call.whole.Some? ==> Listed(d, s, call.whole.value) && dir == d.subdir + "/" + call.whole.value)
      && t == s.(calls := s.calls + [call])
    case CopyNext(c) =>
      && c < |s.calls| && s.calls[c].done < |s.calls[c].keys|
      && var key := s.calls[c].keys[s.calls[c].done]; var p := StripPrefix(Prefix(d), key);
      && key in s.store
      && t == s.(local := if p in s.local then s.local else s.local[p := s.store[key]],
                 calls := s.calls[c := s.calls[c].(done := s.calls[c].done + 1)])
  }

  // ---- Invariant ------------------------------------------------------------------------------------------

  ghost predicate ProgressOk(d: Deployment, progress: map<string, nat>) {
    progress.Keys == d.plans.Keys && forall run :: run in progress ==> progress[run] <= PutCount(d.plans[run])
  }

  /** The store shows this object of the run exactly as far as its publisher has come. */
  ghost predicate Shows(d: Deployment, store: Objects, run: string, rel: string, n: nat)
    requires run in d.plans && n <= |Safe(d, run)| + 1
  {
    var objects := After(Safe(d, run), d.marker, n);
    && (KeyOf(d, run, rel) in store <==> rel in objects)
    && (rel in objects ==> store[KeyOf(d, run, rel)] == objects[rel])
  }

  ghost predicate Owned(d: Deployment, key: string) {
    exists run, rel :: run in d.plans && key == KeyOf(d, run, rel)
  }

  /** The store shows every run as far as it has been put, and holds nothing else. */
  ghost predicate StoreOk(d: Deployment, store: Objects, progress: map<string, nat>)
    requires ProgressOk(d, progress)
  {
    && (forall run, rel :: run in d.plans ==> Shows(d, store, run, rel, progress[run]))
    && (forall key {:trigger Owned(d, key)} :: key in store ==> Owned(d, key))
  }

  /** Every local file has the bytes the store holds. */
  ghost predicate LocalOk(d: Deployment, store: Objects, local: Objects) {
    forall p {:trigger p in local} :: p in local ==> Key(Prefix(d), p) in store && store[Key(Prefix(d), p)] == local[p]
  }

  /** The store holds the run's kth file with its own bytes. */
  ghost predicate FileIn(d: Deployment, store: Objects, run: string, k: nat)
    requires run in d.plans && k < |d.plans[run]|
  {
    var (path, bytes) := d.plans[run][k];
    && SafeRel(path).Some? && KeyOf(d, run, SafeRel(path).value) in store
    && store[KeyOf(d, run, SafeRel(path).value)] == bytes
  }

  /** Every file of the run is in the store and among the keys. */
  ghost predicate ListsAll(d: Deployment, store: Objects, keys: seq<string>, run: string) {
    && run in d.plans
    && forall k :: 0 <= k < |d.plans[run]| ==>
         FileIn(d, store, run, k) && KeyOf(d, run, SafeRel(d.plans[run][k].0).value) in keys
  }

  ghost predicate CallOk(d: Deployment, store: Objects, local: Objects, call: Call) {
    && call.done <= |call.keys|
    && (forall key :: key in call.keys ==> key in store)
    && (forall i :: 0 <= i < call.done ==> StripPrefix(Prefix(d), call.keys[i]) in local)
    && (call.whole.Some? ==> ListsAll(d, store, call.keys, call.whole.value))
  }

  ghost predicate Inv(d: Deployment, s: State) {
    && ProgressOk(d, s.progress) && StoreOk(d, s.store, s.progress) && LocalOk(d, s.store, s.local)
    && forall c :: 0 <= c < |s.calls| ==> CallOk(d, s.store, s.local, s.calls[c])
  }

  lemma KeyOfInjective(d: Deployment, run: string, rel: string, run': string, rel': string)
    requires WellBehaved(d) && run in d.plans && run' in d.plans && KeyOf(d, run, rel) == KeyOf(d, run', rel')
    ensures run == run' && rel == rel'
  {
    KeyInjective(Prefix(d), LocalOf(d, run, rel), LocalOf(d, run', rel'));
    DirKeyInjective(d.subdir, run, rel, run', rel');
  }

  lemma InitInv(d: Deployment, s: State)
    requires Init(d, s)
    ensures Inv(d, s)
  {
  }

  /** Publishers put objects under the keys readers look at. */
  lemma PutKey(d: Deployment, run: string, rel: string)
    requires WellBehaved(d)
    ensures ArtifactStore.Under(PublishBase(d.prefix, d.subdir, run), rel) == KeyOf(d, run, rel)
  {
    hide PublishBase, Aligned, TrimSlashes, Posix;
    PublishedWhereListed(d.prefix, d.subdir, run);
    AlignedBase(d);
    var tail := d.subdir + "/" + run + "/" + rel;
    assert Prefix(d) + "/" + tail == Prefix(d) + "/" + d.subdir + "/" + run + "/" + rel;
  }

  lemma AlignedBase(d: Deployment)
    requires WellBehaved(d)
    ensures ListBase(d.prefix, d.subdir) == Key(Prefix(d), d.subdir)
  {
  }

  /** A step of a publisher in terms of those keys. */
  lemma PutStep(d: Deployment, s: State, run: string, t: State)
    requires WellBehaved(d) && Next(d, s, PutNext(run), t)
    ensures run in d.plans && run in s.progress && s.progress[run] < PutCount(d.plans[run])
    ensures var n := s.progress[run]; var put := Put(Safe(d, run), d.marker, n);
            t == s.(store := s.store[KeyOf(d, run, put.0) := put.1], progress := s.progress[run := n + 1])
  {
    hide WellBehaved, KeyOf, Put, SafeFiles, AllSafe, PublishBase;
    PutKey(d, run, Put(Safe(d, run), d.marker, s.progress[run]).0);
  }

  lemma PutStore(d: Deployment, s: State, run: string, t: State)
    requires WellBehaved(d) && Inv(d, s) && Next(d, s, PutNext(run), t)
    ensures ProgressOk(d, t.progress) && StoreOk(d, t.store, t.progress)
  {
    hide KeyOf, LocalOk, CallOk, Put, StoreOk, WellBehaved, Next, SafeFiles, AllSafe, PublishBase;
    PutStep(d, s, run, t);
    ProgressNext(d, s.progress, run);
    StoreNext(d, s.store, s.progress, run);
  }

  lemma ProgressNext(d: Deployment, progress: map<string, nat>, run: string)
    requires ProgressOk(d, progress) && run in d.plans && progress[run] < PutCount(d.plans[run])
    ensures ProgressOk(d, progress[run := progress[run] + 1])
  {
    hide PutCount;
  }

  lemma StoreNext(d: Deployment, store: Objects, progress: map<string, nat>, run: string)
    requires WellBehaved(d) && ProgressOk(d, progress) && StoreOk(d, store, progress)
    requires run in d.plans && progress[run] < PutCount(d.plans[run])
    requires ProgressOk(d, progress[run := progress[run] + 1])
    ensures var put := Put(Safe(d, run), d.marker, progress[run]);
            StoreOk(d, store[KeyOf(d, run, put.0) := put.1], progress[run := progress[run] + 1])
  {
    hide KeyOf, Put, Shows, Owned, WellBehaved, SafeFiles, AllSafe;
    var n, next := progress[run], progress[run := progress[run] + 1];
    var put := Put(Safe(d, run), d.marker, n);
    var more := store[KeyOf(d, run, put.0) := put.1];
    forall r, rel | r in d.plans ensures Shows(d, more, r, rel, next[r]) {
      assert Shows(d, store, r, rel, progress[r]);
      PutShows(d, store, run, n, r, rel, progress[r]);
    }
    PutIsOwned(d, store, run, put.0, put.1);
  }

  lemma PutIsOwned(d: Deployment, store: Objects, run: string, rel: string, data: Bytes)
    requires run in d.plans && forall key {:trigger Owned(d, key)} :: key in store ==> Owned(d, key)
    ensures forall key {:trigger Owned(d, key)} :: key in store[KeyOf(d, run, rel) := data] ==> Owned(d, key)
  {
    hide KeyOf, Owned;
    forall key {:trigger Owned(d, key)} | key in store[KeyOf(d, run, rel) := data] ensures Owned(d, key) {
      if key == KeyOf(d, run, rel) { KeyIsOwned(d, run, rel); } else { assert key in store; }
    }
  }

  lemma KeyIsOwned(d: Deployment, run: string, rel: string)
    requires run in d.plans
    ensures Owned(d, KeyOf(d, run, rel))
  {
    hide KeyOf;
  }

  /** One put of a run changes what the store shows of this run and of no other. */
  lemma PutShows(d: Deployment, store: Objects, run: string, n: nat, r: string, rel: string, m: nat)
    requires WellBehaved(d) && run in d.plans && n <= |Safe(d, run)|
    requires r in d.plans && m <= |Safe(d, r)| + 1 && Shows(d, store, r, rel, m) && (r == run ==> m == n)
    ensures var put := Put(Safe(d, run), d.marker, n);
            Shows(d, store[KeyOf(d, run, put.0) := put.1], r, rel, if r == run then n + 1 else m)
  {
    hide KeyOf, After, Put, Safe;
    var put := Put(Safe(d, run), d.marker, n);
    AfterNext(Safe(d, run), d.marker, n);
    if KeyOf(d, r, rel) == KeyOf(d, run, put.0) { KeyOfInjective(d, r, rel, run, put.0); }
  }

  lemma AfterNext(safe: Files, marker: string, n: nat)
    requires n <= |safe|
    ensures After(safe, marker, n + 1) == After(safe, marker, n)[Put(safe, marker, n).0 := Put(safe, marker, n).1]
  {
  }

  /** What is in the store stays there with its bytes. */
  lemma StoreGrows(d: Deployment, s: State, step: Step, t: State)
    requires WellBehaved(d) && Inv(d, s) && Next(d, s, step, t)
    ensures SubMap(s.store, t.store)
  {
    hide KeyOf, LocalOk, CallOk, Put, Shows, Owned, WellBehaved;
    if step.PutNext? {
      var run := step.run;
      PutStep(d, s, run, t);
      hide Next, Safe, AllSafe;
      var put := Put(Safe(d, run), d.marker, s.progress[run]);
      assert Shows(d, s.store, run, put.0, s.progress[run]);
      RewritesSame(d, s.store, run, s.progress[run]);
    }
  }

  /** No two puts of a run give one name different bytes. */
  lemma PutsAgree(d: Deployment, run: string)
    requires WellBehaved(d) && run in d.plans
    ensures PutCount(d.plans[run]) <= |Safe(d, run)| + 1 && Agree(Safe(d, run), d.marker, PutCount(d.plans[run]))
  {
    hide SafeFiles, AllSafe, Aligned;
    if AllSafe(d.plans[run]) { OkAgrees(d.plans[run], d.marker); }
  }

  /** Putting a name again puts the same bytes. */
  lemma RewritesSame(d: Deployment, store: Objects, run: string, n: nat)
    requires WellBehaved(d) && run in d.plans && n < PutCount(d.plans[run])
    requires Shows(d, store, run, Put(Safe(d, run), d.marker, n).0, n)
    ensures var put := Put(Safe(d, run), d.marker, n);
            KeyOf(d, run, put.0) in store ==> store[KeyOf(d, run, put.0)] == put.1
  {
    hide KeyOf, After, Put, WellBehaved, SafeFiles, AllSafe;
    PutsAgree(d, run);
    var safe := Safe(d, run);
    var put := Put(safe, d.marker, n);
    AfterHas(safe, d.marker, n, put.0);
    if put.0 in After(safe, d.marker, n) {
      var k :| 0 <= k < n && Put(safe, d.marker, k).0 == put.0;
      AgreedValue(safe, d.marker, n, k);
    }
  }

  lemma LocalKept(d: Deployment, store: Objects, more: Objects, local: Objects)
    requires LocalOk(d, store, local) && SubMap(store, more)
    ensures LocalOk(d, more, local)
  {
  }

  lemma CallKept(d: Deployment, store: Objects, more: Objects, local: Objects, wider: Objects, call: Call)
    requires CallOk(d, store, local, call) && SubMap(store, more) && SubMap(local, wider)
    ensures CallOk(d, more, wider, call)
  {
    hide KeyOf, StripPrefix;
  }

  /** A listed run has all its files in the store. */
  lemma ListedIsDone(d: Deployment, s: State, run: string)
    requires WellBehaved(d) && Inv(d, s) && Listed(d, s, run)
    ensures run in d.plans && forall k :: 0 <= k < |d.plans[run]| ==> FileIn(d, s.store, run, k)
  {
    MarkerKey(d, run);
    hide LocalOk, CallOk, After, Shows, FileIn, PutCount, WellBehaved, ListBase, DirKey, KeyOf;
    assert Owned(d, KeyOf(d, run, d.marker));
    OwnerIsRun(d, run, d.marker);
    assert Shows(d, s.store, run, d.marker, s.progress[run]);
    MarkerMeansFiles(d, s.store, run, s.progress[run]);
    forall k | 0 <= k < |d.plans[run]| ensures FileIn(d, s.store, run, k) {
      var rel := SafeRel(d.plans[run][k].0).value;
      assert Shows(d, s.store, run, rel, s.progress[run]);
      ShownIsIn(d, s.store, run, s.progress[run], k);
    }
  }

  lemma MarkerMeansFiles(d: Deployment, store: Objects, run: string, n: nat)
    requires WellBehaved(d) && run in d.plans && n <= PutCount(d.plans[run])
    requires Shows(d, store, run, d.marker, n) && KeyOf(d, run, d.marker) in store
    ensures AllSafe(d.plans[run]) && Complete(d.plans[run], After(Safe(d, run), d.marker, n))
  {
    hide KeyOf, After, CommitOk, AllSafe, Complete, SafeFiles;
    MarkerMeansComplete(d.plans[run], d.marker, n);
  }

  lemma ShownIsIn(d: Deployment, store: Objects, run: string, n: nat, k: nat)
    requires run in d.plans && n <= |Safe(d, run)| + 1 && k < |d.plans[run]|
    requires Complete(d.plans[run], After(Safe(d, run), d.marker, n)) && SafeRel(d.plans[run][k].0).Some?
    requires Shows(d, store, run, SafeRel(d.plans[run][k].0).value, n)
    ensures FileIn(d, store, run, k)
  {
    hide KeyOf, After, SafeFiles, SafeRel;
    assert Holds(After(Safe(d, run), d.marker, n), d.plans[run][k]);
  }

  lemma OwnerIsRun(d: Deployment, run: string, rel: string)
    requires WellBehaved(d) && Lacks(run, '/') && Owned(d, KeyOf(d, run, rel))
    ensures run in d.plans
  {
    hide Key, DirKey;
    var r, x :| r in d.plans && KeyOf(d, run, rel) == KeyOf(d, r, x);
    KeyInjective(Prefix(d), LocalOf(d, run, rel), LocalOf(d, r, x));
    DirKeyInjective(d.subdir, run, rel, r, x);
  }

  lemma MarkerKey(d: Deployment, run: string)
    requires WellBehaved(d)
    ensures DirKey(ListBase(d.prefix, d.subdir), run, d.marker) == KeyOf(d, run, d.marker)
  {
    hide TrimSlashes, ListBase, WellBehaved;
    AlignedBase(d);
    var p := Prefix(d);
    var tail := d.subdir + "/" + run + "/" + d.marker;
    assert p + "/" + tail == p + "/" + d.subdir + "/" + run + "/" + d.marker;
  }

  lemma BeginCall(d: Deployment, s: State, dir: string, call: Call)
    requires WellBehaved(d) && Inv(d, s) && call.done == 0
    requires forall key :: key in call.keys <==> key in s.store && StartsWith(key, Key(Prefix(d), dir) + "/")
    requires call.whole.Some? ==> Listed(d, s, call.whole.value) && dir == d.subdir + "/" + call.whole.value
    ensures CallOk(d, s.store, s.local, call)
  {
    hide LocalOk, After, Shows, Owned, KeyOf, Key, Listed, WellBehaved, StoreOk, PutCount, SafeRel;
    if call.whole.Some? {
      var run := call.whole.value;
      ListedIsDone(d, s, run);
      forall k | 0 <= k < |d.plans[run]|
        ensures FileIn(d, s.store, run, k) && KeyOf(d, run, SafeRel(d.plans[run][k].0).value) in call.keys
      {
        assert FileIn(d, s.store, run, k);
        UnderRun(d, run, SafeRel(d.plans[run][k].0).value, dir);
      }
    }
  }

  lemma UnderRun(d: Deployment, run: string, rel: string, dir: string)
    requires dir == d.subdir + "/" + run
    ensures StartsWith(KeyOf(d, run, rel), Key(Prefix(d), dir) + "/")
  {
    var head := Key(Prefix(d), dir) + "/";
    assert KeyOf(d, run, rel) == head + rel;
  }

  lemma CopyLocal(d: Deployment, s: State, c: nat, t: State)
    requires Inv(d, s) && Next(d, s, CopyNext(c), t)
    ensures SubMap(s.local, t.local) && LocalOk(d, t.store, t.local)
  {
    hide CallOk, Shows, Owned, Key, StripPrefix;
    var key := s.calls[c].keys[s.calls[c].done];
    assert Owned(d, key);
    OwnedRoundTrip(d, key);
  }

  lemma OwnedRoundTrip(d: Deployment, key: string)
    requires Owned(d, key)
    ensures Key(Prefix(d), StripPrefix(Prefix(d), key)) == key
  {
    hide Key, StripPrefix, LocalOf;
    var run, rel :| run in d.plans && key == KeyOf(d, run, rel);
    KeyRoundTrip(Prefix(d), LocalOf(d, run, rel), key);
  }

  lemma CopyCall(d: Deployment, s: State, c: nat, t: State)
    requires Inv(d, s) && Next(d, s, CopyNext(c), t) && SubMap(s.local, t.local)
    ensures CallOk(d, t.store, t.local, t.calls[c])
  {
    hide LocalOk, StoreOk, KeyOf, StripPrefix, FileIn;
    assert CallOk(d, s.store, s.local, s.calls[c]);
  }

  /** Every step keeps the invariant. */
  lemma StepInv(d: Deployment, s: State, step: Step, t: State)
    requires WellBehaved(d) && Inv(d, s) && Next(d, s, step, t)
    ensures Inv(d, t)
  {
    StoreGrows(d, s, step, t);
    match step
    case PutNext(run) =>
      PutStore(d, s, run, t);
      hide StoreOk, LocalOk, CallOk, KeyOf, Put;
      LocalKept(d, s.store, t.store, s.local);
      forall c | 0 <= c < |t.calls| ensures CallOk(d, t.store, t.local, t.calls[c]) {
        CallKept(d, s.store, t.store, s.local, t.local, s.calls[c]);
      }
    case Begin(dir, call) =>
      BeginCall(d, s, dir, call);
      hide StoreOk, LocalOk, CallOk;
    case CopyNext(c) =>
      CopyLocal(d, s, c, t);
      CopyCall(d, s, c, t);
      hide StoreOk, LocalOk, CallOk, StripPrefix;
      forall k | 0 <= k < |t.calls| ensures CallOk(d, t.store, t.local, t.calls[k]) {
        if k != c { CallKept(d, s.store, t.store, s.local, t.local, s.calls[k]); }
      }
  }

  // ---- Runs -------------------------------------------------------------------------------------------------

  ghost predicate Stepped(d: Deployment, s: State, t: State) { exists step :: Next(d, s, step, t) }

  ghost predicate SteppedAt(d: Deployment, trace: seq<State>, i: int) {
    0 <= i < |trace| - 1 ==> Stepped(d, trace[i], trace[i + 1])
  }

  /** Any interleaving of publishers and readers. */
  ghost predicate Run(d: Deployment, trace: seq<State>) {
    trace != [] && Init(d, trace[0]) && forall i :: SteppedAt(d, trace, i)
  }

  lemma {:induction false} RunInv(d: Deployment, trace: seq<State>, i: nat)
    requires WellBehaved(d) && Run(d, trace) && i < |trace|
    ensures Inv(d, trace[i])
  {
    hide Inv, Next, WellBehaved;
    if i == 0 {
      InitInv(d, trace[0]);
    } else {
      RunInv(d, trace, i - 1);
      assert SteppedAt(d, trace, i - 1);
      var step :| Next(d, trace[i - 1], step, trace[i]);
      StepInv(d, trace[i - 1], step, trace[i]);
    }
  }

  lemma {:induction false} RunGrows(d: Deployment, trace: seq<State>, i: nat, j: nat)
    requires WellBehaved(d) && Run(d, trace) && i <= j < |trace|
    ensures SubMap(trace[i].store, trace[j].store)
    decreases j - i
  {
    hide Inv, Next, WellBehaved;
    if i < j {
      RunGrows(d, trace, i, j - 1);
      RunInv(d, trace, j - 1);
      assert SteppedAt(d, trace, j - 1);
      var step :| Next(d, trace[j - 1], step, trace[j]);
      StoreGrows(d, trace[j - 1], step, trace[j]);
    }
  }

  /** A run that has been listed once has all its files, with their own bytes, for ever after,
      and stays listed. */
  lemma ListedIsComplete(d: Deployment, trace: seq<State>, i: nat, j: nat, run: string)
    requires WellBehaved(d) && Run(d, trace) && i <= j < |trace| && Listed(d, trace[i], run)
    ensures run in d.plans && Listed(d, trace[j], run)
    ensures forall k :: 0 <= k < |d.plans[run]| ==> FileIn(d, trace[j].store, run, k)
  {
    hide Run, KeyOf, Key, DirKey, Inv, ListBase, WellBehaved, SafeRel;
    RunInv(d, trace, i);
    RunGrows(d, trace, i, j);
    ListedIsDone(d, trace[i], run);
    forall k | 0 <= k < |d.plans[run]| ensures FileIn(d, trace[j].store, run, k) {
      assert FileIn(d, trace[i].store, run, k);
    }
  }

  /** A materialised file never differs from the store, now or later, even when it was copied
      before its run was committed. */
  lemma MaterialisedIsFinal(d: Deployment, trace: seq<State>, i: nat, j: nat, p: string)
    requires WellBehaved(d) && Run(d, trace) && i <= j < |trace| && p in trace[i].local
    ensures Key(Prefix(d), p) in trace[j].store && trace[j].store[Key(Prefix(d), p)] == trace[i].local[p]
  {
    hide Run, Key, StoreOk, CallOk;
    RunInv(d, trace, i);
    RunGrows(d, trace, i, j);
  }

  /** A materialisation begun after its run was listed leaves the whole run locally. */
  lemma WholeRunMaterialised(d: Deployment, trace: seq<State>, i: nat, c: nat, k: nat)
    requires WellBehaved(d) && Run(d, trace) && i < |trace| && c < |trace[i].calls|
    requires var call := trace[i].calls[c];
             call.done == |call.keys| && call.whole.Some? && call.whole.value in d.plans
             && k < |d.plans[call.whole.value]|
    ensures var run := trace[i].calls[c].whole.value;
            var (path, bytes) := d.plans[run][k];
            && SafeRel(path).Some?
            && LocalOf(d, run, SafeRel(path).value) in trace[i].local
            && trace[i].local[LocalOf(d, run, SafeRel(path).value)] == bytes
  {
    hide Run, DirKey, LocalOf, Inv, WellBehaved, SafeRel;
    RunInv(d, trace, i);
    var s, call := trace[i], trace[i].calls[c];
    var run := call.whole.value;
    CallListsAll(d, s, c, k);
    var rel := SafeRel(d.plans[run][k].0).value;
    var n :| 0 <= n < |call.keys| && call.keys[n] == KeyOf(d, run, rel);
    KeyRoundTrip(Prefix(d), LocalOf(d, run, rel), "");
    CallCopied(d, s, c, n);
  }

  lemma CallListsAll(d: Deployment, s: State, c: nat, k: nat)
    requires Inv(d, s) && c < |s.calls| && s.calls[c].whole.Some? && s.calls[c].whole.value in d.plans
    requires k < |d.plans[s.calls[c].whole.value]|
    ensures FileIn(d, s.store, s.calls[c].whole.value, k)
    ensures KeyOf(d, s.calls[c].whole.value, SafeRel(d.plans[s.calls[c].whole.value][k].0).value) in s.calls[c].keys
  {
    hide Key, StoreOk, LocalOk, FileIn;
    assert CallOk(d, s.store, s.local, s.calls[c]);
  }

  lemma CallCopied(d: Deployment, s: State, c: nat, n: nat)
    requires Inv(d, s) && c < |s.calls| && s.calls[c].done == |s.calls[c].keys| && n < |s.calls[c].keys|
    ensures var p := StripPrefix(Prefix(d), s.calls[c].keys[n]);
            p in s.local && Key(Prefix(d), p) in s.store && s.store[Key(Prefix(d), p)] == s.local[p]
  {
    hide StoreOk, Key, StripPrefix;
    assert CallOk(d, s.store, s.local, s.calls[c]);
  }
}
