/** Dropping tasks no qualified operator can take, and pairing the others with backups
    (src/fl_op/solver/enforcement.py, apply_operator_qualification). */
module OperatorQualification {
  import opened Wrappers
  import opened Ordering
  import opened Tables
  import opened Calendar
  import opened BackupOperators

  const ROUTING_HORIZON_S := 30 * 24 * 3600

  class Cluster {
    const clusterId: Id
    /** "" when the cluster has no operator. */
    const operatorRef: Id
    const hasPrimes: bool
    var taskIds: seq<Id>
    var taskOperators: map<Id, Id>
    var sharedBackups: seq<Id>

    constructor (clusterId: Id, operatorRef: Id, hasPrimes: bool, taskIds: seq<Id>)
      ensures this.clusterId == clusterId && this.operatorRef == operatorRef && this.hasPrimes == hasPrimes
      ensures this.taskIds == taskIds && taskOperators == map[] && sharedBackups == []
    {
      this.clusterId, this.operatorRef, this.hasPrimes := clusterId, operatorRef, hasPrimes;
      this.taskIds, taskOperators, sharedBackups := taskIds, map[], [];
    }

    predicate Processed() { hasPrimes || operatorRef != "" }
  }

  type Orders = map<Id, Order>

  function OperationOf(orders: Orders, task: Id): Option<string> {
    if task in orders then orders[task].operation else None
  }

  predicate CertifiedHere(orders: Orders, certified: set<string>, task: Id) {
    OperationOf(orders, task).Some? && OperationOf(orders, task).value in certified
  }

  /** What the operator of that id is certified for; nothing for an id that is not listed. */
  ghost predicate Certificates(operators: seq<(Id, set<string>)>, id: Id, certified: set<string>) {
    || (certified == {} && forall k :: 0 <= k < |operators| ==> operators[k].0 != id)
    || (exists k :: 0 <= k < |operators| && operators[k].0 == id && certified == operators[k].1
                    && forall j :: 0 <= j < k ==> operators[j].0 != id)
  }

  lemma {:induction false} CertificatesAre(operators: seq<(Id, set<string>)>, id: Id)
    ensures Certificates(operators, id, CertifiedOf(operators, id))
  {
    if operators != [] && operators[0].0 != id {
      var rest := operators[1..];
      CertificatesAre(rest, id);
      if k :| 0 <= k < |rest| && rest[k].0 == id && CertifiedOf(rest, id) == rest[k].1
              && forall j :: 0 <= j < k ==> rest[j].0 != id {
        forall j | 0 <= j < k + 1 ensures operators[j].0 != id { assert j > 0 ==> operators[j] == rest[j - 1]; }
        assert operators[k + 1] == rest[k];
      } else {
        forall j | 0 <= j < |operators| ensures operators[j].0 != id { assert j > 0 ==> operators[j] == rest[j - 1]; }
      }
    }
  }

  function CertifiedOf(operators: seq<(Id, set<string>)>, id: Id): set<string> {
    if operators == [] then {}
    else if operators[0].0 == id then operators[0].1
    else CertifiedOf(operators[1..], id)
  }

  /** A task stays when the cluster's operator or a claimed backup can take it. */
  predicate Keeps(orders: Orders, certified: set<string>, backups: map<string, Id>, task: Id) {
    || CertifiedHere(orders, certified, task)
    || (OperationOf(orders, task).Some? && OperationOf(orders, task).value in backups)
  }

  function Select(tasks: seq<Id>, orders: Orders, certified: set<string>, backups: map<string, Id>, kept: bool): seq<Id> {
    if tasks == [] then []
    else
      var last := tasks[|tasks| - 1];
      Select(tasks[..|tasks| - 1], orders, certified, backups, kept)
      + (if Keeps(orders, certified, backups, last) == kept then [last] else [])
  }

  /** Each task is kept or dropped exactly once. */
  lemma {:induction false} SelectPartitions(tasks: seq<Id>, orders: Orders, certified: set<string>, backups: map<string, Id>)
    ensures multiset(Select(tasks, orders, certified, backups, true))
            + multiset(Select(tasks, orders, certified, backups, false)) == multiset(tasks)
  {
    hide Keeps;
    if tasks != [] {
      var front, last := tasks[..|tasks| - 1], tasks[|tasks| - 1];
      SelectPartitions(front, orders, certified, backups);
      assert tasks == front + [last];
    }
  }

  lemma {:induction false} SelectedMembers(tasks: seq<Id>, orders: Orders, certified: set<string>, backups: map<string, Id>,
                                           kept: bool, t: Id)
    ensures t in Select(tasks, orders, certified, backups, kept) <==>
            t in tasks && Keeps(orders, certified, backups, t) == kept
  {
    hide Keeps;
    if tasks != [] {
      var front, last := tasks[..|tasks| - 1], tasks[|tasks| - 1];
      SelectedMembers(front, orders, certified, backups, kept, t);
      assert tasks == front + [last];
    }
  }

  // ---- What one cluster's pass leaves behind ---------------------------------------------------

  function RowOrders(orders: Orders, tasks: seq<Id>): seq<Option<Order>> {
    seq(|tasks|, k requires 0 <= k < |tasks| => if tasks[k] in orders then Some(orders[tasks[k]]) else None)
  }

  /** Some of the tasks is known and can be worked on at t. */
  ghost predicate SomeTaskWorkable(orders: Orders, tasks: seq<Id>, t: int) {
    exists task :: task in tasks && task in orders && Workable(orders[task], t)
  }

  /** A backup for the tasks is needed whenever one of them is workable inside the horizon, and for
      the whole horizon when a task is unknown or has no window, or when none is ever workable. */
  ghost predicate IsTaskDemand(env: Env, orders: Orders, tasks: seq<Id>, demand: seq<Span>) {
    var untimed := (exists task :: task in tasks && (task !in orders || orders[task].windows == []))
                   || (forall t :: env.now <= t < env.horizonEnd ==> !SomeTaskWorkable(orders, tasks, t));
    demand != [] && forall t :: Covers(demand, t) <==>
      env.now <= t < env.horizonEnd && (untimed || SomeTaskWorkable(orders, tasks, t))
  }

  lemma RowsWorkable(orders: Orders, tasks: seq<Id>, t: int)
    ensures SomeWorkable(RowOrders(orders, tasks), t) <==> SomeTaskWorkable(orders, tasks, t)
  {
    hide Workable;
    var rows := RowOrders(orders, tasks);
    if k :| 0 <= k < |rows| && rows[k].Some? && Workable(rows[k].value, t) { assert tasks[k] in tasks; }
    if task :| task in tasks && task in orders && Workable(orders[task], t) {
      var k :| 0 <= k < |tasks| && tasks[k] == task;
      assert rows[k] == Some(orders[task]);
    }
  }

  lemma RowsDemand(env: Env, orders: Orders, tasks: seq<Id>, demand: seq<Span>)
    requires IsDemand(env, RowOrders(orders, tasks), demand)
    ensures IsTaskDemand(env, orders, tasks, demand)
  {
    hide Covers, SomeWorkable, SomeTaskWorkable;
    var rows := RowOrders(orders, tasks);
    forall t ensures SomeWorkable(rows, t) <==> SomeTaskWorkable(orders, tasks, t) { RowsWorkable(orders, tasks, t); }
    if task :| task in tasks && (task !in orders || orders[task].windows == []) {
      var k :| 0 <= k < |tasks| && tasks[k] == task;
      assert rows[k].None? || rows[k].value.windows == [];
    }
    if k :| 0 <= k < |rows| && (rows[k].None? || rows[k].value.windows == []) {
      assert tasks[k] in tasks && (tasks[k] !in orders || orders[tasks[k]].windows == []);
    }
    forall t ensures Covers(demand, t) <==> Needed(env, rows, t) {}
  }

  /** tasks are the cluster's tasks that need a backup for operation. */
  ghost predicate NeedBackup(orders: Orders, certified: set<string>, all: seq<Id>, operation: string, tasks: seq<Id>) {
    forall t :: t in tasks <==>
      t in all && !CertifiedHere(orders, certified, t) && OperationOf(orders, t) == Some(operation)
  }

  /** The log holds the call made for this cluster and operation, with this answer. */
  ghost predicate Answered(env: Env, orders: Orders, certified: set<string>, all: seq<Id>, log: seq<Attempt>,
                           cluster: Id, operation: string, answer: Option<Id>)
  {
    exists j, tasks ::
      && 0 <= j < |log| && log[j].cluster == cluster && log[j].operation == operation && log[j].chosen == answer
      && NeedBackup(orders, certified, all, operation, tasks)
      && IsTaskDemand(env, orders, tasks, log[j].demand)
  }

  datatype Outcome = Outcome(before: seq<Id>, kept: seq<Id>, dropped: seq<Id>, certified: set<string>,
                             backups: map<string, Id>, pairing: map<Id, Id>)

  ghost predicate OutcomeOk(env: Env, orders: Orders, log: seq<Attempt>, cluster: Id, o: Outcome) {
    && o.kept == Select(o.before, orders, o.certified, o.backups, true)
    && o.dropped == Select(o.before, orders, o.certified, o.backups, false)
    && (forall operation :: operation in o.backups ==>
          Answered(env, orders, o.certified, o.before, log, cluster, operation, Some(o.backups[operation])))
    && (forall t :: t in o.dropped && OperationOf(orders, t).Some? ==>
          Answered(env, orders, o.certified, o.before, log, cluster, OperationOf(orders, t).value, None))
    && (forall t :: t in o.pairing <==> t in o.kept && !CertifiedHere(orders, o.certified, t))
    && (forall t :: t in o.pairing ==>
          OperationOf(orders, t).Some? && OperationOf(orders, t).value in o.backups
          && o.pairing[t] == o.backups[OperationOf(orders, t).value])
  }

  lemma AnsweredGrows(env: Env, orders: Orders, certified: set<string>, all: seq<Id>, log: seq<Attempt>,
                      more: seq<Attempt>, cluster: Id, operation: string, answer: Option<Id>)
    requires Answered(env, orders, certified, all, log, cluster, operation, answer)
    ensures Answered(env, orders, certified, all, log + more, cluster, operation, answer)
  {
    var j, tasks :| 0 <= j < |log| && log[j].cluster == cluster && log[j].operation == operation
                    && log[j].chosen == answer && NeedBackup(orders, certified, all, operation, tasks)
                    && IsTaskDemand(env, orders, tasks, log[j].demand);
    assert (log + more)[j] == log[j];
  }

  lemma OutcomeGrows(env: Env, orders: Orders, log: seq<Attempt>, more: seq<Attempt>, cluster: Id, o: Outcome)
    requires OutcomeOk(env, orders, log, cluster, o)
    ensures OutcomeOk(env, orders, log + more, cluster, o)
  {
    hide Answered, Select;
    forall operation | operation in o.backups
      ensures Answered(env, orders, o.certified, o.before, log + more, cluster, operation, Some(o.backups[operation]))
    {
      AnsweredGrows(env, orders, o.certified, o.before, log, more, cluster, operation, Some(o.backups[operation]));
    }
    forall t | t in o.dropped && OperationOf(orders, t).Some?
      ensures Answered(env, orders, o.certified, o.before, log + more, cluster, OperationOf(orders, t).value, None)
    {
      AnsweredGrows(env, orders, o.certified, o.before, log, more, cluster, OperationOf(orders, t).value, None);
    }
  }

  // ---- Theorems --------------------------------------------------------------------------------

  /** A kept task is taken by the cluster's own operator or by a backup that is certified for
      its operation and is no cluster's prime operator. */
  lemma KeptIsCovered(env: Env, orders: Orders, log: seq<Attempt>, cluster: Id, o: Outcome, t: Id)
    requires ValidLog(env, log) && OutcomeOk(env, orders, log, cluster, o) && t in o.kept
    ensures t in o.before && t in orders && orders[t].operation.Some?
    ensures orders[t].operation.value in o.certified <==> t !in o.pairing
    ensures t in o.pairing ==>
              && o.pairing[t] !in env.mainClaimed
              && exists k: nat :: k < |env.operators| && env.operators[k].0 == o.pairing[t]
                                  && orders[t].operation.value in env.operators[k].1
  {
    SelectedMembers(o.before, orders, o.certified, o.backups, true, t);
    if t in o.pairing {
      var operation := OperationOf(orders, t).value;
      assert Answered(env, orders, o.certified, o.before, log, cluster, operation, Some(o.backups[operation]));
      var j :| 0 <= j < |log| && log[j].operation == operation && log[j].chosen == Some(o.backups[operation]);
      ChosenIsQualified(env, log, j);
    }
  }

  /** What the cluster's own operator is certified for stays with the cluster, without a backup. */
  lemma OwnTasksStay(env: Env, orders: Orders, log: seq<Attempt>, cluster: Id, o: Outcome, t: Id)
    requires OutcomeOk(env, orders, log, cluster, o) && t in o.before
    requires t in orders && orders[t].operation.Some? && orders[t].operation.value in o.certified
    ensures t in o.kept && t !in o.dropped && t !in o.pairing
  {
    SelectedMembers(o.before, orders, o.certified, o.backups, true, t);
    SelectedMembers(o.before, orders, o.certified, o.backups, false, t);
  }

  /** A task that is not known, or whose operation is not, is dropped. */
  lemma UnknownIsDropped(env: Env, orders: Orders, log: seq<Attempt>, cluster: Id, o: Outcome, t: Id)
    requires OutcomeOk(env, orders, log, cluster, o) && t in o.before
    requires t !in orders || orders[t].operation.None?
    ensures t in o.dropped && t !in o.kept
  {
    SelectedMembers(o.before, orders, o.certified, o.backups, true, t);
    SelectedMembers(o.before, orders, o.certified, o.backups, false, t);
  }

  /** Kept and dropped tasks come in their order. */
  lemma {:induction false} SelectFilters(tasks: seq<Id>, orders: Orders, certified: set<string>, backups: map<string, Id>,
                                         kept: bool)
    ensures Select(tasks, orders, certified, backups, kept)
            == Filter((t: Id) => Keeps(orders, certified, backups, t) == kept, tasks)
  {
    hide Keeps;
    if tasks != [] {
      var front, last := tasks[..|tasks| - 1], tasks[|tasks| - 1];
      SelectFilters(front, orders, certified, backups, kept);
      FilterLast((t: Id) => Keeps(orders, certified, backups, t) == kept, front, last);
      assert tasks == front + [last];
    }
  }

  /** With overlap sharing off, a task with a known operation is dropped only when every
      qualified operator was already reserved at some instant its rows need one. */
  lemma DroppedOnlyIfNoneFree(env: Env, orders: Orders, log: seq<Attempt>, cluster: Id, o: Outcome, t: Id)
    returns (j: nat, rows: seq<Id>)
    requires ValidLog(env, log) && OutcomeOk(env, orders, log, cluster, o) && !env.allowOverlap
    requires t in o.dropped && OperationOf(orders, t).Some?
    ensures j < |log| && log[j].cluster == cluster && log[j].operation == OperationOf(orders, t).value
    ensures t in rows && IsTaskDemand(env, orders, rows, log[j].demand)
    ensures forall k: nat :: Candidate(env, log[j].operation, k) ==>
                               Taken(log[..j], env.operators[k].0, log[j].demand)
  {
    hide IsTaskDemand, ValidLog, Taken, Candidate;
    assert Answered(env, orders, o.certified, o.before, log, cluster, OperationOf(orders, t).value, None);
    j, rows :| 0 <= j < |log| && log[j].cluster == cluster && log[j].operation == OperationOf(orders, t).value
               && log[j].chosen == None && NeedBackup(orders, o.certified, o.before, log[j].operation, rows)
               && IsTaskDemand(env, orders, rows, log[j].demand);
    SelectedMembers(o.before, orders, o.certified, o.backups, false, t);
    RefusedIffNoneFree(env, log, j);
  }

  /** With the planner's capacities that is every certified operator who is nobody's prime one. */
  lemma DroppedOnlyIfQualifiedTaken(env: Env, orders: Orders, log: seq<Attempt>, cluster: Id, o: Outcome, t: Id)
    returns (j: nat, rows: seq<Id>)
    requires UnitCapacities(env)
    requires ValidLog(env, log) && OutcomeOk(env, orders, log, cluster, o) && !env.allowOverlap
    requires t in o.dropped && OperationOf(orders, t).Some?
    ensures j < |log| && log[j].cluster == cluster && log[j].operation == OperationOf(orders, t).value
    ensures t in rows && IsTaskDemand(env, orders, rows, log[j].demand)
    ensures forall k: nat :: Qualified(env, log[j].operation, k) ==>
                               Taken(log[..j], env.operators[k].0, log[j].demand)
  {
    hide IsTaskDemand, ValidLog, Taken, OutcomeOk;
    j, rows := DroppedOnlyIfNoneFree(env, orders, log, cluster, o, t);
    forall k: nat | Qualified(env, log[j].operation, k) ensures Taken(log[..j], env.operators[k].0, log[j].demand) {
      QualifiedIsCandidate(env, log[j].operation, k);
    }
  }

  // ---- First pass: needs ------------------------------------------------------------------------

  method GatherNeeds(tasks: seq<Id>, orders: Orders, certified: set<string>)
    returns (operations: seq<string>, needs: map<string, seq<Id>>)
    ensures Distinct(operations) && forall op :: op in operations <==> op in needs
    ensures forall op :: op in needs ==> NeedBackup(orders, certified, tasks, op, needs[op])
    ensures forall t :: t in tasks && !CertifiedHere(orders, certified, t) && OperationOf(orders, t).Some? ==>
                          OperationOf(orders, t).value in needs
  {
    operations, needs := [], map[];
    for k := 0 to |tasks|
      invariant Distinct(operations) && forall op :: op in operations <==> op in needs
      invariant forall op, t :: InTable(needs, op, t) <==>
                  t in tasks[..k] && !CertifiedHere(orders, certified, t) && OperationOf(orders, t) == Some(op)
    {
      var task := tasks[k];
      assert tasks[..k + 1] == tasks[..k] + [task];
      ghost var before := needs;
      var operation := OperationOf(orders, task);
      if !CertifiedHere(orders, certified, task) && operation.Some? {
        if operation.value !in needs { operations := operations + [operation.value]; }
        needs := AppendTo(needs, operation.value, task);
        forall op, t ensures InTable(needs, op, t) <==> InTable(before, op, t) || (op == operation.value && t == task) {
          AppendToAdds(before, operation.value, task, op, t);
        }
      }
    }
    assert tasks[..|tasks|] == tasks;
    assert forall op, t :: op in needs && t in needs[op] ==> InTable(needs, op, t);
    forall t | t in tasks && !CertifiedHere(orders, certified, t) && OperationOf(orders, t).Some?
      ensures OperationOf(orders, t).value in needs
    {
      assert InTable(needs, OperationOf(orders, t).value, t);
    }
    forall op | op in needs ensures NeedBackup(orders, certified, tasks, op, needs[op]) {
      assert forall t :: t in needs[op] <==> InTable(needs, op, t);
    }
  }

  // ---- Claims for one cluster --------------------------------------------------------------------

  ghost predicate ClaimedBy(log: seq<Attempt>, op: Id, cluster: Id) {
    exists j :: 0 <= j < |log| && log[j].cluster == cluster && log[j].chosen == Some(op)
  }

  ghost predicate OverlapClaimed(log: seq<Attempt>, op: Id) {
    exists j :: 0 <= j < |log| && log[j].chosen == Some(op) && log[j].overlap
  }

  /** operator_claimants and operator_overlap tell who claimed what in the log. */
  ghost predicate Registered(log: seq<Attempt>, claimants: map<Id, seq<Id>>, overlap: set<Id>) {
    && (forall op, c :: InTable(claimants, op, c) <==> ClaimedBy(log, op, c))
    && (forall op :: op in overlap <==> OverlapClaimed(log, op))
  }

  function Register(claimants: map<Id, seq<Id>>, op: Id, cluster: Id): map<Id, seq<Id>> {
    if op in claimants && cluster in claimants[op] then claimants else AppendTo(claimants, op, cluster)
  }

  function RegisterAll(claimants: map<Id, seq<Id>>, chosen: Option<Id>, cluster: Id): map<Id, seq<Id>> {
    if chosen.Some? then Register(claimants, chosen.value, cluster) else claimants
  }

  function NoteOverlap(overlap: set<Id>, chosen: Option<Id>, isOverlap: bool): set<Id> {
    if chosen.Some? && isOverlap then overlap + {chosen.value} else overlap
  }

  lemma ClaimedByNext(log: seq<Attempt>, a: Attempt, op: Id, c: Id)
    ensures ClaimedBy(log + [a], op, c) <==> ClaimedBy(log, op, c) || (a.cluster == c && a.chosen == Some(op))
    ensures OverlapClaimed(log + [a], op) <==> OverlapClaimed(log, op) || (a.chosen == Some(op) && a.overlap)
  {
    var next := log + [a];
    assert next[|log|] == a;
    assert forall j :: 0 <= j < |log| ==> next[j] == log[j];
  }

  lemma RegisterNext(log: seq<Attempt>, a: Attempt, claimants: map<Id, seq<Id>>, overlap: set<Id>)
    requires Registered(log, claimants, overlap)
    ensures Registered(log + [a], RegisterAll(claimants, a.chosen, a.cluster), NoteOverlap(overlap, a.chosen, a.overlap))
  {
    hide ClaimedBy, OverlapClaimed;
    forall op, c
      ensures InTable(RegisterAll(claimants, a.chosen, a.cluster), op, c) <==> ClaimedBy(log + [a], op, c)
    {
      ClaimedByNext(log, a, op, c);
      if a.chosen.Some? { AppendToAdds(claimants, a.chosen.value, a.cluster, op, c); }
    }
    forall op ensures op in NoteOverlap(overlap, a.chosen, a.overlap) <==> OverlapClaimed(log + [a], op) {
      ClaimedByNext(log, a, op, "");
    }
  }

  /** Every operation among ops had its call made, and backups holds the answers. */
  ghost predicate AllAnswered(env: Env, orders: Orders, certified: set<string>, tasks: seq<Id>, log: seq<Attempt>,
                              cluster: Id, ops: seq<string>, backups: map<string, Id>)
  {
    && (forall op :: op in backups ==> op in ops)
    && (forall op :: op in ops ==>
          Answered(env, orders, certified, tasks, log, cluster, op, if op in backups then Some(backups[op]) else None))
  }

  lemma AnswerNext(env: Env, orders: Orders, certified: set<string>, tasks: seq<Id>, log: seq<Attempt>, a: Attempt,
                   ops: seq<string>, backups: map<string, Id>, rows: seq<Id>)
    requires AllAnswered(env, orders, certified, tasks, log, a.cluster, ops, backups) && a.operation !in ops
    requires NeedBackup(orders, certified, tasks, a.operation, rows)
    requires IsTaskDemand(env, orders, rows, a.demand)
    ensures AllAnswered(env, orders, certified, tasks, log + [a], a.cluster, ops + [a.operation],
                        if a.chosen.Some? then backups[a.operation := a.chosen.value] else backups)
  {
    hide IsTaskDemand, NeedBackup;
    assert Answered(env, orders, certified, tasks, log + [a], a.cluster, a.operation, a.chosen) by {
      assert (log + [a])[|log|] == a;
    }
    hide Answered;
    forall op | op in ops
      ensures Answered(env, orders, certified, tasks, log + [a], a.cluster, op,
                       if op in backups then Some(backups[op]) else None)
    {
      AnsweredGrows(env, orders, certified, tasks, log, [a], a.cluster, op,
                    if op in backups then Some(backups[op]) else None);
    }
  }

  lemma NothingAnswered(env: Env, orders: Orders, certified: set<string>, tasks: seq<Id>, log: seq<Attempt>, cluster: Id,
                        none: seq<string>)
    requires none == []
    ensures AllAnswered(env, orders, certified, tasks, log, cluster, none, map[])
  {
  }

  method ClaimBackups(env: Env, ledger: Ledger, clusterId: Id, orders: Orders, ghost certified: set<string>,
                      ghost tasks: seq<Id>, operations: seq<string>, needs: map<string, seq<Id>>,
                      claimants0: map<Id, seq<Id>>, overlap0: set<Id>)
    returns (backups: map<string, Id>, claimants: map<Id, seq<Id>>, overlap: set<Id>)
    requires ledger.Valid(env) && env.now < env.horizonEnd && Registered(ledger.log, claimants0, overlap0)
    requires Distinct(operations) && forall op :: op in operations <==> op in needs
    requires forall op :: op in needs ==> NeedBackup(orders, certified, tasks, op, needs[op])
    modifies ledger
    ensures ledger.Valid(env) && old(ledger.log) <= ledger.log && Registered(ledger.log, claimants, overlap)
    ensures AllAnswered(env, orders, certified, tasks, ledger.log, clusterId, operations, backups)
  {
    hide Ledger.Valid, IsDemand, IsTaskDemand, NeedBackup, Registered, AllAnswered, RegisterAll, NoteOverlap;
    backups, claimants, overlap := map[], claimants0, overlap0;
    NothingAnswered(env, orders, certified, tasks, ledger.log, clusterId, operations[..0]);
    for k := 0 to |operations|
      invariant ledger.Valid(env) && old(ledger.log) <= ledger.log && Registered(ledger.log, claimants, overlap)
      invariant AllAnswered(env, orders, certified, tasks, ledger.log, clusterId, operations[..k], backups)
    {
      var op := operations[k];
      ghost var log := ledger.log;
      assert op in needs && operations[..k + 1] == operations[..k] + [op] && op !in operations[..k];
      var demand := DemandWindow(env, RowOrders(orders, needs[op]));
      DemandIsUsable(env, RowOrders(orders, needs[op]), demand);
      RowsDemand(env, orders, needs[op], demand);
      var chosen, isOverlap := ledger.Claim(env, clusterId, op, demand);
      ghost var a := Attempt(clusterId, op, demand, chosen, isOverlap);
      RegisterNext(log, a, claimants, overlap);
      AnswerNext(env, orders, certified, tasks, log, a, operations[..k], backups, needs[op]);
      claimants := RegisterAll(claimants, chosen, clusterId);
      overlap := NoteOverlap(overlap, chosen, isOverlap);
      if chosen.Some? { backups := backups[op := chosen.value]; }
    }
    assert operations[..|operations|] == operations;
  }

  lemma DemandIsUsable(env: Env, orders: seq<Option<Order>>, demand: seq<Span>)
    requires IsDemand(env, orders, demand)
    ensures Canonical(demand) && demand != []
  {
  }

  // ---- Second pass over one cluster ---------------------------------------------------------------

  /** task_operators maps each kept task the cluster's operator cannot take to its backup. */
  ghost predicate Paired(orders: Orders, certified: set<string>, backups: map<string, Id>, kept: seq<Id>,
                         pairing: map<Id, Id>)
  {
    && (forall t :: t in pairing <==> t in kept && !CertifiedHere(orders, certified, t))
    && (forall t :: t in pairing ==>
          OperationOf(orders, t).Some? && OperationOf(orders, t).value in backups
          && pairing[t] == backups[OperationOf(orders, t).value])
  }

  method Assign(tasks: seq<Id>, orders: Orders, certified: set<string>, backups: map<string, Id>)
    returns (kept: seq<Id>, dropped: seq<Id>, pairing: map<Id, Id>)
    ensures kept == Select(tasks, orders, certified, backups, true)
    ensures dropped == Select(tasks, orders, certified, backups, false)
    ensures Paired(orders, certified, backups, kept, pairing)
  {
    kept, dropped, pairing := [], [], map[];
    for k := 0 to |tasks|
      invariant kept == Select(tasks[..k], orders, certified, backups, true)
      invariant dropped == Select(tasks[..k], orders, certified, backups, false)
      invariant Paired(orders, certified, backups, kept, pairing)
    {
      var task := tasks[k];
      assert tasks[..k + 1][..k] == tasks[..k] && tasks[..k + 1][k] == task;
      var operation := OperationOf(orders, task);
      if CertifiedHere(orders, certified, task) {
        kept := kept + [task];
      } else if operation.Some? && operation.value in backups {
        pairing := pairing[task := backups[operation.value]];
        kept := kept + [task];
      } else {
        dropped := dropped + [task];
      }
    }
    assert tasks[..|tasks|] == tasks;
  }

  lemma OutcomeHolds(env: Env, orders: Orders, log: seq<Attempt>, cluster: Id, operations: seq<string>, o: Outcome)
    requires AllAnswered(env, orders, o.certified, o.before, log, cluster, operations, o.backups)
    requires forall t :: t in o.before && !CertifiedHere(orders, o.certified, t) && OperationOf(orders, t).Some? ==>
                           OperationOf(orders, t).value in operations
    requires o.kept == Select(o.before, orders, o.certified, o.backups, true)
    requires o.dropped == Select(o.before, orders, o.certified, o.backups, false)
    requires Paired(orders, o.certified, o.backups, o.kept, o.pairing)
    ensures OutcomeOk(env, orders, log, cluster, o)
  {
    hide Answered, Select;
    forall t | t in o.dropped && OperationOf(orders, t).Some?
      ensures Answered(env, orders, o.certified, o.before, log, cluster, OperationOf(orders, t).value, None)
    {
      SelectedMembers(o.before, orders, o.certified, o.backups, false, t);
    }
  }

  /** The body of the loop over clusters. */
  method Qualify(env: Env, ledger: Ledger, orders: Orders, c: Cluster, claimants0: map<Id, seq<Id>>, overlap0: set<Id>)
    returns (o: Outcome, claimants: map<Id, seq<Id>>, overlap: set<Id>)
    requires ledger.Valid(env) && env.now < env.horizonEnd && Registered(ledger.log, claimants0, overlap0)
    modifies ledger, c`taskIds, c`taskOperators
    ensures ledger.Valid(env) && old(ledger.log) <= ledger.log && Registered(ledger.log, claimants, overlap)
    ensures OutcomeOk(env, orders, ledger.log, c.clusterId, o)
    ensures o.before == old(c.taskIds) && o.certified == CertifiedOf(env.operators, c.operatorRef)
    ensures c.taskIds == o.kept
    ensures c.taskOperators == if o.pairing == map[] then old(c.taskOperators) else o.pairing
  {
    hide Ledger.Valid, NeedBackup, Registered, AllAnswered, Paired, OutcomeOk, Select;
    var tasks, certified := c.taskIds, CertifiedOf(env.operators, c.operatorRef);
    var operations, needs := GatherNeeds(tasks, orders, certified);
    var backups;
    backups, claimants, overlap :=
      ClaimBackups(env, ledger, c.clusterId, orders, certified, tasks, operations, needs, claimants0, overlap0);
    var kept, dropped, pairing := Assign(tasks, orders, certified, backups);
    o := Outcome(tasks, kept, dropped, certified, backups, pairing);
    OutcomeHolds(env, orders, ledger.log, c.clusterId, operations, o);
    c.taskIds := kept;
    if pairing != map[] { c.taskOperators := pairing; }
  }

  // ---- Stamping ---------------------------------------------------------------------------------

  /** clusters_by_id */
  ghost predicate Indexed(byId: map<Id, Cluster>, clusters: seq<Cluster>) {
    && (forall id :: id in byId ==> byId[id] in clusters && byId[id].clusterId == id)
    && (forall c :: c in clusters ==> c.clusterId in byId)
  }

  method IndexClusters(clusters: seq<Cluster>) returns (byId: map<Id, Cluster>)
    ensures Indexed(byId, clusters)
  {
    byId := map[];
    for k := 0 to |clusters|
      invariant Indexed(byId, clusters[..k])
    {
      byId := byId[clusters[k].clusterId := clusters[k]];
      assert clusters[..k + 1] == clusters[..k] + [clusters[k]];
    }
    assert clusters[..|clusters|] == clusters;
  }

  ghost function SharedOf(byId: map<Id, Cluster>): (r: map<Id, seq<Id>>)
    reads byId.Values
    ensures r.Keys == byId.Keys
  {
    map id | id in byId :: byId[id].sharedBackups
  }

  /** The claimants of the operators in done have been stamped with them, and nothing else happened. */
  ghost predicate Stamped(before: map<Id, seq<Id>>, after: map<Id, seq<Id>>, claimants: map<Id, seq<Id>>, done: set<Id>) {
    && before.Keys == after.Keys
    && (forall id, x :: id in after ==>
          (x in after[id] <==> x in before[id] || (x in done && InTable(claimants, x, id))))
  }

  /** Stamp one overlap-shared operator on its claimants. */
  method StampOne(byId: map<Id, Cluster>, op: Id, row: seq<Id>)
    requires forall id :: id in byId ==> byId[id].clusterId == id
    modifies byId.Values`sharedBackups
    ensures forall id, x :: id in byId ==>
              (x in byId[id].sharedBackups <==> x in old(byId[id].sharedBackups) || (x == op && id in row))
  {
    for k := 0 to |row|
      invariant forall id, x :: id in byId ==>
                  (x in byId[id].sharedBackups <==> x in old(byId[id].sharedBackups) || (x == op && id in row[..k]))
    {
      assert row[..k + 1] == row[..k] + [row[k]];
      if row[k] in byId {
        var claimant := byId[row[k]];
        if op !in claimant.sharedBackups {
          claimant.sharedBackups := claimant.sharedBackups + [op];
        }
      }
    }
    assert row[..|row|] == row;
  }

  lemma StampNext(before: map<Id, seq<Id>>, mid: map<Id, seq<Id>>, after: map<Id, seq<Id>>,
                  claimants: map<Id, seq<Id>>, done: set<Id>, op: Id)
    requires Stamped(before, mid, claimants, done) && after.Keys == mid.Keys
    requires forall id, x :: id in after ==> (x in after[id] <==> x in mid[id] || (x == op && InTable(claimants, op, id)))
    ensures Stamped(before, after, claimants, done + {op})
  {
    hide InTable;
  }

  method Stamp(byId: map<Id, Cluster>, claimants: map<Id, seq<Id>>, overlap: set<Id>)
    requires forall id :: id in byId ==> byId[id].clusterId == id
    modifies byId.Values`sharedBackups
    ensures Stamped(old(SharedOf(byId)), SharedOf(byId), claimants, overlap)
  {
    hide Stamped;
    ghost var start, done := SharedOf(byId), {};
    var todo := overlap;
    NothingStamped(start, claimants);
    while todo != {}
      invariant todo <= overlap && done == overlap - todo
      invariant Stamped(start, SharedOf(byId), claimants, done)
      decreases |todo|
    {
      var op :| op in todo;
      ghost var mid := SharedOf(byId);
      var row := if op in claimants then claimants[op] else [];
      StampOne(byId, op, row);
      assert forall id :: id in byId ==> (id in row <==> InTable(claimants, op, id));
      StampNext(start, mid, SharedOf(byId), claimants, done, op);
      todo, done := todo - {op}, done + {op};
    }
    assert done == overlap;
  }

  lemma NothingStamped(before: map<Id, seq<Id>>, claimants: map<Id, seq<Id>>)
    ensures Stamped(before, before, claimants, {})
  {
  }

  // ---- The whole pass ------------------------------------------------------------------------------

  /** The infeasible records: every dropped task with its cluster, in processing order. */
  function Refusals(clusters: seq<Cluster>, outcomes: seq<Option<Outcome>>): seq<(Id, Id)>
    requires |outcomes| <= |clusters|
  {
    if outcomes == [] then []
    else
      var k := |outcomes| - 1;
      Refusals(clusters, outcomes[..k])
      + (if outcomes[k].Some? then Tagged(outcomes[k].value.dropped, clusters[k].clusterId) else [])
  }

  ghost predicate Drops(c: Cluster, o: Option<Outcome>, t: Id, id: Id) {
    id == c.clusterId && o.Some? && t in o.value.dropped
  }

  lemma {:induction false} RefusalsAre(clusters: seq<Cluster>, outcomes: seq<Option<Outcome>>, t: Id, id: Id)
    requires |outcomes| <= |clusters|
    ensures (t, id) in Refusals(clusters, outcomes) <==>
            exists k :: 0 <= k < |outcomes| && Drops(clusters[k], outcomes[k], t, id)
  {
    if outcomes != [] {
      var n := |outcomes| - 1;
      RefusalsAre(clusters, outcomes[..n], t, id);
      if k :| 0 <= k < n && Drops(clusters[k], outcomes[..n][k], t, id) { assert outcomes[k] == outcomes[..n][k]; }
      if k :| 0 <= k < |outcomes| && Drops(clusters[k], outcomes[k], t, id) { assert k < n ==> outcomes[..n][k] == outcomes[k]; }
    }
  }

  /** Clusters are reported in turn. */
  lemma {:induction false} RefusedInTurn(clusters: seq<Cluster>, outcomes: seq<Option<Outcome>>, k: nat)
    requires k <= |outcomes| <= |clusters|
    ensures Refusals(clusters, outcomes[..k]) <= Refusals(clusters, outcomes)
  {
    if k == |outcomes| {
      assert outcomes[..k] == outcomes;
    } else {
      RefusedInTurn(clusters, outcomes[..|outcomes| - 1], k);
      assert outcomes[..|outcomes| - 1][..k] == outcomes[..k];
    }
  }

  datatype Row = Row(taskIds: seq<Id>, taskOperators: map<Id, Id>)

  function RowOf(c: Cluster): Row
    reads c
  {
    Row(c.taskIds, c.taskOperators)
  }

  /** A cluster without operator and primes is skipped; any other one ends as its outcome says. */
  ghost predicate RowDone(env: Env, orders: Orders, log: seq<Attempt>, c: Cluster, was: Row, now: Row, o: Option<Outcome>) {
    match o
    case None => !c.hasPrimes && c.operatorRef == "" && now == was
    case Some(o) =>
      && (c.hasPrimes || c.operatorRef != "") && OutcomeOk(env, orders, log, c.clusterId, o)
      && o.before == was.taskIds && Certificates(env.operators, c.operatorRef, o.certified)
      && now == Row(o.kept, if o.pairing == map[] then was.taskOperators else o.pairing)
  }

  lemma RowDoneGrows(env: Env, orders: Orders, log: seq<Attempt>, longer: seq<Attempt>, c: Cluster, was: Row, now: Row,
                     o: Option<Outcome>)
    requires log <= longer && RowDone(env, orders, log, c, was, now, o)
    ensures RowDone(env, orders, longer, c, was, now, o)
  {
    hide OutcomeOk;
    assert longer == log + longer[|log|..];
    if o.Some? { OutcomeGrows(env, orders, log, longer[|log|..], c.clusterId, o.value); }
  }

  /** No other cluster in the list carries this one's id. */
  ghost predicate SoleId(clusters: seq<Cluster>, c: Cluster) {
    forall d :: d in clusters && d.clusterId == c.clusterId ==> d == c
  }

  ghost predicate StampedFor(log: seq<Attempt>, c: Cluster, op: Id) {
    OverlapClaimed(log, op) && ClaimedBy(log, op, c.clusterId)
  }

  lemma StampsAre(byId: map<Id, Cluster>, clusters: seq<Cluster>, log: seq<Attempt>, claimants: map<Id, seq<Id>>,
                  overlap: set<Id>, before: map<Id, seq<Id>>, after: map<Id, seq<Id>>, c: Cluster, op: Id)
    requires Indexed(byId, clusters) && c in clusters && SoleId(clusters, c)
    requires Registered(log, claimants, overlap) && Stamped(before, after, claimants, overlap)
    requires before.Keys == byId.Keys
    ensures c.clusterId in byId && byId[c.clusterId] == c
    ensures op in after[c.clusterId] <==> op in before[c.clusterId] || StampedFor(log, c, op)
  {
    hide ClaimedBy, OverlapClaimed, InTable;
    assert op in overlap <==> OverlapClaimed(log, op);
    assert InTable(claimants, op, c.clusterId) <==> ClaimedBy(log, op, c.clusterId);
  }

  method QualifyAll(env: Env, clusters: seq<Cluster>, orders: Orders)
    returns (infeasible: seq<(Id, Id)>, claimants: map<Id, seq<Id>>, overlap: set<Id>,
             ghost log: seq<Attempt>, ghost outcomes: seq<Option<Outcome>>)
    requires Distinct(clusters) && env.now < env.horizonEnd
    modifies Members(clusters)`taskIds, Members(clusters)`taskOperators
    ensures ValidLog(env, log) && |outcomes| == |clusters| && Registered(log, claimants, overlap)
    ensures forall i :: 0 <= i < |clusters| ==>
              RowDone(env, orders, log, clusters[i], old(RowOf(clusters[i])), RowOf(clusters[i]), outcomes[i])
    ensures infeasible == Refusals(clusters, outcomes)
  {
    hide ValidLog, BusyIs, Registered, RowDone, OutcomeOk;
    var ledger := new Ledger(env);
    claimants, overlap := map[], {};
    infeasible, outcomes := [], [];
    NobodyClaims(claimants, overlap);
    for k := 0 to |clusters|
      invariant ledger.Valid(env) && Registered(ledger.log, claimants, overlap) && fresh(ledger)
      invariant |outcomes| == k && infeasible == Refusals(clusters, outcomes)
      invariant forall i :: 0 <= i < k ==>
                  RowDone(env, orders, ledger.log, clusters[i], old(RowOf(clusters[i])), RowOf(clusters[i]), outcomes[i])
      invariant forall i :: k <= i < |clusters| ==> RowOf(clusters[i]) == old(RowOf(clusters[i]))
    {
      var c := clusters[k];
      ghost var sofar, done := ledger.log, outcomes;
      if c.Processed() {
        var o;
        o, claimants, overlap := Qualify(env, ledger, orders, c, claimants, overlap);
        infeasible := infeasible + Tagged(o.dropped, c.clusterId);
        outcomes := outcomes + [Some(o)];
        QualifiedRow(env, orders, ledger.log, c, old(RowOf(c)), RowOf(c), o);
      } else {
        outcomes := outcomes + [None];
        SkippedRow(env, orders, ledger.log, c, RowOf(c));
      }
      assert outcomes[..k] == done;
      forall i | 0 <= i < k
        ensures RowDone(env, orders, ledger.log, clusters[i], old(RowOf(clusters[i])), RowOf(clusters[i]), outcomes[i])
      {
        assert clusters[i] != c;
        RowDoneGrows(env, orders, sofar, ledger.log, clusters[i], old(RowOf(clusters[i])), RowOf(clusters[i]), outcomes[i]);
      }
    }
    log := ledger.log;
  }

  method ApplyOperatorQualification(clusters: seq<Cluster>, orders: Orders, operators: seq<(Id, set<string>)>,
                                    freeCapacity: map<Id, real>, now: int, allowOverlap: bool)
    returns (infeasible: seq<(Id, Id)>, env: Env, ghost log: seq<Attempt>, ghost outcomes: seq<Option<Outcome>>)
    requires Distinct(clusters)
    modifies clusters
    ensures env.operators == operators && env.freeCapacity == freeCapacity && env.allowOverlap == allowOverlap
    ensures env.now == now && env.horizonEnd == now + 2592000
    ensures forall x :: x in env.mainClaimed <==> x != "" && exists c :: c in clusters && c.operatorRef == x
    ensures ValidLog(env, log) && |outcomes| == |clusters|
    ensures forall i :: 0 <= i < |clusters| ==>
              RowDone(env, orders, log, clusters[i], old(RowOf(clusters[i])), RowOf(clusters[i]), outcomes[i])
    ensures infeasible == Refusals(clusters, outcomes)
    ensures forall t, id :: (t, id) in infeasible <==>
              exists k :: 0 <= k < |clusters| && Drops(clusters[k], outcomes[k], t, id)
    ensures forall c, op :: c in clusters && SoleId(clusters, c) ==>
              (op in c.sharedBackups <==> op in old(c.sharedBackups) || StampedFor(log, c, op))
  {
    hide ValidLog, Registered, RowDone, Stamped, StampedFor, SoleId, Refusals, Drops;
    env := Env(operators, MainClaimed(clusters), freeCapacity, now, now + ROUTING_HORIZON_S, allowOverlap);
    var byId := IndexClusters(clusters);
    ghost var before := SharedOf(byId);
    var claimants, overlap;
    infeasible, claimants, overlap, log, outcomes := QualifyAll(env, clusters, orders);
    assert SharedOf(byId) == before;
    forall t, id ensures (t, id) in infeasible <==>
                         exists k :: 0 <= k < |clusters| && Drops(clusters[k], outcomes[k], t, id)
    {
      RefusalsAre(clusters, outcomes, t, id);
    }
    Stamp(byId, claimants, overlap);
    forall c, op | c in clusters && SoleId(clusters, c)
      ensures op in c.sharedBackups <==> op in old(c.sharedBackups) || StampedFor(log, c, op)
    {
      StampsAre(byId, clusters, log, claimants, overlap, before, SharedOf(byId), c, op);
    }
  }

  /** The prime operators of all clusters. */
  function MainClaimed(clusters: seq<Cluster>): set<Id> {
    set c | c in clusters && c.operatorRef != "" :: c.operatorRef
  }

  lemma NobodyClaims(claimants: map<Id, seq<Id>>, overlap: set<Id>)
    requires claimants == map[] && overlap == {}
    ensures Registered([], claimants, overlap)
  {
  }

  lemma QualifiedRow(env: Env, orders: Orders, log: seq<Attempt>, c: Cluster, was: Row, now: Row, o: Outcome)
    requires c.Processed() && OutcomeOk(env, orders, log, c.clusterId, o)
    requires o.before == was.taskIds && o.certified == CertifiedOf(env.operators, c.operatorRef)
    requires now == Row(o.kept, if o.pairing == map[] then was.taskOperators else o.pairing)
    ensures RowDone(env, orders, log, c, was, now, Some(o))
  {
    hide OutcomeOk;
    CertificatesAre(env.operators, c.operatorRef);
  }

  lemma SkippedRow(env: Env, orders: Orders, log: seq<Attempt>, c: Cluster, row: Row)
    requires !c.Processed()
    ensures RowDone(env, orders, log, c, row, row, None)
  {
  }
}
