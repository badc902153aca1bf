/** Deadline-capped holds for flights left sharing a corridor
    (src/fl_op/planning/airspace.py, _apply_temporal_separation), on values. */
module TemporalSeparation {
  import opened Wrappers
  import opened Ordering
  import opened CorridorColouring

  /** A planned airborne window; slack None is unbounded. */
  datatype Plan = Plan(taskId: string, entry: real, exit: real, slack: Option<real>)

  predicate NonNegativeSlack(p: Plan) { p.slack.Some? ==> p.slack.value >= 0.0 }

  /** Two windows overlap unless one clears the other by the buffer. */
  predicate Overlap(buffer: real, a0: real, a1: real, b0: real, b1: real) {
    a1 + buffer > b0 && b1 + buffer > a0
  }

  /** How long a flight may be held (_deadline_slack_s): holding it that long ends it exactly at
      its deadline, one already late or committed may not be held at all, and only a flight
      without a deadline has no limit. */
  function DeadlineSlack(deadline: Option<real>, exit: real, frozen: bool): (slack: Option<real>)
    ensures slack.Some? ==> slack.value >= 0.0
    ensures slack.None? <==> !frozen && deadline.None?
    ensures frozen ==> slack == Some(0.0)
    ensures !frozen && deadline.Some? && exit <= deadline.value ==> exit + slack.value == deadline.value
    ensures deadline.Some? && exit > deadline.value ==> slack == Some(0.0)
  {
    if frozen then Some(0.0)
    else if deadline.None? then None
    else Some(if deadline.value - exit > 0.0 then deadline.value - exit else 0.0)
  }

  function Cap(delay: real, slack: Option<real>): real {
    if slack.Some? && slack.value < delay then slack.value else delay
  }

  // ---- Service order and contention ---------------------------------------------------

  predicate PlanLe(plans: seq<Plan>, j: nat, i: nat)
    requires j < |plans| && i < |plans|
  {
    KeyLe(plans[j].entry, plans[j].taskId, plans[i].entry, plans[i].taskId)
  }

  /** The order in which the flights of a corridor are placed: by key, and the stable sort
      leaves equal keys in index order. */
  predicate PlacedBefore(plans: seq<Plan>, j: nat, i: nat)
    requires j < |plans| && i < |plans|
  {
    PlanLe(plans, j, i) && (PlanLe(plans, i, j) ==> j < i)
  }

  /** j comes before i: it enters earlier, or at the same time under the smaller task id or,
      that being equal too, the smaller index. */
  ghost predicate Earlier(plans: seq<Plan>, j: nat, i: nat)
    requires j < |plans| && i < |plans|
  {
    || plans[j].entry < plans[i].entry
    || (plans[j].entry == plans[i].entry && StringLe(plans[j].taskId, plans[i].taskId)
        && (plans[j].taskId == plans[i].taskId ==> j < i))
  }

  lemma PlacedIsEarlier(plans: seq<Plan>, j: nat, i: nat)
    requires j < |plans| && i < |plans|
    ensures PlacedBefore(plans, j, i) <==> Earlier(plans, j, i)
  {
    StringLeTotal(plans[j].taskId, plans[i].taskId);
  }

  lemma EarlierTotal(plans: seq<Plan>, j: nat, i: nat)
    requires j < |plans| && i < |plans| && i != j
    ensures Earlier(plans, j, i) <==> !Earlier(plans, i, j)
  {
    StringLeTotal(plans[j].taskId, plans[i].taskId);
  }

  lemma EarlierTransitive(plans: seq<Plan>, k: nat, j: nat, i: nat)
    requires k < |plans| && j < |plans| && i < |plans| && Earlier(plans, k, j) && Earlier(plans, j, i)
    ensures Earlier(plans, k, i)
  {
    var a, b, c := plans[k], plans[j], plans[i];
    if a.entry == b.entry == c.entry {
      StringLeTransitive(a.taskId, b.taskId, c.taskId);
      StringLeTotal(a.taskId, b.taskId);
      StringLeTotal(b.taskId, c.taskId);
      if a.taskId == c.taskId { assert a.taskId == b.taskId; }
    }
  }

  predicate InPairs(pairs: Pairs, i: nat, j: nat) { (i, j) in pairs || (j, i) in pairs }

  /** i and j conflict laterally and share a corridor. */
  predicate Contend(pairs: Pairs, col: Colours, i: nat, j: nat) {
    i < |col| && j < |col| && col[i] == col[j] && InPairs(pairs, i, j)
  }

  // ---- The hold of one flight ---------------------------------------------------------

  ghost predicate Precedes(plans: seq<Plan>, pairs: Pairs, col: Colours, j: nat, i: nat) {
    j < |plans| && i < |plans| && Contend(pairs, col, i, j) && Earlier(plans, j, i)
  }

  /** When j has left i's corridor by the buffer. */
  function ClearTime(plans: seq<Plan>, delays: seq<real>, buffer: real, j: nat): real
    requires j < |plans| == |delays|
  {
    plans[j].exit + delays[j] + buffer
  }

  /** entry is the earliest time, from i's planned entry on, at which every earlier
      contender has cleared the corridor. */
  ghost predicate ClearedAt(plans: seq<Plan>, pairs: Pairs, col: Colours, delays: seq<real>,
                            buffer: real, i: nat, entry: real)
    requires i < |plans| == |delays|
  {
    && plans[i].entry <= entry
    && (forall j: nat :: Precedes(plans, pairs, col, j, i) ==> ClearTime(plans, delays, buffer, j) <= entry)
    && (entry == plans[i].entry
        || exists j: nat :: Precedes(plans, pairs, col, j, i) && ClearTime(plans, delays, buffer, j) == entry)
  }

  /** i is held exactly until it is clear, or as long as its deadline allows. */
  ghost predicate HeldRight(plans: seq<Plan>, pairs: Pairs, col: Colours, delays: seq<real>, buffer: real, i: nat)
    requires i < |plans| == |delays|
  {
    exists entry: real ::
      ClearedAt(plans, pairs, col, delays, buffer, i, entry)
      && delays[i] == Cap(entry - plans[i].entry, plans[i].slack)
  }

  ghost predicate Separated(plans: seq<Plan>, pairs: Pairs, col: Colours, delays: seq<real>, buffer: real) {
    && |plans| == |delays| == |col|
    && (forall i: nat :: i < |plans| ==> NonNegativeSlack(plans[i]))
    && (forall i: nat :: i < |plans| ==> HeldRight(plans, pairs, col, delays, buffer, i))
  }

  // ---- Theorems -----------------------------------------------------------------------

  /** Every delay lies between zero and the slack. */
  lemma DelayWithinSlack(plans: seq<Plan>, pairs: Pairs, col: Colours, delays: seq<real>, buffer: real, i: nat)
    requires Separated(plans, pairs, col, delays, buffer) && i < |plans|
    ensures 0.0 <= delays[i]
    ensures plans[i].slack.Some? ==> delays[i] <= plans[i].slack.value
  {
    assert HeldRight(plans, pairs, col, delays, buffer, i);
  }

  /** A frozen flight does not move; a flight on time stays on time, a late one is not held. */
  lemma DeadlineKept(plans: seq<Plan>, pairs: Pairs, col: Colours, delays: seq<real>, buffer: real, i: nat,
                     deadline: Option<real>, frozen: bool)
    requires Separated(plans, pairs, col, delays, buffer) && i < |plans|
    requires plans[i].slack == DeadlineSlack(deadline, plans[i].exit, frozen)
    ensures frozen ==> delays[i] == 0.0
    ensures deadline.Some? && plans[i].exit <= deadline.value ==> plans[i].exit + delays[i] <= deadline.value
    ensures deadline.Some? && plans[i].exit > deadline.value ==> delays[i] == 0.0
  {
    DelayWithinSlack(plans, pairs, col, delays, buffer, i);
  }

  predicate StillOverlap(plans: seq<Plan>, delays: seq<real>, buffer: real, i: nat, j: nat)
    requires i < |plans| == |delays| && j < |plans|
  {
    Overlap(buffer, plans[i].entry + delays[i], plans[i].exit + delays[i],
            plans[j].entry + delays[j], plans[j].exit + delays[j])
  }

  /** A contending pair still overlaps only if the later flight's hold was cut short by its
      deadline: it needed more than its slack and got all of it. */
  lemma ResidualOnlyIfCapped(plans: seq<Plan>, pairs: Pairs, col: Colours, delays: seq<real>, buffer: real,
                             i: nat, j: nat)
    requires Separated(plans, pairs, col, delays, buffer) && i < |plans| && j < |plans|
    requires Contend(pairs, col, i, j) && Earlier(plans, j, i)
    requires StillOverlap(plans, delays, buffer, i, j)
    ensures plans[i].slack.Some? && delays[i] == plans[i].slack.value
    ensures plans[i].slack.value < ClearTime(plans, delays, buffer, j) - plans[i].entry
  {
    assert HeldRight(plans, pairs, col, delays, buffer, i);
    var entry: real :| ClearedAt(plans, pairs, col, delays, buffer, i, entry)
                       && delays[i] == Cap(entry - plans[i].entry, plans[i].slack);
    assert Precedes(plans, pairs, col, j, i);
  }

  /** With unbounded slack for the later flight the pair is separated in time. */
  lemma UnboundedSlackSeparates(plans: seq<Plan>, pairs: Pairs, col: Colours, delays: seq<real>, buffer: real,
                                i: nat, j: nat)
    requires Separated(plans, pairs, col, delays, buffer) && i < |plans| && j < |plans| && i != j
    requires Contend(pairs, col, i, j) && plans[i].slack.None? && plans[j].slack.None?
    ensures !StillOverlap(plans, delays, buffer, i, j)
  {
    EarlierTotal(plans, j, i);
    if StillOverlap(plans, delays, buffer, i, j) {
      if Earlier(plans, j, i) {
        ResidualOnlyIfCapped(plans, pairs, col, delays, buffer, i, j);
      } else {
        ResidualOnlyIfCapped(plans, pairs, col, delays, buffer, j, i);
      }
    }
  }

  /** No flight is held for nothing: a positive hold ends no later than some earlier
      contender's clearing time. */
  lemma HoldIsNeeded(plans: seq<Plan>, pairs: Pairs, col: Colours, delays: seq<real>, buffer: real, i: nat)
    requires Separated(plans, pairs, col, delays, buffer) && i < |plans| && delays[i] > 0.0
    ensures exists j: nat :: Precedes(plans, pairs, col, j, i)
                             && plans[i].entry + delays[i] <= ClearTime(plans, delays, buffer, j)
  {
    assert HeldRight(plans, pairs, col, delays, buffer, i);
    var entry: real :| ClearedAt(plans, pairs, col, delays, buffer, i, entry)
                       && delays[i] == Cap(entry - plans[i].entry, plans[i].slack);
    var j: nat :| Precedes(plans, pairs, col, j, i) && ClearTime(plans, delays, buffer, j) == entry;
  }

  // ---- The schedule is determined -----------------------------------------------------

  /** Number of flights placed before i. */
  ghost function Rank(plans: seq<Plan>, i: nat): nat
    requires i < |plans|
  {
    |set j: nat | j < |plans| && j in Below(|plans|) && Earlier(plans, j, i)|
  }

  lemma RankGrows(plans: seq<Plan>, j: nat, i: nat)
    requires j < |plans| && i < |plans| && Earlier(plans, j, i) && i != j
    ensures Rank(plans, j) < Rank(plans, i)
  {
    var a := set k: nat | k < |plans| && k in Below(|plans|) && Earlier(plans, k, j);
    var b := set k: nat | k < |plans| && k in Below(|plans|) && Earlier(plans, k, i);
    assert j !in a && j in b;
    forall k | k in a ensures k in b { EarlierTransitive(plans, k, j, i); }
    SubsetSize(a + {j}, b);
  }

  /** Whatever order the corridors are visited in, the holds are the same. */
  lemma {:induction false} HoldsAreUnique(plans: seq<Plan>, pairs: Pairs, col: Colours, delays: seq<real>,
                                          other: seq<real>, buffer: real, i: nat)
    requires Separated(plans, pairs, col, delays, buffer) && Separated(plans, pairs, col, other, buffer)
    requires i < |plans|
    ensures delays[i] == other[i]
    decreases Rank(plans, i)
  {
    forall j: nat | Precedes(plans, pairs, col, j, i)
      ensures ClearTime(plans, delays, buffer, j) == ClearTime(plans, other, buffer, j)
    {
      RankGrows(plans, j, i);
      HoldsAreUnique(plans, pairs, col, delays, other, buffer, j);
    }
    assert HeldRight(plans, pairs, col, delays, buffer, i) && HeldRight(plans, pairs, col, other, buffer, i);
  }
}
