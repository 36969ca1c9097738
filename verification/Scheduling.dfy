/** What every schedule of the executor keeps: the concurrency limit, the order of dependent calls,
    progress, termination, and one result per call. */
module Scheduling {
  import opened Wrappers
  import opened Sums
  import opened ToolCalls
  import opened Dependencies
  import opened Programs
  import opened Executor

  /** At no point do more calls execute than the configured limit allows (0 means 5). */
  lemma ConcurrencyBounded(b: Batch, s0: Store, states: seq<State>, events: seq<Event>, k: nat)
    requires Valid(b) && Execution(b, s0, states, events) && k < |states|
    ensures |set g: nat | g < |states[k].tasks| && states[k].tasks[g].phase.Running?|
            == Permits(b) - states[k].permits
            <= (if b.maxConcurrent == 0 then 5 else b.maxConcurrent)
  {
    InvariantHolds(b, s0, states, events, k);
    var tasks := states[k].tasks;
    var flags := RunningFlags(tasks);
    SumCounts(flags);
    assert (set g: nat | g < |tasks| && tasks[g].phase.Running?) == Ones(flags);
  }

  // ---------------------------------------------------------------------
  // Order inside a group
  // ---------------------------------------------------------------------

  /** The call has been given a permit. */
  ghost predicate HasStarted(b: Batch, s: State, i: nat)
    requires |s.tasks| == |b.groups|
  {
    exists g: nat, k: nat :: g < |b.groups| && k < |b.groups[g]| && b.groups[g][k] == i && Started(s, g, k)
  }

  /** The call has ended and given its permit back. */
  ghost predicate HasFinished(b: Batch, s: State, i: nat)
    requires |s.tasks| == |b.groups|
  {
    exists g: nat, k: nat :: g < |b.groups| && k < |b.groups[g]| && b.groups[g][k] == i && k < s.tasks[g].pos
  }

  /** Calls of one group, in particular dependent ones, neither overlap nor swap. */
  lemma GroupOrderKept(b: Batch, s0: Store, states: seq<State>, events: seq<Event>, m: nat, i: nat, j: nat)
    requires Valid(b) && Execution(b, s0, states, events) && m < |states|
    requires i < j < |b.calls| && SameGroup(b.groups, i, j)
    ensures |states[m].tasks| == |b.groups|
    ensures HasStarted(b, states[m], j) ==> HasFinished(b, states[m], i)
  {
    InvariantHolds(b, s0, states, events, m);
    var s := states[m];
    if HasStarted(b, s, j) {
      var g: nat, k: nat :| g < |b.groups| && k < |b.groups[g]| && b.groups[g][k] == j && Started(s, g, k);
      var h, l := PlaceExists(b, i);
      assert InGroup(b.groups, g, j) && InGroup(b.groups, h, i);
      assert Ascending(b.groups[g]);
      assert l < k;
    }
  }

  lemma DependentCallsInOrder(b: Batch, s0: Store, states: seq<State>, events: seq<Event>, m: nat, i: nat, j: nat)
    requires Valid(b) && IsGrouping(b.calls, b.groups)
    requires Execution(b, s0, states, events) && m < |states|
    requires i < j < |b.calls| && AreDependent(b.calls[i], b.calls[j])
    ensures |states[m].tasks| == |b.groups|
    ensures HasStarted(b, states[m], j) ==> HasFinished(b, states[m], i)
  {
    LinkedByDependence(b.calls, i, j);
    assert SameGroup(b.groups, i, j);
    GroupOrderKept(b, s0, states, events, m, i, j);
  }

  // ---------------------------------------------------------------------
  // Progress and termination
  // ---------------------------------------------------------------------

  /** Not a panic, and a timeout only of a call that has used up its accesses without returning. */
  ghost predicate Orderly(b: Batch, s: State, e: Event)
    requires Valid(b) && Shaped(b, s) && Enabled(b, s, e)
  {
    && !e.Panic?
    && (e.Timeout? ==>
          && |s.histories[Current(b, s, e.g)]| >= b.accessLimit
          && !b.programs[Current(b, s, e.g)](s.histories[Current(b, s, e.g)]).Return?)
  }

  /** Until every task is joined some step is possible, and not only a timeout or a panic: a task can
      be joined, a waiting call can take a permit, or a running one can go on. */
  lemma AlwaysProgress(b: Batch, s0: Store, s: State) returns (e: Event)
    requires Valid(b) && Invariant(b, s0, s) && !Complete(s)
    ensures Enabled(b, s, e) && Orderly(b, s, e)
  {
    if g: nat :| g < |s.tasks| && s.tasks[g].phase.Running? {
      var c := Current(b, s, g);
      if b.programs[c](s.histories[c]).Return? {
        e := Finish(g);
      } else if |s.histories[c]| < b.accessLimit {
        e := Access(g);
      } else {
        e := Timeout(g);
      }
    } else {
      SumZero(RunningFlags(s.tasks));
      var g: nat :| g < |s.tasks| && !s.tasks[g].joined;
      e := if Ended(b, s.tasks[g], g) then Join(g) else Acquire(g);
    }
  }

  /** No call waits without need: while fewer calls run than may, the next call of any idle group can start. */
  lemma FreePermitIsTaken(b: Batch, s0: Store, states: seq<State>, events: seq<Event>, g: nat)
    requires Valid(b) && Execution(b, s0, states, events) && g < |states[|events|].tasks| == |b.groups|
    requires states[|events|].tasks[g].phase.Idle? && states[|events|].tasks[g].pos < |b.groups[g]|
    requires |set h: nat | h < |states[|events|].tasks| && states[|events|].tasks[h].phase.Running?|
             < if b.maxConcurrent == 0 then 5 else b.maxConcurrent
    ensures exists next :: && Execution(b, s0, states + [next], events + [Acquire(g)])
                           && |next.tasks| == |b.groups| && next.tasks[g].phase.Running?
  {
    var s := states[|events|];
    ConcurrencyBounded(b, s0, states, events, |events|);
    InvariantHolds(b, s0, states, events, |events|);
    ExecutionContinues(b, s0, states, events, Acquire(g));
    assert Execution(b, s0, states + [Next(b, s, Acquire(g))], events + [Acquire(g)]);
  }

  /** A running call can time out or panic at any point, whatever it does, and frees its permit and nothing else. */
  lemma RunningMayFail(b: Batch, s0: Store, states: seq<State>, events: seq<Event>, g: nat, e: Event)
    requires Valid(b) && Execution(b, s0, states, events) && g < |states[|events|].tasks| == |b.groups|
    requires states[|events|].tasks[g].phase.Running? && (e == Timeout(g) || e == Panic(g))
    ensures exists next ::
              && Execution(b, s0, states + [next], events + [e]) && |next.tasks| == |b.groups|
              && next.permits == states[|events|].permits + 1
              && next.tasks[g].phase == (if e.Panic? then Panicked else Idle)
              && next.store == states[|events|].store && next.histories == states[|events|].histories
              && next.results == states[|events|].results
              && forall h :: 0 <= h < |b.groups| && h != g ==> next.tasks[h] == states[|events|].tasks[h]
  {
    var s := states[|events|];
    InvariantHolds(b, s0, states, events, |events|);
    ExecutionContinues(b, s0, states, events, e);
    assert Execution(b, s0, states + [Next(b, s, e)], events + [e]);
  }

  /** Steps a task still has ahead of it, without the accesses of its calls. */
  ghost function TaskWork(b: Batch, t: Task, g: nat): (w: nat)
    requires g < |b.groups| && t.pos <= |b.groups[g]|
  {
    if t.joined then 0
    else if t.phase.Panicked? then 1
    else 2 * (|b.groups[g]| - t.pos) + (if t.phase.Idle? then 2 else 1)
  }

  ghost function TaskWorks(b: Batch, s: State): (ws: seq<nat>)
    requires Valid(b) && Shaped(b, s)
  {
    seq(|s.tasks|, g requires 0 <= g < |s.tasks| => TaskWork(b, s.tasks[g], g))
  }

  ghost function AccessesLeft(b: Batch, s: State): (ws: seq<nat>) {
    seq(|s.histories|, i requires 0 <= i < |s.histories| =>
      if |s.histories[i]| <= b.accessLimit then b.accessLimit - |s.histories[i]| else 0)
  }

  ghost function Work(b: Batch, s: State): (w: nat)
    requires Valid(b) && Shaped(b, s)
  {
    Sum(TaskWorks(b, s)) + Sum(AccessesLeft(b, s))
  }

  lemma EveryStepConsumesWork(b: Batch, s: State, e: Event)
    requires Valid(b) && Shaped(b, s) && Enabled(b, s, e)
    ensures Shaped(b, Next(b, s, e))
    ensures Work(b, Next(b, s, e)) < Work(b, s)
  {
    ShapedStep(b, s, e);
    var s', g := Next(b, s, e), e.g;
    if e.Access? {
      var c := Current(b, s, g);
      var left := AccessesLeft(b, s);
      assert AccessesLeft(b, s') == left[c := left[c] - 1];
      SumUpdate(left, c, left[c] - 1);
      assert TaskWorks(b, s') == TaskWorks(b, s);
    } else {
      var ws := TaskWorks(b, s);
      var w := TaskWork(b, s'.tasks[g], g);
      assert w < ws[g];
      assert TaskWorks(b, s') == ws[g := w];
      SumUpdate(ws, g, w);
      assert AccessesLeft(b, s') == AccessesLeft(b, s);
    }
  }

  lemma {:induction false} WorkBoundsSteps(b: Batch, s0: Store, states: seq<State>, events: seq<Event>, k: nat)
    requires Valid(b) && Execution(b, s0, states, events) && k < |states|
    ensures Shaped(b, states[k])
    ensures k + Work(b, states[k]) <= Work(b, Init(b, s0))
  {
    if k == 0 {
      InitInvariant(b, s0);
    } else {
      WorkBoundsSteps(b, s0, states, events, k - 1);
      assert StepAt(b, states, events, k - 1);
      EveryStepConsumesWork(b, states[k - 1], events[k - 1]);
    }
  }

  ghost function Sizes(groups: seq<seq<nat>>): (sizes: seq<nat>) {
    seq(|groups|, g requires 0 <= g < |groups| => |groups[g]|)
  }

  lemma {:induction false} InitTaskWork(ws: seq<nat>, sizes: seq<nat>)
    requires |ws| == |sizes| && forall g :: 0 <= g < |ws| ==> ws[g] == 2 * sizes[g] + 2
    ensures Sum(ws) == 2 * Sum(sizes) + 2 * |sizes|
  {
    if ws != [] {
      InitTaskWork(ws[1..], sizes[1..]);
    }
  }

  ghost function MembersOf(group: seq<nat>): set<nat> {
    set i | i in group
  }

  ghost function Members(groups: seq<seq<nat>>): (all: set<nat>) {
    if groups == [] then {} else Members(groups[..|groups| - 1]) + MembersOf(groups[|groups| - 1])
  }

  ghost predicate Apart(groups: seq<seq<nat>>) {
    forall g, h :: 0 <= g < h < |groups| ==> MembersOf(groups[g]) !! MembersOf(groups[h])
  }

  lemma {:induction false} MembersAre(groups: seq<seq<nat>>, i: nat)
    ensures i in Members(groups) <==> exists g :: 0 <= g < |groups| && i in MembersOf(groups[g])
  {
    if groups != [] {
      var last := |groups| - 1;
      var front := groups[..last];
      MembersAre(front, i);
      assert forall g :: 0 <= g < last ==> front[g] == groups[g];
    }
  }

  lemma {:induction false} AscendingSize(group: seq<nat>)
    requires Ascending(group)
    ensures |MembersOf(group)| == |group|
  {
    if group != [] {
      var last := |group| - 1;
      AscendingSize(group[..last]);
      assert group == group[..last] + [group[last]];
      assert MembersOf(group) == MembersOf(group[..last]) + {group[last]};
    }
  }

  lemma LastIsApart(groups: seq<seq<nat>>)
    requires groups != [] && Apart(groups)
    ensures Apart(groups[..|groups| - 1]) && Members(groups[..|groups| - 1]) !! MembersOf(groups[|groups| - 1])
  {
    var last := |groups| - 1;
    forall i | i in Members(groups[..last]) ensures i !in MembersOf(groups[last]) {
      MembersAre(groups[..last], i);
      var g :| 0 <= g < last && i in MembersOf(groups[..last][g]);
      assert MembersOf(groups[g]) !! MembersOf(groups[last]);
    }
  }

  lemma {:induction false} GroupSizesAddUp(groups: seq<seq<nat>>)
    requires Apart(groups) && forall g :: 0 <= g < |groups| ==> Ascending(groups[g])
    ensures Sum(Sizes(groups)) == |Members(groups)|
  {
    if groups != [] {
      var last := |groups| - 1;
      LastIsApart(groups);
      GroupSizesAddUp(groups[..last]);
      AscendingSize(groups[last]);
      assert Sizes(groups)[..last] == Sizes(groups[..last]);
      SumSplitLast(Sizes(groups));
    }
  }

  ghost function Indices(n: nat): (all: set<nat>)
    ensures |all| == n && forall i: nat :: i in all <==> i < n
  {
    if n == 0 then {} else Indices(n - 1) + {n - 1}
  }

  lemma PartitionSizes(b: Batch)
    requires Valid(b)
    ensures Sum(Sizes(b.groups)) == |b.calls|
  {
    GroupsAreApart(b);
    GroupSizesAddUp(b.groups);
    forall i: nat ensures i in Members(b.groups) <==> i < |b.calls| {
      MembersAre(b.groups, i);
      if i < |b.calls| {
        var g, k := PlaceExists(b, i);
        assert i in MembersOf(b.groups[g]);
      } else {
        forall g | 0 <= g < |b.groups| ensures i !in MembersOf(b.groups[g]) {
          assert i in b.groups[g] ==> InGroup(b.groups, g, i);
        }
      }
    }
    assert Members(b.groups) == Indices(|b.calls|);
  }

  lemma GroupsAreApart(b: Batch)
    requires Valid(b)
    ensures Apart(b.groups)
  {
    forall g, h | 0 <= g < h < |b.groups| ensures MembersOf(b.groups[g]) !! MembersOf(b.groups[h]) {
      forall i: nat ensures !(i in b.groups[g] && i in b.groups[h]) {
        assert i in b.groups[g] ==> InGroup(b.groups, g, i);
        assert i in b.groups[h] ==> InGroup(b.groups, h, i);
      }
    }
  }

  /** No schedule is longer than two steps and `accessLimit` accesses a call, and two steps a group. */
  lemma SchedulesAreBounded(b: Batch, s0: Store, states: seq<State>, events: seq<Event>)
    requires Valid(b) && Execution(b, s0, states, events)
    ensures |events| <= 2 * |b.calls| + 2 * |b.groups| + |b.calls| * b.accessLimit
  {
    WorkBoundsSteps(b, s0, states, events, |events|);
    var s := Init(b, s0);
    InitInvariant(b, s0);
    InitTaskWork(TaskWorks(b, s), Sizes(b.groups));
    PartitionSizes(b);
    SumBound(AccessesLeft(b, s), b.accessLimit);
  }

  ghost predicate OrderlyAt(b: Batch, states: seq<State>, events: seq<Event>, k: nat)
    requires Valid(b) && k < |events| < |states|
  {
    Shaped(b, states[k]) && Enabled(b, states[k], events[k]) && Orderly(b, states[k], events[k])
  }

  /** Every schedule can be continued to its end, whatever happened so far. */
  lemma {:induction false} SchedulesComplete(b: Batch, s0: Store, states: seq<State>, events: seq<Event>)
    returns (states': seq<State>, events': seq<Event>)
    requires Valid(b) && Execution(b, s0, states, events)
    ensures Execution(b, s0, states', events') && states <= states' && events <= events'
    ensures Complete(states'[|events'|])
    ensures forall k: nat :: |events| <= k < |events'| ==> OrderlyAt(b, states', events', k)
    decreases 2 * |b.calls| + 2 * |b.groups| + |b.calls| * b.accessLimit - |events|
  {
    SchedulesAreBounded(b, s0, states, events);
    var s := states[|events|];
    InvariantHolds(b, s0, states, events, |events|);
    if Complete(s) {
      states', events' := states, events;
    } else {
      var e := AlwaysProgress(b, s0, s);
      var longer, longerEvents := states + [Next(b, s, e)], events + [e];
      ExecutionContinues(b, s0, states, events, e);
      SchedulesAreBounded(b, s0, longer, longerEvents);
      states', events' := SchedulesComplete(b, s0, longer, longerEvents);
      assert states'[|events|] == longer[|events|] == s;
      assert events'[|events|] == e;
    }
  }

  // ---------------------------------------------------------------------
  // Results
  // ---------------------------------------------------------------------

  /** Step `j` ends the call at place `k` of group `g`: by what it returns, or by the timeout. */
  ghost predicate EndsCall(b: Batch, states: seq<State>, events: seq<Event>, j: nat, g: nat, k: nat, outcome: Outcome)
    requires Valid(b)
  {
    && j < |events| && j < |states| && Shaped(b, states[j])
    && g < |b.groups| && states[j].tasks[g].pos == k < |b.groups[g]|
    && var c := b.groups[g][k];
       || (events[j] == Finish(g) && outcome.Returned?
           && b.programs[c](states[j].histories[c]) == Return(outcome.output))
       || (events[j] == Timeout(g) && outcome == TimedOut)
  }

  /** A recorded result is that of its call: what the call returned, or a timeout if it timed out. */
  ghost predicate IsResultOf(b: Batch, states: seq<State>, events: seq<Event>, n: nat, g: nat, k: nat,
                             result: CallResult)
    requires Valid(b) && g < |b.groups| && k < |b.groups[g]|
  {
    && result.id == b.calls[b.groups[g][k]].id
    && exists j: nat :: j < n && EndsCall(b, states, events, j, g, k, result.outcome)
  }

  /** A step that records a result ends its call, and no step changes a result. */
  lemma ResultStep(b: Batch, states: seq<State>, events: seq<Event>, n: nat, g: nat, k: nat)
    requires Valid(b) && n < |events| < |states| && StepAt(b, states, events, n) && g < |b.groups|
    requires Shaped(b, states[n + 1]) && k < states[n + 1].tasks[g].pos
    ensures var results, results' := states[n].tasks[g].outputs, states[n + 1].tasks[g].outputs;
            if k < states[n].tasks[g].pos then results'[k] == results[k]
            else && results'[k].id == b.calls[b.groups[g][k]].id
                 && EndsCall(b, states, events, n, g, k, results'[k].outcome)
  {
  }

  lemma {:induction false} ResultsAreRecorded(b: Batch, s0: Store, states: seq<State>, events: seq<Event>, n: nat,
                                              g: nat, k: nat)
    requires Valid(b) && Execution(b, s0, states, events) && n < |states| && g < |b.groups|
    requires Shaped(b, states[n]) && k < states[n].tasks[g].pos
    ensures IsResultOf(b, states, events, n, g, k, states[n].tasks[g].outputs[k])
  {
    if n > 0 {
      assert StepAt(b, states, events, n - 1);
      ResultStep(b, states, events, n - 1, g, k);
      if k < states[n - 1].tasks[g].pos {
        ResultsAreRecorded(b, s0, states, events, n - 1, g, k);
      }
    }
  }

  /** Whatever panicked, there is one result per call, in call order, under the call's id; the calls of
      a panicked task, even those that had completed, report the panic. */
  lemma OneResultPerCall(b: Batch, s0: Store, states: seq<State>, events: seq<Event>)
    requires Valid(b) && Execution(b, s0, states, events) && Complete(states[|events|])
    ensures var s := states[|events|];
            && Shaped(b, s)
            && |FinalResults(b, s)| == |b.calls|
            && (forall i :: 0 <= i < |b.calls| ==> FinalResults(b, s)[i].id == b.calls[i].id)
            && forall g, k :: 0 <= g < |b.groups| && 0 <= k < |b.groups[g]| ==>
                 FinalResults(b, s)[b.groups[g][k]] ==
                 if s.tasks[g].phase.Panicked? then CallResult(b.calls[b.groups[g][k]].id, TaskPanicked)
                 else s.tasks[g].outputs[k]
  {
    InvariantHolds(b, s0, states, events, |events|);
    var s := states[|events|];
    assert SlotsFilled(b, s) && OutputsRecorded(b, s);
    forall i | 0 <= i < |b.calls|
      ensures FinalResults(b, s)[i].id == b.calls[i].id
    {
      var g, k := PlaceExists(b, i);
      assert Ended(b, s.tasks[g], g);
      if !s.tasks[g].phase.Panicked? {
        assert Records(b, s.histories, s.tasks[g].outputs[k], i);
      }
    }
  }
}
