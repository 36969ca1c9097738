/** The parallel tool executor as a step machine: one task per group, a semaphore, a store that the
    running calls access one step at a time, and a result slot per call. */
module Executor {
  import opened Wrappers
  import opened Sums
  import opened ToolCalls
  import opened Dependencies
  import opened Programs

  const DEFAULT_MAX_CONCURRENT: nat := 5

  /** A batch: the calls, what each does to the store, and what each may touch and write.
      The tool timeout fires at the latest after `accessLimit` accesses of one call. */
  datatype Batch = Batch(
    calls: seq<ToolCall>,
    groups: seq<seq<nat>>,
    programs: seq<Program>,
    touches: seq<set<string>>,
    writes: seq<set<string>>,
    maxConcurrent: nat,
    accessLimit: nat)

  function Permits(b: Batch): (permits: nat) {
    if b.maxConcurrent == 0 then DEFAULT_MAX_CONCURRENT else b.maxConcurrent
  }

  ghost predicate Valid(b: Batch) {
    && |b.programs| == |b.touches| == |b.writes| == |b.calls|
    && (forall i :: 0 <= i < |b.calls| ==> Confined(b.programs[i], b.touches[i], b.writes[i]))
    && IsPartition(|b.calls|, b.groups)
  }

  ghost predicate Conflict(b: Batch, i: nat, j: nat)
    requires |b.touches| == |b.writes| && i < |b.touches| && j < |b.touches|
  {
    b.writes[i] * b.touches[j] != {} || b.writes[j] * b.touches[i] != {}
  }

  /** Calls that can disturb each other are in one group. */
  ghost predicate ConflictsGrouped(b: Batch)
    requires |b.touches| == |b.writes|
  {
    forall i: nat, j: nat :: i < j < |b.touches| && Conflict(b, i, j) ==> SameGroup(b.groups, i, j)
  }

  // ---------------------------------------------------------------------
  // States and steps
  // ---------------------------------------------------------------------

  datatype Outcome = Returned(output: string) | TimedOut | TaskPanicked

  datatype CallResult = CallResult(id: string, outcome: Outcome)

  /** Idle tasks wait for a permit or have finished their group; Running ones hold a permit. */
  datatype Phase = Idle | Running | Panicked

  datatype Task = Task(pos: nat, phase: Phase, outputs: seq<CallResult>, joined: bool)

  datatype State = State(
    tasks: seq<Task>,
    permits: nat,
    store: Store,
    histories: seq<History>,
    results: seq<Option<CallResult>>)

  datatype Event =
    | Acquire(g: nat)
    | Access(g: nat)
    | Finish(g: nat)
    | Timeout(g: nat)
    | Panic(g: nat)
    | Join(g: nat)

  ghost function Init(b: Batch, s0: Store): State {
    State(seq(|b.groups|, g => Task(0, Idle, [], false)), Permits(b), s0,
          seq(|b.calls|, i => []), seq(|b.calls|, i => None))
  }

  /** The call a task is at. */
  function Current(b: Batch, s: State, g: nat): (c: nat)
    requires g < |b.groups| && g < |s.tasks| && s.tasks[g].pos < |b.groups[g]|
  {
    b.groups[g][s.tasks[g].pos]
  }

  /** Sizes and index ranges that make the step functions well defined. */
  ghost predicate Shaped(b: Batch, s: State) {
    && |s.tasks| == |b.groups|
    && |s.histories| == |s.results| == |b.calls|
    && (forall g :: 0 <= g < |s.tasks| ==>
          && s.tasks[g].pos <= |b.groups[g]|
          && |s.tasks[g].outputs| == s.tasks[g].pos
          && (!s.tasks[g].phase.Idle? ==> s.tasks[g].pos < |b.groups[g]|)
          && (s.tasks[g].joined ==> Ended(b, s.tasks[g], g)))
  }

  ghost predicate Ended(b: Batch, t: Task, g: nat)
    requires g < |b.groups|
  {
    t.phase.Panicked? || (t.phase.Idle? && t.pos == |b.groups[g]|)
  }

  ghost predicate Enabled(b: Batch, s: State, e: Event)
    requires Valid(b) && Shaped(b, s)
  {
    && e.g < |s.tasks|
    && var t := s.tasks[e.g];
       match e
       case Acquire(g) => t.phase.Idle? && t.pos < |b.groups[g]| && s.permits > 0
       case Access(g) =>
         && t.phase.Running?
         && |s.histories[Current(b, s, g)]| < b.accessLimit
         && !b.programs[Current(b, s, g)](s.histories[Current(b, s, g)]).Return?
       case Finish(g) => t.phase.Running? && b.programs[Current(b, s, g)](s.histories[Current(b, s, g)]).Return?
       case Timeout(g) => t.phase.Running?
       case Panic(g) => t.phase.Running?
       case Join(g) => Ended(b, t, g) && !t.joined
  }

  /** The result slots after a joined task's results are put into the slots of its group. */
  function Filled(results: seq<Option<CallResult>>, group: seq<nat>, outputs: seq<CallResult>)
    : (filled: seq<Option<CallResult>>)
    requires |outputs| <= |group|
    requires forall k :: 0 <= k < |group| ==> group[k] < |results|
    ensures |filled| == |results|
    decreases |outputs|
  {
    if outputs == [] then results
    else Filled(results[group[0] := Some(outputs[0])], group[1..], outputs[1..])
  }

  /** The collecting loop for one joined task: stores its results into their slots in place. */
  method FillSlots(results: array<Option<CallResult>>, group: seq<nat>, outputs: seq<CallResult>)
    requires |outputs| <= |group|
    requires forall k :: 0 <= k < |group| ==> group[k] < results.Length
    modifies results
    ensures results[..] == Filled(old(results[..]), group, outputs)
  {
    for k := 0 to |outputs|
      invariant Filled(results[..], group[k..], outputs[k..]) == Filled(old(results[..]), group, outputs)
    {
      ghost var before := results[..];
      results[group[k]] := Some(outputs[k]);
      assert results[..] == before[group[k] := Some(outputs[k])];
      assert group[k..][1..] == group[k + 1..] && outputs[k..][1..] == outputs[k + 1..];
    }
  }

  /** The task records its current call's outcome, moves on, and gives the permit back. */
  function Completed(b: Batch, s: State, g: nat, outcome: Outcome): State
    requires g < |b.groups| && g < |s.tasks| && s.tasks[g].pos < |b.groups[g]|
    requires Current(b, s, g) < |b.calls|
  {
    var t := s.tasks[g];
    var result := CallResult(b.calls[Current(b, s, g)].id, outcome);
    s.(tasks := s.tasks[g := t.(pos := t.pos + 1, phase := Idle, outputs := t.outputs + [result])],
       permits := s.permits + 1)
  }

  ghost function Next(b: Batch, s: State, e: Event): State
    requires Valid(b) && Shaped(b, s) && Enabled(b, s, e)
  {
    var g := e.g;
    var t := s.tasks[g];
    match e
    case Acquire(_) => s.(tasks := s.tasks[g := t.(phase := Running)], permits := s.permits - 1)
    case Access(_) =>
      var c := Current(b, s, g);
      var now := Advance(b.programs[c], Progress(s.store, s.histories[c]));
      s.(store := now.store, histories := s.histories[c := now.history])
    case Finish(_) =>
      Completed(b, s, g, Returned(b.programs[Current(b, s, g)](s.histories[Current(b, s, g)]).output))
    case Timeout(_) => Completed(b, s, g, TimedOut)
    case Panic(_) => s.(tasks := s.tasks[g := t.(phase := Panicked)], permits := s.permits + 1)
    case Join(_) =>
      s.(tasks := s.tasks[g := t.(joined := true)],
         results := if t.phase.Panicked? then s.results else Filled(s.results, b.groups[g], t.outputs))
  }

  ghost predicate StepAt(b: Batch, states: seq<State>, events: seq<Event>, k: nat)
    requires Valid(b) && k < |events| < |states|
  {
    Shaped(b, states[k]) && Enabled(b, states[k], events[k]) && states[k + 1] == Next(b, states[k], events[k])
  }

  /** A schedule from `s0`: `states[k + 1]` follows `states[k]` by `events[k]`. */
  ghost predicate Execution(b: Batch, s0: Store, states: seq<State>, events: seq<Event>)
    requires Valid(b)
  {
    && |states| == |events| + 1
    && states[0] == Init(b, s0)
    && forall k: nat :: k < |events| ==> StepAt(b, states, events, k)
  }

  /** A schedule continues with any enabled event. */
  lemma ExecutionContinues(b: Batch, s0: Store, states: seq<State>, events: seq<Event>, e: Event)
    requires Valid(b) && Execution(b, s0, states, events)
    requires Shaped(b, states[|events|]) && Enabled(b, states[|events|], e)
    ensures Execution(b, s0, states + [Next(b, states[|events|], e)], events + [e])
  {
    var states', events' := states + [Next(b, states[|events|], e)], events + [e];
    forall k: nat | k < |events'| ensures StepAt(b, states', events', k) {
      assert k < |events| ==> StepAt(b, states, events, k);
    }
  }

  ghost predicate Complete(s: State) {
    forall g :: 0 <= g < |s.tasks| ==> s.tasks[g].joined
  }

  /** What the caller gets: an error for every slot that no task filled. */
  function FinalResults(b: Batch, s: State): (results: seq<CallResult>)
    requires |s.results| == |b.calls|
  {
    seq(|b.calls|, i requires 0 <= i < |b.calls| =>
      s.results[i].GetOr(CallResult(b.calls[i].id, TaskPanicked)))
  }

  // ---------------------------------------------------------------------
  // Invariants
  // ---------------------------------------------------------------------

  /** Member `k` of group `g` has been given a permit at some point. */
  ghost predicate Started(s: State, g: nat, k: nat)
    requires g < |s.tasks|
  {
    k < s.tasks[g].pos || (k == s.tasks[g].pos && !s.tasks[g].phase.Idle?)
  }

  ghost predicate OnlyStartedAccessed(b: Batch, s: State)
    requires Valid(b) && Shaped(b, s)
  {
    forall g, k :: 0 <= g < |b.groups| && 0 <= k < |b.groups[g]| && s.histories[b.groups[g][k]] != [] ==>
                     Started(s, g, k)
  }

  /** A recorded result carries its call's id, and a returned output is what the program returned. */
  ghost predicate Records(b: Batch, histories: seq<History>, r: CallResult, c: nat)
    requires Valid(b) && |histories| == |b.calls| && c < |b.calls|
  {
    && r.id == b.calls[c].id
    && !r.outcome.TaskPanicked?
    && (r.outcome.Returned? ==> b.programs[c](histories[c]) == Return(r.outcome.output))
  }

  ghost predicate OutputsRecorded(b: Batch, s: State)
    requires Valid(b) && Shaped(b, s)
  {
    forall g, k :: 0 <= g < |b.groups| && 0 <= k < s.tasks[g].pos ==>
                     Records(b, s.histories, s.tasks[g].outputs[k], b.groups[g][k])
  }

  /** A slot is filled exactly when its task ended without a panic and has been joined. */
  ghost predicate SlotsFilled(b: Batch, s: State)
    requires Valid(b) && Shaped(b, s)
  {
    forall g, k :: 0 <= g < |b.groups| && 0 <= k < |b.groups[g]| ==>
                     s.results[b.groups[g][k]] ==
                     if s.tasks[g].joined && s.tasks[g].phase.Idle? then Some(s.tasks[g].outputs[k]) else None
  }

  ghost function RunningFlags(tasks: seq<Task>): (flags: seq<nat>) {
    seq(|tasks|, g requires 0 <= g < |tasks| => if tasks[g].phase.Running? then 1 else 0)
  }

  /** Permits are conserved: free ones and running tasks add up to the limit. */
  ghost predicate PermitsConserved(b: Batch, s: State) {
    s.permits + Sum(RunningFlags(s.tasks)) == Permits(b)
  }

  ghost predicate Invariant(b: Batch, s0: Store, s: State)
    requires Valid(b)
  {
    && Shaped(b, s)
    && OnlyStartedAccessed(b, s)
    && OutputsRecorded(b, s)
    && SlotsFilled(b, s)
    && PermitsConserved(b, s)
  }

  lemma FlagsUpdate(tasks: seq<Task>, g: nat, t: Task)
    requires g < |tasks|
    ensures Sum(RunningFlags(tasks[g := t])) ==
            Sum(RunningFlags(tasks)) - RunningFlags(tasks)[g] + (if t.phase.Running? then 1 else 0)
  {
    var w := if t.phase.Running? then 1 else 0;
    assert RunningFlags(tasks[g := t]) == RunningFlags(tasks)[g := w];
    SumUpdate(RunningFlags(tasks), g, w);
  }

  /** A member is in one place only. */
  lemma PlaceIsUnique(b: Batch, g: nat, k: nat, h: nat, l: nat)
    requires Valid(b)
    requires g < |b.groups| && k < |b.groups[g]| && h < |b.groups| && l < |b.groups[h]|
    requires b.groups[g][k] == b.groups[h][l]
    ensures g == h && k == l
  {
    var i := b.groups[g][k];
    assert InGroup(b.groups, g, i) && InGroup(b.groups, h, i);
    assert Ascending(b.groups[g]);
  }

  lemma PlaceExists(b: Batch, i: nat) returns (g: nat, k: nat)
    requires Valid(b) && i < |b.calls|
    ensures g < |b.groups| && k < |b.groups[g]| && b.groups[g][k] == i
  {
    assert SameGroup(b.groups, i, i);
    g :| InGroup(b.groups, g, i);
    k :| 0 <= k < |b.groups[g]| && b.groups[g][k] == i;
  }

  lemma InitInvariant(b: Batch, s0: Store)
    requires Valid(b)
    ensures Invariant(b, s0, Init(b, s0))
  {
    SumZero(RunningFlags(Init(b, s0).tasks));
  }

  lemma {:induction false} FilledMeaning(results: seq<Option<CallResult>>, group: seq<nat>, outputs: seq<CallResult>)
    requires |outputs| == |group| && Ascending(group)
    requires forall k :: 0 <= k < |group| ==> group[k] < |results|
    ensures forall k :: 0 <= k < |group| ==> Filled(results, group, outputs)[group[k]] == Some(outputs[k])
    ensures forall i: nat :: i < |results| && i !in group ==> Filled(results, group, outputs)[i] == results[i]
    decreases |outputs|
  {
    if outputs != [] {
      var results' := results[group[0] := Some(outputs[0])];
      assert Ascending(group[1..]);
      FilledMeaning(results', group[1..], outputs[1..]);
      assert group[0] !in group[1..];
      assert forall i: nat :: i in group[1..] ==> i in group;
      forall k | 0 <= k < |group|
        ensures Filled(results, group, outputs)[group[k]] == Some(outputs[k])
      {
        if k > 0 {
          assert group[k] == group[1..][k - 1] && outputs[k] == outputs[1..][k - 1];
        }
      }
    }
  }

  lemma ShapedStep(b: Batch, s: State, e: Event)
    requires Valid(b) && Shaped(b, s) && Enabled(b, s, e)
    ensures Shaped(b, Next(b, s, e))
  {
  }

  lemma StartedStep(b: Batch, s: State, e: Event)
    requires Valid(b) && Shaped(b, s) && OnlyStartedAccessed(b, s) && Enabled(b, s, e)
    requires Shaped(b, Next(b, s, e))
    ensures OnlyStartedAccessed(b, Next(b, s, e))
  {
    var s' := Next(b, s, e);
    forall g, k | 0 <= g < |b.groups| && 0 <= k < |b.groups[g]| && s'.histories[b.groups[g][k]] != []
      ensures Started(s', g, k)
    {
      if e.Access? && b.groups[g][k] == Current(b, s, e.g) {
        PlaceIsUnique(b, g, k, e.g, s.tasks[e.g].pos);
      } else {
        assert Started(s, g, k);
      }
    }
  }

  lemma OutputsStep(b: Batch, s: State, e: Event)
    requires Valid(b) && Shaped(b, s) && OutputsRecorded(b, s) && Enabled(b, s, e)
    requires Shaped(b, Next(b, s, e))
    ensures OutputsRecorded(b, Next(b, s, e))
  {
    var s' := Next(b, s, e);
    forall g, k | 0 <= g < |b.groups| && 0 <= k < s'.tasks[g].pos
      ensures Records(b, s'.histories, s'.tasks[g].outputs[k], b.groups[g][k])
    {
      if k < s.tasks[g].pos {
        assert Records(b, s.histories, s.tasks[g].outputs[k], b.groups[g][k]);
        if e.Access? && b.groups[g][k] == Current(b, s, e.g) {
          PlaceIsUnique(b, g, k, e.g, s.tasks[e.g].pos);
        }
      }
    }
  }

  lemma SlotsStep(b: Batch, s: State, e: Event)
    requires Valid(b) && Shaped(b, s) && SlotsFilled(b, s) && Enabled(b, s, e)
    requires Shaped(b, Next(b, s, e))
    ensures SlotsFilled(b, Next(b, s, e))
  {
    var s' := Next(b, s, e);
    if e.Join? && s.tasks[e.g].phase.Idle? {
      FilledMeaning(s.results, b.groups[e.g], s.tasks[e.g].outputs);
    }
    forall g, k | 0 <= g < |b.groups| && 0 <= k < |b.groups[g]|
      ensures s'.results[b.groups[g][k]] ==
              if s'.tasks[g].joined && s'.tasks[g].phase.Idle? then Some(s'.tasks[g].outputs[k]) else None
    {
      if g != e.g && b.groups[g][k] in b.groups[e.g] {
        assert InGroup(b.groups, g, b.groups[g][k]) && InGroup(b.groups, e.g, b.groups[g][k]);
      }
    }
  }

  lemma PermitsStep(b: Batch, s: State, e: Event)
    requires Valid(b) && Shaped(b, s) && PermitsConserved(b, s) && Enabled(b, s, e)
    ensures PermitsConserved(b, Next(b, s, e))
  {
    FlagsUpdate(s.tasks, e.g, Next(b, s, e).tasks[e.g]);
    assert s.tasks[e.g := s.tasks[e.g]] == s.tasks;
  }

  lemma InvariantStep(b: Batch, s0: Store, s: State, e: Event)
    requires Valid(b) && Invariant(b, s0, s) && Enabled(b, s, e)
    ensures Invariant(b, s0, Next(b, s, e))
  {
    ShapedStep(b, s, e);
    StartedStep(b, s, e);
    OutputsStep(b, s, e);
    SlotsStep(b, s, e);
    PermitsStep(b, s, e);
  }

  lemma {:induction false} InvariantHolds(b: Batch, s0: Store, states: seq<State>, events: seq<Event>, k: nat)
    requires Valid(b) && Execution(b, s0, states, events) && k < |states|
    ensures Invariant(b, s0, states[k])
  {
    if k == 0 {
      InitInvariant(b, s0);
    } else {
      InvariantHolds(b, s0, states, events, k - 1);
      assert StepAt(b, states, events, k - 1);
      InvariantStep(b, s0, states[k - 1], events[k - 1]);
    }
  }
}
