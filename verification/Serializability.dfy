/** Running the groups concurrently gives what running the calls in list order gives. */
module Serializability {
  import opened Wrappers
  import opened ToolCalls
  import opened Dependencies
  import opened Programs
  import opened Executor
  import opened Scheduling

  lemma InitReplays(b: Batch, s0: Store)
    requires Valid(b)
    ensures Replays(b.programs, s0, s0, Init(b, s0).histories)
  {
    var ks := Lengths(Init(b, s0).histories);
    forall i | 0 <= i <= |b.calls| ensures After(b.programs, ks, s0, i) == s0 {
      NothingRan(b.programs, ks, s0, i);
    }
  }

  lemma {:induction false} NothingRan(programs: seq<Program>, ks: seq<nat>, s0: Store, i: nat)
    requires |ks| == |programs| && i <= |programs| && forall j :: 0 <= j < |ks| ==> ks[j] == 0
    ensures After(programs, ks, s0, i) == s0
  {
    if i > 0 {
      NothingRan(programs, ks, s0, i - 1);
    }
  }

  /** While a call runs, no later call that conflicts with it has begun. */
  lemma RunningCallUndisturbed(b: Batch, s0: Store, s: State, g: nat)
    requires Valid(b) && ConflictsGrouped(b) && Invariant(b, s0, s)
    requires g < |s.tasks| && s.tasks[g].phase.Running?
    ensures Undisturbed(b.programs, b.touches, b.writes, Lengths(s.histories), Current(b, s, g))
  {
    var c, ks := Current(b, s, g), Lengths(s.histories);
    assert Ascending(b.groups[g]);
    forall i: nat | c < i < |b.calls| && ks[i] > 0
      ensures !Conflict(b, c, i)
    {
      if Conflict(b, c, i) {
        assert SameGroup(b.groups, c, i);
        var h, l := PlaceExists(b, i);
        assert InGroup(b.groups, g, c) && InGroup(b.groups, h, i);
      }
    }
    forall i | c < i < |b.calls| && ks[i] > 0
      ensures b.writes[c] * b.touches[i] == {} && b.writes[i] * b.touches[c] == {}
    {
      assert !Conflict(b, c, i);
    }
  }

  lemma ReplayStep(b: Batch, s0: Store, s: State, e: Event, s': State)
    requires Valid(b) && ConflictsGrouped(b) && Invariant(b, s0, s)
    requires Replays(b.programs, s0, s.store, s.histories) && Enabled(b, s, e) && s' == Next(b, s, e)
    ensures Replays(b.programs, s0, s'.store, s'.histories)
  {
    if e.Access? {
      RunningCallUndisturbed(b, s0, s, e.g);
      AccessReplays(b.programs, b.touches, b.writes, s0, s.store, s.histories, Current(b, s, e.g));
    }
  }

  lemma NextStateReplays(b: Batch, s0: Store, states: seq<State>, events: seq<Event>, k: nat)
    requires Valid(b) && ConflictsGrouped(b) && Execution(b, s0, states, events) && k < |events|
    requires Replays(b.programs, s0, states[k].store, states[k].histories)
    ensures Replays(b.programs, s0, states[k + 1].store, states[k + 1].histories)
  {
    InvariantHolds(b, s0, states, events, k);
    assert StepAt(b, states, events, k);
    ReplayStep(b, s0, states[k], events[k], states[k + 1]);
  }

  /** At every point of every schedule, with calls half-way through, timed out or panicked, the store and
      what each call has seen are exactly those of list-order execution cut off at the same accesses. */
  lemma EveryStateReplays(b: Batch, s0: Store, states: seq<State>, events: seq<Event>, k: nat)
    requires Valid(b) && ConflictsGrouped(b) && Execution(b, s0, states, events) && k < |states|
    ensures Replays(b.programs, s0, states[k].store, states[k].histories)
  {
    InitReplays(b, s0);
    for i := 0 to k
      invariant Replays(b.programs, s0, states[i].store, states[i].histories)
    {
      NextStateReplays(b, s0, states, events, i);
    }
  }

  /** Every call came to its return. */
  ghost predicate AllReturned(b: Batch, s: State)
    requires |s.results| == |b.calls|
  {
    forall i :: 0 <= i < |b.calls| ==> FinalResults(b, s)[i].outcome.Returned?
  }

  ghost function Outputs(b: Batch, s: State): (outputs: seq<string>)
    requires |s.results| == |b.calls| && AllReturned(b, s)
  {
    seq(|b.calls|, i requires 0 <= i < |b.calls| => FinalResults(b, s)[i].outcome.output)
  }

  /** Serializability: a completed schedule in which every call returned ends with the store and the
      per-call outputs of running the calls one after another in list order. */
  lemma Serializable(b: Batch, s0: Store, states: seq<State>, events: seq<Event>)
    requires Valid(b) && ConflictsGrouped(b) && Execution(b, s0, states, events)
    requires Complete(states[|events|])
    ensures var s := states[|events|];
            Shaped(b, s) && (AllReturned(b, s) ==> Sequential(b.programs, s0, Outputs(b, s), s.store))
  {
    EveryStateReplays(b, s0, states, events, |events|);
    InvariantHolds(b, s0, states, events, |events|);
    OneResultPerCall(b, s0, states, events);
    var s := states[|events|];
    if AllReturned(b, s) {
      var ks := Lengths(s.histories);
      forall i | 0 <= i < |b.calls|
        ensures b.programs[i](HistoryOf(b.programs, ks, s0, i)) == Return(Outputs(b, s)[i])
      {
        var g, k := PlaceExists(b, i);
        assert Ended(b, s.tasks[g], g);
        assert Records(b, s.histories, s.tasks[g].outputs[k], i);
      }
      assert SequentialRun(b.programs, ks, s0, Outputs(b, s), s.store);
    }
  }

  /** The calls and programs of two batches agree; grouping, limits and schedule may differ. */
  ghost predicate SameCalls(a: Batch, b: Batch) {
    a.calls == b.calls && a.programs == b.programs
  }

  /** Nothing a caller can observe depends on the schedule, the grouping or the concurrency limit. */
  lemma SchedulesAgree(a: Batch, b: Batch, s0: Store, states: seq<State>, events: seq<Event>,
                       states': seq<State>, events': seq<Event>)
    requires Valid(a) && Valid(b) && SameCalls(a, b) && ConflictsGrouped(a) && ConflictsGrouped(b)
    requires Execution(a, s0, states, events) && Execution(b, s0, states', events')
    requires Complete(states[|events|]) && Complete(states'[|events'|])
    ensures var s, s' := states[|events|], states'[|events'|];
            && Shaped(a, s) && Shaped(b, s')
            && (AllReturned(a, s) && AllReturned(b, s') ==>
                  s.store == s'.store && FinalResults(a, s) == FinalResults(b, s'))
  {
    Serializable(a, s0, states, events);
    Serializable(b, s0, states', events');
    OneResultPerCall(a, s0, states, events);
    OneResultPerCall(b, s0, states', events');
    var s, s' := states[|events|], states'[|events'|];
    if AllReturned(a, s) && AllReturned(b, s') {
      SequentialIsDeterministic(a.programs, s0, Outputs(a, s), Outputs(b, s'), s.store, s'.store);
      forall i | 0 <= i < |a.calls| ensures FinalResults(a, s)[i] == FinalResults(b, s')[i] {
        assert Outputs(a, s)[i] == Outputs(b, s')[i];
      }
    }
  }

  // ---------------------------------------------------------------------
  // The heuristic and calls that keep to their paths
  // ---------------------------------------------------------------------

  /** Each call touches only the paths in its arguments and writes only those the heuristic expects. */
  ghost predicate KeepToPaths(b: Batch) {
    && |b.touches| == |b.writes| == |b.calls|
    && forall i :: 0 <= i < |b.calls| ==>
         b.touches[i] <= Paths(b.calls[i]) && b.writes[i] <= WritePaths(b.calls[i])
  }

  lemma KeepToPathsGrouped(b: Batch)
    requires KeepToPaths(b) && IsGrouping(b.calls, b.groups)
    ensures ConflictsGrouped(b)
  {
    forall i: nat, j: nat | i < j < |b.touches| && Conflict(b, i, j)
      ensures SameGroup(b.groups, i, j)
    {
      DependenceMeaning(b.calls[i], b.calls[j]);
      if p :| p in b.writes[i] * b.touches[j] {
        assert p in WritePaths(b.calls[i]) * Paths(b.calls[j]);
      } else {
        var p :| p in b.writes[j] * b.touches[i];
        assert p in WritePaths(b.calls[j]) * Paths(b.calls[i]);
      }
      LinkedByDependence(b.calls, i, j);
    }
  }

  /** With the groups of `DetectDependencies`, calls that keep to their paths are serializable. */
  lemma PathRespectingCallsSerializable(b: Batch, s0: Store, states: seq<State>, events: seq<Event>)
    requires Valid(b) && IsGrouping(b.calls, b.groups) && KeepToPaths(b)
    requires Execution(b, s0, states, events) && Complete(states[|events|])
    ensures var s := states[|events|];
            Shaped(b, s) && (AllReturned(b, s) ==> Sequential(b.programs, s0, Outputs(b, s), s.store))
  {
    KeepToPathsGrouped(b);
    Serializable(b, s0, states, events);
  }
}
