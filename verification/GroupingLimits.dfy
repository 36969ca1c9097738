/** Where serializability ends: it holds for all tools exactly when every conflict is inside a group,
    so a tool that reaches beyond its listed paths can break it. */
module GroupingLimits {
  import opened Wrappers
  import opened ToolCalls
  import opened Dependencies
  import opened Programs
  import opened Executor
  import opened Scheduling
  import opened Serializability

  /** Whatever the tools do within their footprints, every schedule is equivalent to list order. */
  ghost predicate AlwaysSerializable(b: Batch) {
    forall programs: seq<Program>, s0: Store, states: seq<State>, events: seq<Event> ::
      var c := b.(programs := programs);
      Valid(c) && Execution(c, s0, states, events) && Complete(states[|events|]) ==>
        var s := states[|events|];
        |s.results| == |c.calls| && (AllReturned(c, s) ==> Sequential(c.programs, s0, Outputs(c, s), s.store))
  }

  // ---------------------------------------------------------------------
  // A writer and a reader that tell the order apart
  // ---------------------------------------------------------------------

  const MARK: Content := Some("x")

  /** Call `w` writes a mark, call `r` reports whether it sees the mark, the others do nothing. */
  function ProbeAction(i: nat, p: string, w: nat, r: nat, h: History): Action {
    if h != [] then Return(if i == r && h[0] == MARK then "seen" else "empty")
    else if i == w then Write(p, MARK)
    else if i == r then Read(p)
    else Return("")
  }

  function Probe(i: nat, p: string, w: nat, r: nat): Program {
    (h: History) => ProbeAction(i, p, w, r, h)
  }

  ghost predicate AreProbes(programs: seq<Program>, p: string, w: nat, r: nat) {
    && w < |programs| && r < |programs| && w != r
    && forall i, h :: 0 <= i < |programs| ==> programs[i](h) == ProbeAction(i, p, w, r, h)
  }

  function Probes(n: nat, p: string, w: nat, r: nat): (programs: seq<Program>)
    ensures |programs| == n && forall i, h :: 0 <= i < n ==> programs[i](h) == ProbeAction(i, p, w, r, h)
  {
    if n == 0 then [] else Probes(n - 1, p, w, r) + [Probe(n - 1, p, w, r)]
  }

  /** In list order, the reader sees the mark exactly when the writer precedes it. */
  lemma {:induction false} MarkInListOrder(programs: seq<Program>, p: string, w: nat, r: nat, ks: seq<nat>, i: nat)
    requires AreProbes(programs, p, w, r) && |ks| == |programs| && i <= |programs| && ks[w] > 0
    ensures Get(After(programs, ks, map[], i), p) == if i > w then MARK else None
  {
    if i > 0 {
      MarkInListOrder(programs, p, w, r, ks, i - 1);
      var at, k := After(programs, ks, map[], i - 1), ks[i - 1];
      if i - 1 == w {
        FirstAccess(programs, p, w, r, w, at, k);
      } else {
        assert Confined(programs[i - 1], {p}, {});
        RunKeepsUnwritten(programs[i - 1], {p}, {}, at, k, p);
      }
    }
  }

  /** A probe that makes an access makes exactly one. */
  lemma {:induction false} FirstAccess(programs: seq<Program>, p: string, w: nat, r: nat, i: nat, at: Store, k: nat)
    requires AreProbes(programs, p, w, r) && (i == w || i == r) && k > 0
    ensures Run(programs[i], at, k) ==
            if i == w then Progress(Set(at, p, MARK), [MARK]) else Progress(at, [Get(at, p)])
  {
    var once := Run(programs[i], at, 1);
    assert Run(programs[i], at, 0) == Progress(at, []);
    assert programs[i]([]) == ProbeAction(i, p, w, r, []);
    assert programs[i](once.history) == ProbeAction(i, p, w, r, once.history);
    RunPastReturn(programs[i], at, 1, k);
  }

  lemma ReaderInListOrder(programs: seq<Program>, p: string, w: nat, r: nat, outputs: seq<string>, final: Store)
    requires AreProbes(programs, p, w, r)
    requires Sequential(programs, map[], outputs, final)
    ensures |outputs| == |programs| && outputs[r] == if w < r then "seen" else "empty"
  {
    var ks :| SequentialRun(programs, ks, map[], outputs, final);
    assert ReturnsAt(programs, ks, map[], outputs, w) && ReturnsAt(programs, ks, map[], outputs, r);
    assert programs[w]([]) == ProbeAction(w, p, w, r, []) && programs[r]([]) == ProbeAction(r, p, w, r, []);
    MarkInListOrder(programs, p, w, r, ks, r);
    FirstAccess(programs, p, w, r, r, After(programs, ks, map[], r), ks[r]);
    assert programs[r](HistoryOf(programs, ks, map[], r)) == ProbeAction(r, p, w, r, HistoryOf(programs, ks, map[], r));
  }

  // ---------------------------------------------------------------------
  // Running the later group first
  // ---------------------------------------------------------------------

  ghost predicate ProbeBatch(b: Batch, p: string, w: nat, r: nat) {
    && Valid(b) && b.accessLimit > 0
    && !SameGroup(b.groups, w, r)
    && AreProbes(b.programs, p, w, r)
  }

  /** Nothing timed out or panicked, and finished calls have made their accesses. */
  ghost predicate Undamaged(b: Batch, s: State)
    requires Valid(b) && Shaped(b, s)
  {
    forall g :: 0 <= g < |b.groups| ==>
      && !s.tasks[g].phase.Panicked?
      && forall k :: 0 <= k < s.tasks[g].pos ==>
           s.tasks[g].outputs[k].outcome.Returned? && b.programs[b.groups[g][k]](s.histories[b.groups[g][k]]).Return?
  }

  lemma UndamagedStep(b: Batch, s: State, e: Event)
    requires Valid(b) && Shaped(b, s) && Undamaged(b, s) && Enabled(b, s, e)
    requires !e.Panic? && !e.Timeout?
    ensures Shaped(b, Next(b, s, e)) && Undamaged(b, Next(b, s, e))
  {
    ShapedStep(b, s, e);
    var s' := Next(b, s, e);
    forall g, k | 0 <= g < |b.groups| && 0 <= k < s'.tasks[g].pos
      ensures s'.tasks[g].outputs[k].outcome.Returned?
      ensures b.programs[b.groups[g][k]](s'.histories[b.groups[g][k]]).Return?
    {
    }
  }

  /** The reader has seen, or is bound to see, the opposite of what list order shows it. */
  ghost predicate Spoiled(b: Batch, s: State, p: string, w: nat, r: nat)
    requires |s.histories| == |b.calls| && w < |b.calls| && r < |b.calls|
  {
    || s.histories[r] == [if w < r then None else MARK]
    || (s.histories[r] == [] && r < w && Get(s.store, p) == MARK)
  }

  lemma SpoiledStep(b: Batch, s: State, e: Event, p: string, w: nat, r: nat)
    requires ProbeBatch(b, p, w, r) && Shaped(b, s) && Enabled(b, s, e)
    requires Spoiled(b, s, p, w, r)
    ensures Shaped(b, Next(b, s, e)) && Spoiled(b, Next(b, s, e), p, w, r)
  {
    ShapedStep(b, s, e);
    if e.Access? {
      var c := Current(b, s, e.g);
      assert b.programs[c](s.histories[c]) == ProbeAction(c, p, w, r, s.histories[c]);
    }
  }

  /** Only group `first` has moved: the other calls have made no access. */
  ghost predicate OnlyMoved(b: Batch, s: State, first: nat, p: string, w: nat, r: nat)
    requires Valid(b) && Shaped(b, s) && first < |b.groups| && w < |b.calls| && r < |b.calls|
  {
    && (forall g :: 0 <= g < |b.groups| && g != first ==> s.tasks[g] == Task(0, Idle, [], false))
    && (forall i: nat :: i < |b.calls| && i !in b.groups[first] ==> s.histories[i] == [])
    && (w !in b.groups[first] ==> s.store == map[])
    && (s.histories[w] != [] ==> Get(s.store, p) == MARK)
    && (s.histories[r] != [] && w !in b.groups[first] ==> s.histories[r] == [None])
  }

  lemma OnlyMovedStep(b: Batch, s: State, e: Event, first: nat, p: string, w: nat, r: nat)
    requires ProbeBatch(b, p, w, r) && first < |b.groups| && Shaped(b, s) && Enabled(b, s, e) && e.g == first
    requires OnlyMoved(b, s, first, p, w, r) && (w in b.groups[first] ==> r !in b.groups[first])
    ensures Shaped(b, Next(b, s, e)) && OnlyMoved(b, Next(b, s, e), first, p, w, r)
  {
    ShapedStep(b, s, e);
    if e.Access? {
      var c := Current(b, s, e.g);
      assert c in b.groups[first];
      assert b.programs[c](s.histories[c]) == ProbeAction(c, p, w, r, s.histories[c]);
    }
  }

  /** The next step of group `first` while it is alone. */
  lemma FirstGroupProgress(b: Batch, s0: Store, s: State, first: nat, p: string, w: nat, r: nat) returns (e: Event)
    requires ProbeBatch(b, p, w, r) && Invariant(b, s0, s) && first < |b.groups|
    requires OnlyMoved(b, s, first, p, w, r) && Undamaged(b, s) && s.tasks[first].pos < |b.groups[first]|
    ensures Enabled(b, s, e) && e.g == first && !e.Panic? && !e.Timeout?
  {
    if s.tasks[first].phase.Running? {
      var c := Current(b, s, first);
      assert b.programs[c](s.histories[c]) == ProbeAction(c, p, w, r, s.histories[c]);
      e := if b.programs[c](s.histories[c]).Return? then Finish(first) else Access(first);
    } else {
      Sums.SumZero(RunningFlags(s.tasks));
      e := Acquire(first);
    }
  }

  lemma {:induction false} RunFirstGroup(b: Batch, states: seq<State>, events: seq<Event>, first: nat, p: string,
                                         w: nat, r: nat)
    returns (states': seq<State>, events': seq<Event>)
    requires ProbeBatch(b, p, w, r) && first < |b.groups| && (w in b.groups[first] ==> r !in b.groups[first])
    requires Execution(b, map[], states, events)
    requires Shaped(b, states[|events|]) && Undamaged(b, states[|events|])
    requires OnlyMoved(b, states[|events|], first, p, w, r)
    ensures Execution(b, map[], states', events')
    ensures var s := states'[|events'|];
            && Shaped(b, s) && Undamaged(b, s) && OnlyMoved(b, s, first, p, w, r)
            && s.tasks[first].pos == |b.groups[first]|
    decreases 2 * |b.calls| + 2 * |b.groups| + |b.calls| * b.accessLimit - |events|
  {
    var s := states[|events|];
    if s.tasks[first].pos == |b.groups[first]| {
      states', events' := states, events;
    } else {
      InvariantHolds(b, map[], states, events, |events|);
      var e := FirstGroupProgress(b, map[], s, first, p, w, r);
      UndamagedStep(b, s, e);
      OnlyMovedStep(b, s, e, first, p, w, r);
      ExecutionContinues(b, map[], states, events, e);
      SchedulesAreBounded(b, map[], states + [Next(b, s, e)], events + [e]);
      states', events' := RunFirstGroup(b, states + [Next(b, s, e)], events + [e], first, p, w, r);
    }
  }

  lemma UndamagedProgress(b: Batch, s0: Store, s: State, p: string, w: nat, r: nat) returns (e: Event)
    requires ProbeBatch(b, p, w, r) && Invariant(b, s0, s) && !Complete(s)
    ensures Enabled(b, s, e) && !e.Panic? && !e.Timeout?
  {
    e := AlwaysProgress(b, s0, s);
  }

  lemma {:induction false} RunToEnd(b: Batch, states: seq<State>, events: seq<Event>, p: string, w: nat, r: nat)
    returns (states': seq<State>, events': seq<Event>)
    requires ProbeBatch(b, p, w, r) && Execution(b, map[], states, events)
    requires Shaped(b, states[|events|]) && Undamaged(b, states[|events|]) && Spoiled(b, states[|events|], p, w, r)
    ensures Execution(b, map[], states', events')
    ensures var s := states'[|events'|];
            Shaped(b, s) && Undamaged(b, s) && Spoiled(b, s, p, w, r) && Complete(s)
    decreases 2 * |b.calls| + 2 * |b.groups| + |b.calls| * b.accessLimit - |events|
  {
    var s := states[|events|];
    if Complete(s) {
      states', events' := states, events;
    } else {
      InvariantHolds(b, map[], states, events, |events|);
      var e := UndamagedProgress(b, map[], s, p, w, r);
      UndamagedStep(b, s, e);
      SpoiledStep(b, s, e, p, w, r);
      ExecutionContinues(b, map[], states, events, e);
      SchedulesAreBounded(b, map[], states + [Next(b, s, e)], events + [e]);
      states', events' := RunToEnd(b, states + [Next(b, s, e)], events + [e], p, w, r);
    }
  }

  // ---------------------------------------------------------------------
  // The exact condition
  // ---------------------------------------------------------------------

  /** Footprints for every call, any partition into groups, and time for at least one access. */
  ghost predicate Footprints(b: Batch) {
    && |b.touches| == |b.writes| == |b.calls|
    && (forall i :: 0 <= i < |b.calls| ==> b.writes[i] <= b.touches[i])
    && IsPartition(|b.calls|, b.groups)
    && b.accessLimit > 0
  }

  lemma ProbesAreConfined(b: Batch, p: string, w: nat, r: nat)
    requires Footprints(b) && AreProbes(b.programs, p, w, r) && |b.programs| == |b.calls|
    requires p in b.writes[w] && p in b.touches[r]
    ensures Valid(b)
  {
    forall i | 0 <= i < |b.calls|
      ensures Confined(b.programs[i], b.touches[i], b.writes[i])
    {
    }
  }

  lemma InitIsUnmoved(b: Batch, first: nat, p: string, w: nat, r: nat)
    requires Valid(b) && first < |b.groups| && w < |b.calls| && r < |b.calls|
    ensures var s := Init(b, map[]);
            Shaped(b, s) && Undamaged(b, s) && OnlyMoved(b, s, first, p, w, r)
  {
  }

  /** Group `first` holds one of the probes; once it has run alone, the reader is spoiled. */
  lemma FirstGroupSpoils(b: Batch, s: State, first: nat, p: string, w: nat, r: nat)
    requires ProbeBatch(b, p, w, r) && Shaped(b, s) && Undamaged(b, s) && first < |b.groups|
    requires OnlyMoved(b, s, first, p, w, r) && s.tasks[first].pos == |b.groups[first]|
    requires if w < r then r in b.groups[first] && w !in b.groups[first]
             else w in b.groups[first] && r !in b.groups[first]
    ensures Spoiled(b, s, p, w, r)
  {
    var j := if w < r then r else w;
    var k :| 0 <= k < |b.groups[first]| && b.groups[first][k] == j;
    assert b.programs[j](s.histories[j]) == ProbeAction(j, p, w, r, s.histories[j]);
  }

  lemma SpoiledIsNotSequential(b: Batch, states: seq<State>, events: seq<Event>, p: string, w: nat, r: nat)
    requires ProbeBatch(b, p, w, r) && Execution(b, map[], states, events)
    requires var s := states[|events|];
             Complete(s) && Shaped(b, s) && Undamaged(b, s) && Spoiled(b, s, p, w, r)
    ensures var s := states[|events|];
            AllReturned(b, s) && !Sequential(b.programs, map[], Outputs(b, s), s.store)
  {
    var s := states[|events|];
    InvariantHolds(b, map[], states, events, |events|);
    OneResultPerCall(b, map[], states, events);
    forall i | 0 <= i < |b.calls|
      ensures FinalResults(b, s)[i].outcome.Returned?
      ensures b.programs[i](s.histories[i]) == Return(FinalResults(b, s)[i].outcome.output)
    {
      var g, k := PlaceExists(b, i);
      assert Ended(b, s.tasks[g], g);
      assert Records(b, s.histories, s.tasks[g].outputs[k], i);
    }
    assert b.programs[r](s.histories[r]) == ProbeAction(r, p, w, r, s.histories[r]);
    if Sequential(b.programs, map[], Outputs(b, s), s.store) {
      ReaderInListOrder(b.programs, p, w, r, Outputs(b, s), s.store);
    }
  }

  /** If two conflicting calls are in different groups, there are tools with these footprints and a
      schedule whose results no list-order execution gives. */
  lemma UngroupedConflictBreaks(b: Batch, i: nat, j: nat)
    requires Footprints(b) && i < j < |b.calls| && Conflict(b, i, j) && !SameGroup(b.groups, i, j)
    ensures !AlwaysSerializable(b)
  {
    var p, w, r;
    if b.writes[i] * b.touches[j] != {} {
      p :| p in b.writes[i] * b.touches[j];
      w, r := i, j;
    } else {
      p :| p in b.writes[j] * b.touches[i];
      w, r := j, i;
      assert !SameGroup(b.groups, j, i);
    }
    var c := b.(programs := Probes(|b.calls|, p, w, r));
    ProbesAreConfined(c, p, w, r);
    var first, k := PlaceExists(c, j);
    assert InGroup(c.groups, first, j) && !InGroup(c.groups, first, i);
    InitIsUnmoved(c, first, p, w, r);
    var states, events := RunFirstGroup(c, [Init(c, map[])], [], first, p, w, r);
    FirstGroupSpoils(c, states[|events|], first, p, w, r);
    states, events := RunToEnd(c, states, events, p, w, r);
    SpoiledIsNotSequential(c, states, events, p, w, r);
  }

  /** The exact condition: for given footprints, every schedule of every tool is equivalent to list
      order if and only if conflicting calls share a group. */
  lemma SerializableIffConflictsGrouped(b: Batch)
    requires Footprints(b)
    ensures AlwaysSerializable(b) <==> ConflictsGrouped(b)
  {
    if ConflictsGrouped(b) {
      forall programs: seq<Program>, s0: Store, states: seq<State>, events: seq<Event> |
        var c := b.(programs := programs);
        Valid(c) && Execution(c, s0, states, events) && Complete(states[|events|])
        ensures var c, s := b.(programs := programs), states[|events|];
                |s.results| == |c.calls| && (AllReturned(c, s) ==> Sequential(c.programs, s0, Outputs(c, s), s.store))
      {
        var c := b.(programs := programs);
        assert ConflictsGrouped(c) by {
          assert forall i: nat, j: nat :: i < |b.touches| && j < |b.touches| ==> Conflict(c, i, j) == Conflict(b, i, j);
        }
        Serializable(c, s0, states, events);
      }
    } else {
      var i: nat, j: nat :| i < j < |b.touches| && Conflict(b, i, j) && !SameGroup(b.groups, i, j);
      UngroupedConflictBreaks(b, i, j);
    }
  }

  lemma {:induction false} PathlessCallHasNoPaths(fields: map<string, Json>, keys: seq<string>)
    requires forall k :: k in keys ==> k !in fields
    ensures StringsUnder(fields, keys) == []
  {
    if keys != [] {
      PathlessCallHasNoPaths(fields, keys[1..]);
    }
  }

  lemma {:induction false} IndependentWalkStays(calls: seq<ToolCall>, walk: seq<nat>, k: nat)
    requires |calls| == 2 && !AreDependent(calls[0], calls[1]) && !AreDependent(calls[1], calls[0])
    requires Chain(calls, walk) && k < |walk|
    ensures walk[k] == walk[0]
  {
    if k > 0 {
      IndependentWalkStays(calls, walk, k - 1);
      assert AreDependent(calls[walk[k - 1]], calls[walk[k]]);
      assert walk[k - 1] < 2 && walk[k] < 2;
    }
  }

  lemma IndependentPairGrouping(calls: seq<ToolCall>)
    requires |calls| == 2 && !AreDependent(calls[0], calls[1])
    ensures IsGrouping(calls, [[0], [1]])
  {
    var groups := [[0], [1]];
    DependenceIsSymmetric(calls[0], calls[1]);
    assert InGroup(groups, 0, 0) && InGroup(groups, 1, 1);
    assert IsPartition(2, groups);
    forall x: nat, y: nat | x < 2 && y < 2
      ensures SameGroup(groups, x, y) <==> Linked(calls, x, y)
    {
      if x == y {
        LinkedReflexive(calls, x);
      } else if walk :| Links(calls, walk, x, y) {
        IndependentWalkStays(calls, walk, |walk| - 1);
      }
    }
  }

  lemma PathlessShellIndependent(shell: ToolCall, write: ToolCall)
    requires shell.name == "shell" && shell.arguments == Object(map["command" := String("make")])
    requires write.name == "file_write" && ExtractFilePaths(write.arguments) != []
    ensures !AreDependent(shell, write)
  {
    PathlessCallHasNoPaths(shell.arguments.fields, PATH_KEYS);
    assert ExtractFilePaths(write.arguments)[0] in Paths(write);
    assert Paths(shell) == {};
  }

  /** A `shell` call without path arguments and a `file_write` are never reported as dependent, though the
      shell may well change the file: with such a shell the batch is not serializable. */
  lemma HiddenShellAccessBreaks(shell: ToolCall, write: ToolCall)
    requires shell.name == "shell" && shell.arguments == Object(map["command" := String("make")])
    requires write.name == "file_write" && ExtractFilePaths(write.arguments) == ["out"]
    ensures IsGrouping([shell, write], [[0], [1]])
    ensures !AlwaysSerializable(Batch([shell, write], [[0], [1]], [], [{"out"}, {"out"}], [{"out"}, {"out"}], 0, 1))
  {
    PathlessShellIndependent(shell, write);
    IndependentPairGrouping([shell, write]);
    UngroupedPairBreaks([shell, write]);
  }

  lemma UngroupedPairBreaks(calls: seq<ToolCall>)
    requires |calls| == 2 && IsGrouping(calls, [[0], [1]])
    ensures !AlwaysSerializable(Batch(calls, [[0], [1]], [], [{"out"}, {"out"}], [{"out"}, {"out"}], 0, 1))
  {
    var b := Batch(calls, [[0], [1]], [], [{"out"}, {"out"}], [{"out"}, {"out"}], 0, 1);
    assert "out" in b.writes[0] * b.touches[1];
    assert b.groups[0] == [0] && b.groups[1] == [1];
    UngroupedConflictBreaks(b, 0, 1);
  }
}
