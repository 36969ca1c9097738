/** Blueprint phases, their dependencies, and the task graph made of them. */
module Phases {
  import opened Wrappers
  import opened Decimals
  import opened TaskGraph

  datatype Annotation = ParallelWith(number: nat) | Independent

  datatype Phase = Phase(id: string, name: string, goal: string, body: string, dependsOn: seq<string>)

  const PREFIX: string := "phase-"

  function PhaseId(number: nat): string {
    PREFIX + Print(number)
  }

  /** The number read back from an id, 0 if it has none. */
  function NumberOf(id: string): nat {
    if PREFIX <= id then ParseU32(id[|PREFIX|..]).GetOr(0) else 0
  }

  lemma NumberOfPhaseId(number: nat)
    requires number < U32_LIMIT
    ensures NumberOf(PhaseId(number)) == number
  {
    assert PhaseId(number)[|PREFIX|..] == Print(number);
    PrintThenParse(number);
  }

  /** The annotations by phase number; a later one for the same number wins. */
  function Collected(annotations: seq<(nat, Annotation)>): (byNumber: map<nat, Annotation>) {
    if annotations == [] then map[]
    else
      var last := annotations[|annotations| - 1];
      Collected(annotations[..|annotations| - 1])[last.0 := last.1]
  }

  lemma {:induction false} LaterAnnotationWins(annotations: seq<(nat, Annotation)>, number: nat, annotation: Annotation)
    ensures Collected(annotations + [(number, annotation)]) == Collected(annotations)[number := annotation]
  {
    assert (annotations + [(number, annotation)])[..|annotations|] == annotations;
  }

  /** The first phase with this id, from position `i` on; the end if there is none. */
  function FirstWithId(phases: seq<Phase>, id: string, i: nat): (found: nat)
    requires i <= |phases|
    ensures i <= found <= |phases|
    ensures found < |phases| ==> phases[found].id == id
    decreases |phases| - i
  {
    if i == |phases| || phases[i].id == id then i else FirstWithId(phases, id, i + 1)
  }

  lemma {:induction false} FirstWithIdIsFirst(phases: seq<Phase>, id: string, i: nat)
    requires i <= |phases|
    ensures forall j :: i <= j < FirstWithId(phases, id, i) ==> phases[j].id != id
    decreases |phases| - i
  {
    if i < |phases| && phases[i].id != id {
      FirstWithIdIsFirst(phases, id, i + 1);
    }
  }

  lemma {:induction false} SameIdsSameFirst(phases: seq<Phase>, others: seq<Phase>, id: string, i: nat)
    requires |phases| == |others| && i <= |phases|
    requires forall j :: 0 <= j < |phases| ==> phases[j].id == others[j].id
    ensures FirstWithId(phases, id, i) == FirstWithId(others, id, i)
    decreases |phases| - i
  {
    if i < |phases| {
      SameIdsSameFirst(phases, others, id, i + 1);
    }
  }

  // ---------------------------------------------------------------------
  // Dependencies
  // ---------------------------------------------------------------------

  /** What phase `i` depends on in the end. An annotated phase takes over the dependencies of an earlier
      phase in their final form, but those of a later phase as they were. */
  function Dependencies(phases: seq<Phase>, byNumber: map<nat, Annotation>, i: nat): (dependencies: seq<string>)
    requires i < |phases|
  {
    var number := NumberOf(phases[i].id);
    if number in byNumber then
      match byNumber[number]
      case Independent => []
      case ParallelWith(n) =>
        var target := FirstWithId(phases, PhaseId(n), 0);
        if target < i then Dependencies(phases, byNumber, target)
        else if target < |phases| then phases[target].dependsOn
        else []
    else if i > 0 then [phases[i - 1].id]
    else phases[0].dependsOn
  }

  function Linked(phases: seq<Phase>, byNumber: map<nat, Annotation>): (linked: seq<Phase>) {
    seq(|phases|, i requires 0 <= i < |phases| => phases[i].(dependsOn := Dependencies(phases, byNumber, i)))
  }

  /** Where the pass stands before phase `i`: the phases below `i` are linked, the others untouched. */
  ghost predicate LinkedUpTo(now: seq<Phase>, before: seq<Phase>, byNumber: map<nat, Annotation>, i: nat) {
    && |now| == |before|
    && forall j :: 0 <= j < |now| ==> now[j] == if j < i then Linked(before, byNumber)[j] else before[j]
  }

  method CollectAnnotations(annotations: seq<(nat, Annotation)>) returns (byNumber: map<nat, Annotation>)
    ensures byNumber == Collected(annotations)
  {
    byNumber := map[];
    for i := 0 to |annotations|
      invariant byNumber == Collected(annotations[..i])
    {
      assert annotations[..i + 1][..i] == annotations[..i];
      byNumber := byNumber[annotations[i].0 := annotations[i].1];
    }
    assert annotations[..|annotations|] == annotations;
  }

  /** What the pass finds when it looks up the target of a parallel phase. */
  lemma {:induction false} TargetIsLinked(now: seq<Phase>, before: seq<Phase>, byNumber: map<nat, Annotation>,
                                          i: nat, n: nat)
    requires LinkedUpTo(now, before, byNumber, i) && i < |now|
    requires var number := NumberOf(before[i].id); number in byNumber && byNumber[number] == ParallelWith(n)
    ensures var target := FirstWithId(now, PhaseId(n), 0);
            Dependencies(before, byNumber, i) == if target < |now| then now[target].dependsOn else []
  {
    SameIdsSameFirst(now, before, PhaseId(n), 0);
  }

  lemma {:induction false} LinkedStep(now: seq<Phase>, before: seq<Phase>, byNumber: map<nat, Annotation>, i: nat)
    requires LinkedUpTo(now, before, byNumber, i) && i < |now|
    ensures LinkedUpTo(now[i := now[i].(dependsOn := Dependencies(before, byNumber, i))], before, byNumber, i + 1)
  {
  }

  /** The single pass that overwrites the dependencies in place. */
  method ApplyDependencies(phases: array<Phase>, annotations: seq<(nat, Annotation)>)
    modifies phases
    ensures phases[..] == Linked(old(phases[..]), Collected(annotations))
  {
    ghost var before := phases[..];
    var byNumber := CollectAnnotations(annotations);
    for i := 0 to phases.Length
      invariant LinkedUpTo(phases[..], before, byNumber, i)
    {
      ghost var now := phases[..];
      LinkedStep(now, before, byNumber, i);
      var number := NumberOf(phases[i].id);
      if number in byNumber {
        match byNumber[number] {
          case Independent =>
            phases[i] := phases[i].(dependsOn := []);
          case ParallelWith(n) =>
            var target := FirstWithId(phases[..], PhaseId(n), 0);
            TargetIsLinked(now, before, byNumber, i, n);
            var dependencies := if target < phases.Length then phases[target].dependsOn else [];
            phases[i] := phases[i].(dependsOn := dependencies);
        }
      } else if i > 0 {
        phases[i] := phases[i].(dependsOn := [phases[i - 1].id]);
      }
      assert phases[..] == now[i := now[i].(dependsOn := Dependencies(before, byNumber, i))];
    }
  }

  /** As they come from the parser: no dependencies yet. */
  ghost predicate Unlinked(phases: seq<Phase>) {
    forall i :: 0 <= i < |phases| ==> phases[i].dependsOn == []
  }

  /** Every phase depends on at most one phase, a strictly earlier one. */
  lemma {:induction false} DependsOnlyEarlier(phases: seq<Phase>, byNumber: map<nat, Annotation>, i: nat)
    requires Unlinked(phases) && i < |phases|
    ensures var dependencies := Dependencies(phases, byNumber, i);
            dependencies == [] || exists j :: 0 <= j < i && dependencies == [phases[j].id]
    decreases i
  {
    var number := NumberOf(phases[i].id);
    if number in byNumber && byNumber[number].ParallelWith? {
      var target := FirstWithId(phases, PhaseId(byNumber[number].number), 0);
      if target < i {
        DependsOnlyEarlier(phases, byNumber, target);
      }
    }
  }

  ghost predicate DistinctIds(phases: seq<Phase>) {
    forall i, j :: 0 <= i < j < |phases| ==> phases[i].id != phases[j].id
  }

  /** With distinct ids, "parallel with N" means the dependencies of N if N comes earlier, and none if it comes
      later, is the phase itself or does not exist. */
  lemma ParallelMeaning(phases: seq<Phase>, byNumber: map<nat, Annotation>, i: nat, n: nat)
    requires Unlinked(phases) && DistinctIds(phases) && i < |phases|
    requires NumberOf(phases[i].id) in byNumber && byNumber[NumberOf(phases[i].id)] == ParallelWith(n)
    ensures forall j {:trigger phases[j]} :: 0 <= j < i && phases[j].id == PhaseId(n) ==>
              Linked(phases, byNumber)[i].dependsOn == Linked(phases, byNumber)[j].dependsOn
    ensures (forall j :: 0 <= j < i ==> phases[j].id != PhaseId(n)) ==> Linked(phases, byNumber)[i].dependsOn == []
  {
    FirstWithIdIsFirst(phases, PhaseId(n), 0);
  }

  // ---------------------------------------------------------------------
  // The task graph
  // ---------------------------------------------------------------------

  function Tasks(phases: seq<Phase>): (tasks: seq<Task>) {
    seq(|phases|, i requires 0 <= i < |phases| => Task(phases[i].id, phases[i].dependsOn))
  }

  ghost function GraphOf(phases: seq<Phase>): Option<Graph> {
    if phases == [] || !Accepted(Tasks(phases)) then None else Some(Graph(EdgesOf(Tasks(phases)), IdsOf(Tasks(phases))))
  }

  /** The graph has the ids of the phases in their order, and each phase its own dependencies. */
  lemma GraphMeaning(phases: seq<Phase>, i: nat)
    requires GraphOf(phases).Some? && i < |phases|
    ensures var graph := GraphOf(phases).value;
            && |graph.order| == |phases| && graph.order[i] == phases[i].id
            && (forall id :: id in graph.edges <==> id in graph.order)
            && graph.edges[phases[i].id] == phases[i].dependsOn
  {
    EdgesMeaning(Tasks(phases));
    assert Tasks(phases)[i].id == phases[i].id;
  }

  /** Builds the graph of the phases; nothing comes of no phases, or if the validation refuses them. */
  method PhasesToTaskGraph(phases: seq<Phase>) returns (graph: Option<Graph>)
    ensures graph == GraphOf(phases)
  {
    if phases == [] {
      return None;
    }
    var result := New(Tasks(phases));
    return if result.Valid? then Some(result.graph) else None;
  }

  /** Dependencies only on earlier tasks. */
  ghost predicate Backward(tasks: seq<Task>) {
    forall t :: 0 <= t < |tasks| ==> BackwardAt(tasks, t)
  }

  ghost predicate BackwardAt(tasks: seq<Task>, t: nat)
    requires t < |tasks|
  {
    forall id :: id in tasks[t].dependencies ==> id in IdsOf(tasks)[..t]
  }

  lemma LinkedIsBackward(phases: seq<Phase>, byNumber: map<nat, Annotation>)
    requires Unlinked(phases)
    ensures Backward(Tasks(Linked(phases, byNumber)))
  {
    var tasks := Tasks(Linked(phases, byNumber));
    forall t | 0 <= t < |tasks| ensures BackwardAt(tasks, t) {
      DependsOnlyEarlier(phases, byNumber, t);
      forall id | id in tasks[t].dependencies ensures id in IdsOf(tasks)[..t] {
        var s :| 0 <= s < t && tasks[t].dependencies == [phases[s].id];
        assert IdsOf(tasks)[..t][s] == id;
      }
    }
  }

  /** Then the list itself is a topological order of the tasks. */
  lemma {:induction false} BackwardIsTopological(tasks: seq<Task>)
    requires Backward(tasks) && Distinct(IdsOf(tasks))
    ensures Topological(EdgesOf(tasks), IdsOf(tasks))
  {
    EdgesMeaning(tasks);
    var ids := IdsOf(tasks);
    forall t | 0 <= t < |ids| ensures PlacedAt(EdgesOf(tasks), ids, t) {
      assert BackwardAt(tasks, t) && EdgesOf(tasks)[tasks[t].id] == tasks[t].dependencies;
    }
  }

  lemma BackwardIsAccepted(tasks: seq<Task>)
    requires Backward(tasks) && Distinct(IdsOf(tasks))
    ensures Accepted(tasks)
  {
    var edges, ids := EdgesOf(tasks), IdsOf(tasks);
    EdgesMeaning(tasks);
    BackwardIsTopological(tasks);
    TopologicalIsAcyclic(edges, ids);
    forall id, other | DependsOn(edges, id, other) ensures other in edges {
      var t :| 0 <= t < |ids| && ids[t] == id;
      assert PlacedAt(edges, ids, t);
    }
  }

  /** The graph is built exactly when there are phases and their ids are distinct: neither a missing id nor a cycle
      ever stands in the way. */
  lemma GraphBuildsIff(phases: seq<Phase>, byNumber: map<nat, Annotation>)
    requires Unlinked(phases)
    ensures GraphOf(Linked(phases, byNumber)).Some? <==> phases != [] && DistinctIds(phases)
  {
    var tasks := Tasks(Linked(phases, byNumber));
    LinkedIsBackward(phases, byNumber);
    if DistinctIds(phases) {
      BackwardIsAccepted(tasks);
    } else {
      var i, j :| 0 <= i < j < |phases| && phases[i].id == phases[j].id;
      assert IdsOf(tasks)[i] == IdsOf(tasks)[j];
    }
  }
}
