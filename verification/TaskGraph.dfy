/** The task graph: its validation by Kahn's algorithm, its topological order, and why work on it never gets stuck. */
module TaskGraph {
  import opened Wrappers

  datatype Task = Task(id: string, dependencies: seq<string>)

  /** The dependencies of every task, by id. */
  type Edges = map<string, seq<string>>

  datatype Graph = Graph(edges: Edges, order: seq<string>)

  datatype Validation =
    | Valid(graph: Graph)
    | DuplicateId(id: string)
    | UnknownDependency(id: string, dependency: string)
    | DependencyCycle

  // ---------------------------------------------------------------------
  // What is accepted
  // ---------------------------------------------------------------------

  function EdgesOf(tasks: seq<Task>): (edges: Edges) {
    if tasks == [] then map[]
    else
      var last := tasks[|tasks| - 1];
      EdgesOf(tasks[..|tasks| - 1])[last.id := last.dependencies]
  }

  function IdsOf(tasks: seq<Task>): (ids: seq<string>) {
    seq(|tasks|, t requires 0 <= t < |tasks| => tasks[t].id)
  }

  ghost predicate Distinct(ids: seq<string>) {
    forall s, t :: 0 <= s < t < |ids| ==> ids[s] != ids[t]
  }

  /** Every dependency is a task. */
  ghost predicate Closed(edges: Edges) {
    forall id, other :: DependsOn(edges, id, other) ==> other in edges
  }

  predicate DependsOn(edges: Edges, id: string, other: string) {
    id in edges && other in edges[id]
  }

  ghost predicate IsPath(edges: Edges, path: seq<string>) {
    path != [] && forall k :: 0 <= k < |path| - 1 ==> DependsOn(edges, path[k], path[k + 1])
  }

  ghost predicate Acyclic(edges: Edges) {
    forall path :: IsPath(edges, path) && |path| >= 2 ==> path[0] != path[|path| - 1]
  }

  /** What the graph is documented to accept: distinct ids, dependencies that exist, and no cycle. */
  ghost predicate Accepted(tasks: seq<Task>) {
    Distinct(IdsOf(tasks)) && Closed(EdgesOf(tasks)) && Acyclic(EdgesOf(tasks))
  }

  /** Which ids have edges, and with distinct ids, which edges. */
  lemma {:induction false} EdgesMeaning(tasks: seq<Task>)
    ensures forall id :: id in EdgesOf(tasks) <==> id in IdsOf(tasks)
    ensures Distinct(IdsOf(tasks)) ==> forall t :: 0 <= t < |tasks| ==>
              tasks[t].id in EdgesOf(tasks) && EdgesOf(tasks)[tasks[t].id] == tasks[t].dependencies
  {
    if tasks != [] {
      var front, ids := tasks[..|tasks| - 1], IdsOf(tasks);
      EdgesMeaning(front);
      assert ids == IdsOf(front) + [tasks[|tasks| - 1].id];
      if Distinct(ids) {
        forall s, t | 0 <= s < t < |IdsOf(front)| ensures IdsOf(front)[s] != IdsOf(front)[t] {
          assert ids[s] != ids[t];
        }
        forall t | 0 <= t < |tasks|
          ensures tasks[t].id in EdgesOf(tasks) && EdgesOf(tasks)[tasks[t].id] == tasks[t].dependencies
        {
          if t < |front| {
            assert front[t] == tasks[t] && ids[t] != ids[|front|];
          }
        }
      }
    }
  }

  // ---------------------------------------------------------------------
  // Topological orders
  // ---------------------------------------------------------------------

  /** Position `k` of the order is a new task whose dependencies all come before it. */
  ghost predicate PlacedAt(edges: Edges, order: seq<string>, k: nat)
    requires k < |order|
  {
    order[k] in edges && order[k] !in order[..k] && forall other :: other in edges[order[k]] ==> other in order[..k]
  }

  ghost predicate Topological(edges: Edges, order: seq<string>) {
    forall k :: 0 <= k < |order| ==> PlacedAt(edges, order, k)
  }

  ghost function Visited(order: seq<string>): (visited: set<string>) {
    set id | id in order
  }

  lemma TopologicalGrows(edges: Edges, order: seq<string>, id: string)
    requires Topological(edges, order) && id in edges && id !in order
    requires forall other :: other in edges[id] ==> other in order
    ensures Topological(edges, order + [id]) && Visited(order + [id]) == Visited(order) + {id}
  {
    var order' := order + [id];
    forall k | 0 <= k < |order'| ensures PlacedAt(edges, order', k) {
      assert order'[..k] == order[..k];
      assert k < |order| ==> PlacedAt(edges, order, k);
    }
  }

  lemma {:induction false} VisitedSize(edges: Edges, order: seq<string>)
    requires Topological(edges, order)
    ensures |Visited(order)| == |order| && Visited(order) <= edges.Keys
  {
    if order != [] {
      var front, last := order[..|order| - 1], order[|order| - 1];
      forall k | 0 <= k < |front| ensures PlacedAt(edges, front, k) {
        assert front[..k] == order[..k] && PlacedAt(edges, order, k);
      }
      VisitedSize(edges, front);
      assert PlacedAt(edges, order, |order| - 1);
      assert order == front + [last];
      assert Visited(order) == Visited(front) + {last};
    }
  }

  /** Along a path positions go down. */
  lemma {:induction false} PathsGoBack(edges: Edges, order: seq<string>, path: seq<string>, t: nat)
    requires Topological(edges, order) && IsPath(edges, path) && |path| >= 2 && t < |order| && order[t] == path[0]
    ensures path[|path| - 1] in order[..t]
  {
    assert DependsOn(edges, path[0], path[1]) && PlacedAt(edges, order, t);
    var s: nat :| s < t && order[s] == path[1];
    if |path| > 2 {
      var rest := path[1..];
      forall k | 0 <= k < |rest| - 1 ensures DependsOn(edges, rest[k], rest[k + 1]) {
        assert rest[k] == path[k + 1] && DependsOn(edges, path[k + 1], path[k + 1 + 1]);
      }
      PathsGoBack(edges, order, rest, s);
    }
  }

  /** A topological order of all tasks leaves no cycle. */
  lemma TopologicalIsAcyclic(edges: Edges, order: seq<string>)
    requires Topological(edges, order) && forall id :: id in edges ==> id in order
    ensures Acyclic(edges)
  {
    forall path | IsPath(edges, path) && |path| >= 2 ensures path[0] != path[|path| - 1] {
      assert DependsOn(edges, path[0], path[1]);
      var t: nat :| t < |order| && order[t] == path[0];
      PathsGoBack(edges, order, path, t);
      assert PlacedAt(edges, order, t);
    }
  }

  /** Each of these tasks depends on another one of them. */
  ghost predicate Stuck(edges: Edges, ids: set<string>) {
    forall id {:trigger DependsWithin(edges, ids, id)} :: id in ids ==> DependsWithin(edges, ids, id)
  }

  ghost predicate DependsWithin(edges: Edges, ids: set<string>, id: string) {
    exists other :: other in ids && DependsOn(edges, id, other)
  }

  lemma PathGrows(edges: Edges, path: seq<string>, other: string)
    requires IsPath(edges, path) && DependsOn(edges, path[|path| - 1], other)
    ensures IsPath(edges, path + [other])
  {
    var path' := path + [other];
    forall k | 0 <= k < |path'| - 1 ensures DependsOn(edges, path'[k], path'[k + 1]) {
      assert k < |path| - 1 ==> DependsOn(edges, path[k], path[k + 1]);
    }
  }

  lemma PathSuffix(edges: Edges, path: seq<string>, j: nat)
    requires IsPath(edges, path) && j < |path|
    ensures IsPath(edges, path[j..])
  {
    forall k | 0 <= k < |path[j..]| - 1 ensures DependsOn(edges, path[j..][k], path[j..][k + 1]) {
      assert DependsOn(edges, path[j + k], path[j + k + 1]);
    }
  }

  /** A path that meets itself ends in a cycle. */
  lemma MeetsItself(edges: Edges, path: seq<string>, j: nat)
    requires IsPath(edges, path) && j < |path| - 1 && path[j] == path[|path| - 1]
    ensures !Acyclic(edges)
  {
    PathSuffix(edges, path, j);
    assert path[j..][0] == path[j..][|path[j..]| - 1];
  }

  lemma {:induction false} StuckPath(edges: Edges, ids: set<string>, path: seq<string>)
    requires Stuck(edges, ids) && IsPath(edges, path) && path[|path| - 1] in ids
    ensures !Acyclic(edges)
    decreases ids - Visited(path)
  {
    var last := path[|path| - 1];
    assert DependsWithin(edges, ids, last);
    var other :| other in ids && DependsOn(edges, last, other);
    PathGrows(edges, path, other);
    if other in path {
      var j :| 0 <= j < |path| && path[j] == other;
      MeetsItself(edges, path + [other], j);
    } else {
      assert Visited(path + [other]) == Visited(path) + {other};
      StuckPath(edges, ids, path + [other]);
    }
  }

  /** Stuck tasks have a cycle: a path among them has to meet itself. */
  lemma StuckHasCycle(edges: Edges, ids: set<string>)
    requires ids != {} && Stuck(edges, ids)
    ensures !Acyclic(edges)
  {
    var id :| id in ids;
    StuckPath(edges, ids, [id]);
  }

  // ---------------------------------------------------------------------
  // Kahn's algorithm
  // ---------------------------------------------------------------------

  /** How many of the dependencies are still to be visited. */
  function Waiting(dependencies: seq<string>, visited: set<string>): (n: nat) {
    if dependencies == [] then 0
    else (if dependencies[0] in visited then 0 else 1) + Waiting(dependencies[1..], visited)
  }

  lemma {:induction false} WaitingMeaning(dependencies: seq<string>, visited: set<string>)
    ensures Waiting(dependencies, visited) == 0 <==> forall other :: other in dependencies ==> other in visited
    ensures visited == {} ==> Waiting(dependencies, visited) == |dependencies|
  {
    if dependencies != [] {
      WaitingMeaning(dependencies[1..], visited);
      assert forall other :: other in dependencies <==> other == dependencies[0] || other in dependencies[1..];
    }
  }

  /** Visiting a task releases one dependency for each time it is listed. */
  lemma {:induction false} WaitingAfter(dependencies: seq<string>, visited: set<string>, id: string)
    requires id !in visited
    ensures Waiting(dependencies, visited + {id}) + multiset(dependencies)[id] == Waiting(dependencies, visited)
  {
    if dependencies != [] {
      WaitingAfter(dependencies[1..], visited, id);
      assert dependencies == [dependencies[0]] + dependencies[1..];
    }
  }

  type Degrees = map<string, nat>

  ghost function Occurrences(s: seq<string>, x: string): nat {
    multiset(s)[x]
  }

  lemma OneMore(s: seq<string>, y: string, x: string)
    ensures Occurrences(s + [y], x) == Occurrences(s, x) + (if x == y then 1 else 0)
  {
  }

  /** `dependents` lists `id` under `other` as often as the first `n` dependencies of `id` name `other`. */
  ghost predicate ListedUnder(edges: Edges, dependents: Edges, id: string, n: nat, other: string)
    requires id in edges && n <= |edges[id]|
  {
    other in dependents && Occurrences(dependents[other], id) == Occurrences(edges[id][..n], other)
  }

  ghost predicate Listed(edges: Edges, dependents: Edges, id: string, n: nat)
    requires id in edges && n <= |edges[id]|
  {
    forall other {:trigger ListedUnder(edges, dependents, id, n, other)} ::
      other in edges ==> ListedUnder(edges, dependents, id, n, other)
  }

  /** The first `n` dependencies of `id` are counted. */
  ghost predicate CountedUpTo(edges: Edges, inDegree: Degrees, dependents: Edges, id: string, n: nat)
    requires id in edges && n <= |edges[id]|
  {
    id in inDegree && inDegree[id] == n && Listed(edges, dependents, id, n)
  }

  /** Where the counting stands: the tasks of `done` are counted completely, the others not at all. */
  ghost predicate Counted(edges: Edges, inDegree: Degrees, dependents: Edges, done: set<string>) {
    && inDegree.Keys == dependents.Keys == edges.Keys
    && forall id {:trigger CountedFor(edges, inDegree, dependents, done, id)} ::
         id in edges ==> CountedFor(edges, inDegree, dependents, done, id)
  }

  ghost predicate CountedFor(edges: Edges, inDegree: Degrees, dependents: Edges, done: set<string>, id: string)
    requires id in edges
  {
    CountedUpTo(edges, inDegree, dependents, id, if id in done then |edges[id]| else 0)
  }

  /** Entering `id` under its next dependency. */
  lemma Entered(edges: Edges, dependents: Edges, id: string, n: nat)
    requires Closed(edges) && dependents.Keys == edges.Keys && id in edges && n < |edges[id]|
    requires Listed(edges, dependents, id, n)
    ensures DependsOn(edges, id, edges[id][n])
    ensures var other := edges[id][n];
            Listed(edges, dependents[other := dependents[other] + [id]], id, n + 1)
  {
    var other := edges[id][n];
    assert DependsOn(edges, id, other);
    var dependents' := dependents[other := dependents[other] + [id]];
    assert edges[id][..n + 1] == edges[id][..n] + [other];
    forall o | o in edges ensures ListedUnder(edges, dependents', id, n + 1, o) {
      assert ListedUnder(edges, dependents, id, n, o);
      OneMore(edges[id][..n], other, o);
      OneMore(dependents[o], id, id);
    }
  }

  lemma OthersListed(edges: Edges, dependents: Edges, id: string, other: string, task: string, n: nat)
    requires dependents.Keys == edges.Keys && other in edges && task in edges && task != id && n <= |edges[task]|
    requires Listed(edges, dependents, task, n)
    ensures Listed(edges, dependents[other := dependents[other] + [id]], task, n)
  {
    var dependents' := dependents[other := dependents[other] + [id]];
    forall o | o in edges ensures ListedUnder(edges, dependents', task, n, o) {
      assert ListedUnder(edges, dependents, task, n, o);
      OneMore(dependents[o], id, task);
    }
  }

  /** Counting `id` leaves the counts of the other tasks as they are. */
  ghost predicate OthersCounted(edges: Edges, inDegree: Degrees, dependents: Edges, done: set<string>, id: string) {
    forall task {:trigger CountedFor(edges, inDegree, dependents, done, task)} ::
      task in edges && task != id ==> CountedFor(edges, inDegree, dependents, done, task)
  }

  lemma CountOne(edges: Edges, inDegree: Degrees, dependents: Edges, done: set<string>, id: string, n: nat)
    requires Closed(edges) && inDegree.Keys == dependents.Keys == edges.Keys && id in edges && n < |edges[id]|
    requires CountedUpTo(edges, inDegree, dependents, id, n) && OthersCounted(edges, inDegree, dependents, done, id)
    ensures DependsOn(edges, id, edges[id][n])
    ensures var other := edges[id][n];
            var inDegree', dependents' := inDegree[id := n + 1], dependents[other := dependents[other] + [id]];
            && CountedUpTo(edges, inDegree', dependents', id, n + 1)
            && OthersCounted(edges, inDegree', dependents', done, id)
  {
    var other := edges[id][n];
    assert DependsOn(edges, id, other);
    Entered(edges, dependents, id, n);
    var inDegree', dependents' := inDegree[id := n + 1], dependents[other := dependents[other] + [id]];
    forall task | task in edges && task != id ensures CountedFor(edges, inDegree', dependents', done, task) {
      assert CountedFor(edges, inDegree, dependents, done, task);
      OthersListed(edges, dependents, id, other, task, if task in done then |edges[task]| else 0);
    }
  }

  lemma NothingCounted(edges: Edges, inDegree: Degrees, dependents: Edges)
    requires inDegree.Keys == dependents.Keys == edges.Keys
    requires forall id :: id in edges ==> inDegree[id] == 0 && dependents[id] == []
    ensures Counted(edges, inDegree, dependents, {})
  {
    forall id | id in edges ensures CountedFor(edges, inDegree, dependents, {}, id) {
      forall other | other in edges ensures ListedUnder(edges, dependents, id, 0, other) {
        assert Occurrences(dependents[other], id) == Occurrences(edges[id][..0], other) == 0;
      }
    }
  }

  lemma NextCounted(edges: Edges, inDegree: Degrees, dependents: Edges, done: set<string>, id: string)
    requires Counted(edges, inDegree, dependents, done) && id in edges && id !in done
    ensures CountedUpTo(edges, inDegree, dependents, id, 0) && OthersCounted(edges, inDegree, dependents, done, id)
  {
    assert CountedFor(edges, inDegree, dependents, done, id);
  }

  lemma OneCounted(edges: Edges, inDegree: Degrees, dependents: Edges, done: set<string>, id: string)
    requires inDegree.Keys == dependents.Keys == edges.Keys && id in edges
    requires CountedUpTo(edges, inDegree, dependents, id, |edges[id]|)
    requires OthersCounted(edges, inDegree, dependents, done, id)
    ensures Counted(edges, inDegree, dependents, done + {id})
  {
    forall task | task in edges ensures CountedFor(edges, inDegree, dependents, done + {id}, task) {
      assert task != id ==> CountedFor(edges, inDegree, dependents, done, task);
    }
  }

  /** Counts the dependencies of one task and enters it under each of them. */
  method CountTask(edges: Edges, id: string, inDegree0: Degrees, dependents0: Edges, ghost done: set<string>)
    returns (inDegree: Degrees, dependents: Edges)
    requires Closed(edges) && id in edges && id !in done && Counted(edges, inDegree0, dependents0, done)
    ensures Counted(edges, inDegree, dependents, done + {id})
  {
    inDegree, dependents := inDegree0, dependents0;
    NextCounted(edges, inDegree, dependents, done, id);
    for n := 0 to |edges[id]|
      invariant inDegree.Keys == dependents.Keys == edges.Keys
      invariant CountedUpTo(edges, inDegree, dependents, id, n)
      invariant OthersCounted(edges, inDegree, dependents, done, id)
    {
      CountOne(edges, inDegree, dependents, done, id, n);
      var other := edges[id][n];
      dependents := dependents[other := dependents[other] + [id]];
      inDegree := inDegree[id := inDegree[id] + 1];
    }
    OneCounted(edges, inDegree, dependents, done, id);
  }

  /** Counts the dependencies of every task, in the order in which the hash map happens to give them. */
  method CountEdges(edges: Edges) returns (inDegree: Degrees, dependents: Edges)
    requires Closed(edges)
    ensures Counted(edges, inDegree, dependents, edges.Keys)
  {
    inDegree := map id | id in edges :: 0;
    dependents := map id | id in edges :: [];
    NothingCounted(edges, inDegree, dependents);
    ghost var done := {};
    var rest := edges.Keys;
    while rest != {}
      invariant rest + done == edges.Keys && rest !! done && Counted(edges, inDegree, dependents, done)
      decreases rest
    {
      var id :| id in rest;
      inDegree, dependents := CountTask(edges, id, inDegree, dependents, done);
      rest, done := rest - {id}, done + {id};
    }
  }

  /** The tasks without dependencies, in any order. */
  method InitialQueue(inDegree: Degrees) returns (queue: seq<string>)
    ensures Distinct(queue) && forall id :: id in queue <==> id in inDegree && inDegree[id] == 0
  {
    queue := [];
    var rest := inDegree.Keys;
    while rest != {}
      invariant rest <= inDegree.Keys && Distinct(queue)
      invariant forall id :: id in queue <==> id in inDegree.Keys - rest && inDegree[id] == 0
    {
      var id :| id in rest;
      if inDegree[id] == 0 {
        queue := queue + [id];
      }
      rest := rest - {id};
    }
  }

  /** The first `n` of the dependents are released. */
  ghost predicate Lowered(inDegree: Degrees, inDegree0: Degrees, dependents: seq<string>, n: nat)
    requires n <= |dependents|
  {
    && inDegree.Keys == inDegree0.Keys
    && forall id {:trigger LoweredFor(inDegree, inDegree0, dependents, n, id)} ::
         id in inDegree0 ==> LoweredFor(inDegree, inDegree0, dependents, n, id)
  }

  ghost predicate LoweredFor(inDegree: Degrees, inDegree0: Degrees, dependents: seq<string>, n: nat, id: string)
    requires n <= |dependents|
  {
    id in inDegree && id in inDegree0 && inDegree[id] + Occurrences(dependents[..n], id) == inDegree0[id]
  }

  /** Everyone is listed at most as often as its in-degree says. */
  ghost predicate Releasable(inDegree: Degrees, dependents: seq<string>) {
    forall id {:trigger ReleasableFor(inDegree, dependents, id)} ::
      id in inDegree ==> ReleasableFor(inDegree, dependents, id)
  }

  ghost predicate ReleasableFor(inDegree: Degrees, dependents: seq<string>, id: string) {
    id in inDegree && Occurrences(dependents, id) <= inDegree[id]
  }

  /** Queued in addition: whoever has reached zero. */
  ghost predicate Queued(queue: seq<string>, queue0: seq<string>, inDegree: Degrees, inDegree0: Degrees) {
    && Distinct(queue)
    && forall id :: id in queue <==> id in queue0 || ReachedZero(inDegree, inDegree0, id)
  }

  ghost predicate ReachedZero(inDegree: Degrees, inDegree0: Degrees, id: string) {
    id in inDegree && id in inDegree0 && inDegree[id] == 0 < inDegree0[id]
  }

  lemma SomeLeft(inDegree: Degrees, inDegree0: Degrees, dependents: seq<string>, n: nat)
    requires n < |dependents| && Lowered(inDegree, inDegree0, dependents, n) && Releasable(inDegree0, dependents)
    requires dependents[n] in inDegree
    ensures inDegree[dependents[n]] > 0
  {
    var id := dependents[n];
    assert LoweredFor(inDegree, inDegree0, dependents, n, id) && ReleasableFor(inDegree0, dependents, id);
    assert dependents == dependents[..n] + [id] + dependents[n + 1..];
  }

  lemma LoweredNext(inDegree: Degrees, inDegree0: Degrees, dependents: seq<string>, n: nat)
    requires n < |dependents| && Lowered(inDegree, inDegree0, dependents, n)
    ensures var id := dependents[n];
            && (id !in inDegree ==> Lowered(inDegree, inDegree0, dependents, n + 1))
            && (id in inDegree && inDegree[id] > 0 ==>
                  Lowered(inDegree[id := inDegree[id] - 1], inDegree0, dependents, n + 1))
  {
    var id := dependents[n];
    assert dependents[..n + 1] == dependents[..n] + [id];
    forall task | task in inDegree0 ensures LoweredFor(inDegree, inDegree0, dependents, n, task) {
    }
    forall task | task in inDegree0
      ensures id !in inDegree ==> LoweredFor(inDegree, inDegree0, dependents, n + 1, task)
      ensures id in inDegree && inDegree[id] > 0 ==>
                LoweredFor(inDegree[id := inDegree[id] - 1], inDegree0, dependents, n + 1, task)
    {
      OneMore(dependents[..n], id, task);
    }
  }

  lemma QueuedNext(queue: seq<string>, queue0: seq<string>, inDegree: Degrees, inDegree0: Degrees, id: string)
    requires Queued(queue, queue0, inDegree, inDegree0) && id in inDegree && inDegree[id] > 0
    requires id in inDegree0 && inDegree0[id] > 0 && id !in queue0
    ensures var inDegree' := inDegree[id := inDegree[id] - 1];
            Queued(if inDegree'[id] == 0 then queue + [id] else queue, queue0, inDegree', inDegree0)
  {
    assert id !in queue;
  }

  /** Lowers the in-degree of the dependents of a visited task and queues those that reach zero. */
  method Release(dependents: seq<string>, inDegree0: Degrees, queue0: seq<string>)
    returns (inDegree: Degrees, queue: seq<string>)
    requires Releasable(inDegree0, dependents)
    requires Distinct(queue0) && forall id :: id in queue0 ==> id in inDegree0 && inDegree0[id] == 0
    ensures Lowered(inDegree, inDegree0, dependents, |dependents|)
    ensures Queued(queue, queue0, inDegree, inDegree0)
  {
    inDegree, queue := inDegree0, queue0;
    for n := 0 to |dependents|
      invariant Lowered(inDegree, inDegree0, dependents, n)
      invariant Queued(queue, queue0, inDegree, inDegree0)
    {
      var id := dependents[n];
      LoweredNext(inDegree, inDegree0, dependents, n);
      if id in inDegree {
        SomeLeft(inDegree, inDegree0, dependents, n);
        assert LoweredFor(inDegree, inDegree0, dependents, n, id);
        QueuedNext(queue, queue0, inDegree, inDegree0, id);
        inDegree := inDegree[id := inDegree[id] - 1];
        if inDegree[id] == 0 {
          queue := queue + [id];
        }
      }
    }
  }

  /** The in-degree of a task is what it still waits for. */
  ghost predicate DegreesFit(edges: Edges, inDegree: Degrees, visited: set<string>) {
    && inDegree.Keys == edges.Keys
    && forall id {:trigger DegreeFits(edges, inDegree, visited, id)} ::
         id in edges ==> DegreeFits(edges, inDegree, visited, id)
  }

  ghost predicate DegreeFits(edges: Edges, inDegree: Degrees, visited: set<string>, id: string) {
    id in edges && id in inDegree && inDegree[id] == Waiting(edges[id], visited)
  }

  /** The queue holds the tasks that wait for nothing and are not visited yet. */
  ghost predicate QueueFits(inDegree: Degrees, queue: seq<string>, visited: set<string>) {
    Distinct(queue) && forall id :: id in queue <==> IsNext(inDegree, visited, id)
  }

  ghost predicate IsNext(inDegree: Degrees, visited: set<string>, id: string) {
    id in inDegree && id !in visited && inDegree[id] == 0
  }

  lemma StartFits(edges: Edges, inDegree: Degrees, dependents: Edges)
    requires Counted(edges, inDegree, dependents, edges.Keys)
    ensures DegreesFit(edges, inDegree, {})
  {
    forall id | id in edges ensures DegreeFits(edges, inDegree, {}, id) {
      assert CountedFor(edges, inDegree, dependents, edges.Keys, id);
      WaitingMeaning(edges[id], {});
    }
  }

  lemma {:induction false} ReleasedAre(edges: Edges, counted: Degrees, dependents: Edges, visited: set<string>,
                                       node: string, id: string)
    requires Counted(edges, counted, dependents, edges.Keys) && node in edges && node !in visited && id in edges
    ensures Waiting(edges[id], visited + {node}) + Occurrences(dependents[node], id) == Waiting(edges[id], visited)
  {
    assert CountedFor(edges, counted, dependents, edges.Keys, id);
    assert ListedUnder(edges, dependents, id, |edges[id]|, node);
    assert edges[id][..|edges[id]|] == edges[id];
    WaitingAfter(edges[id], visited, node);
  }

  lemma NodeIsReleasable(edges: Edges, counted: Degrees, dependents: Edges, inDegree: Degrees, visited: set<string>,
                         node: string)
    requires Counted(edges, counted, dependents, edges.Keys) && DegreesFit(edges, inDegree, visited)
    requires node in edges && node !in visited
    ensures Releasable(inDegree, dependents[node])
  {
    forall id | id in inDegree ensures ReleasableFor(inDegree, dependents[node], id) {
      assert DegreeFits(edges, inDegree, visited, id);
      ReleasedAre(edges, counted, dependents, visited, node, id);
    }
  }

  lemma ReleaseFits(edges: Edges, counted: Degrees, dependents: Edges, inDegree: Degrees, inDegree': Degrees,
                    visited: set<string>, node: string)
    requires Counted(edges, counted, dependents, edges.Keys) && DegreesFit(edges, inDegree, visited)
    requires node in edges && node !in visited
    requires Lowered(inDegree', inDegree, dependents[node], |dependents[node]|)
    ensures DegreesFit(edges, inDegree', visited + {node})
  {
    assert dependents[node][..|dependents[node]|] == dependents[node];
    forall id | id in edges ensures DegreeFits(edges, inDegree', visited + {node}, id) {
      assert DegreeFits(edges, inDegree, visited, id);
      assert LoweredFor(inDegree', inDegree, dependents[node], |dependents[node]|, id);
      ReleasedAre(edges, counted, dependents, visited, node, id);
    }
  }

  /** Visited tasks wait for nothing. */
  lemma VisitedWaitForNothing(edges: Edges, inDegree: Degrees, order: seq<string>, id: string)
    requires Topological(edges, order) && DegreesFit(edges, inDegree, Visited(order)) && id in order
    ensures id in inDegree && inDegree[id] == 0
  {
    var k :| 0 <= k < |order| && order[k] == id;
    assert PlacedAt(edges, order, k) && DegreeFits(edges, inDegree, Visited(order), id);
    WaitingMeaning(edges[id], Visited(order));
  }

  /** The next task may be visited: all its dependencies are. */
  lemma NextIsReady(edges: Edges, inDegree: Degrees, order: seq<string>, id: string)
    requires DegreesFit(edges, inDegree, Visited(order)) && IsNext(inDegree, Visited(order), id)
    ensures id in edges && id !in order && forall other :: other in edges[id] ==> other in order
  {
    assert DegreeFits(edges, inDegree, Visited(order), id);
    WaitingMeaning(edges[id], Visited(order));
  }

  lemma QueueStillFits(edges: Edges, inDegree: Degrees, inDegree': Degrees, order: seq<string>, queue: seq<string>,
                       queue': seq<string>)
    requires Topological(edges, order) && DegreesFit(edges, inDegree, Visited(order))
    requires QueueFits(inDegree, queue, Visited(order)) && queue != [] && inDegree'.Keys == inDegree.Keys
    requires forall id :: id in inDegree ==> inDegree'[id] <= inDegree[id]
    requires Queued(queue', queue[1..], inDegree', inDegree)
    ensures QueueFits(inDegree', queue', Visited(order) + {queue[0]})
  {
    var node := queue[0];
    assert node in queue;
    forall id ensures id in queue' <==> IsNext(inDegree', Visited(order) + {node}, id) {
      assert id in queue <==> id == node || id in queue[1..];
      if id in order {
        VisitedWaitForNothing(edges, inDegree, order, id);
      }
    }
  }

  /** Without anything to visit, all tasks are visited exactly if there is no cycle. */
  lemma VisitEnds(edges: Edges, inDegree: Degrees, order: seq<string>)
    requires Closed(edges) && Topological(edges, order) && DegreesFit(edges, inDegree, Visited(order))
    requires forall id :: !IsNext(inDegree, Visited(order), id)
    ensures Visited(order) == edges.Keys <==> Acyclic(edges)
  {
    VisitedSize(edges, order);
    if Visited(order) == edges.Keys {
      assert forall id :: id in edges ==> id in Visited(order);
      TopologicalIsAcyclic(edges, order);
    } else {
      var left := edges.Keys - Visited(order);
      assert edges.Keys == Visited(order) + left;
      forall id | id in left ensures DependsWithin(edges, left, id) {
        assert DegreeFits(edges, inDegree, Visited(order), id) && !IsNext(inDegree, Visited(order), id);
        WaitingMeaning(edges[id], Visited(order));
        var other :| other in edges[id] && other !in Visited(order);
        assert DependsOn(edges, id, other);
      }
      StuckHasCycle(edges, left);
    }
  }

  lemma FullSize(visited: set<string>, all: set<string>)
    requires visited <= all
    ensures |visited| == |all| <==> visited == all
  {
    assert all == visited + (all - visited);
  }

  /** Visits the first task of the queue. */
  method VisitNext(edges: Edges, ghost counted: Degrees, dependents: Edges, inDegree0: Degrees, order0: seq<string>,
                   queue0: seq<string>)
    returns (order: seq<string>, inDegree: Degrees, queue: seq<string>)
    requires Counted(edges, counted, dependents, edges.Keys) && Topological(edges, order0)
    requires DegreesFit(edges, inDegree0, Visited(order0)) && QueueFits(inDegree0, queue0, Visited(order0))
    requires queue0 != []
    ensures Topological(edges, order)
    ensures DegreesFit(edges, inDegree, Visited(order)) && QueueFits(inDegree, queue, Visited(order))
    ensures Visited(order) == Visited(order0) + {queue0[0]} && queue0[0] in edges && queue0[0] !in Visited(order0)
  {
    var node := queue0[0];
    assert node in queue0;
    NextIsReady(edges, inDegree0, order0, node);
    TopologicalGrows(edges, order0, node);
    NodeIsReleasable(edges, counted, dependents, inDegree0, Visited(order0), node);
    order := order0 + [node];
    forall s, t | 0 <= s < t < |queue0[1..]| ensures queue0[1..][s] != queue0[1..][t] {
      assert queue0[s + 1] != queue0[t + 1];
    }
    forall id | id in queue0[1..] ensures id in inDegree0 && inDegree0[id] == 0 {
      assert id in queue0 && IsNext(inDegree0, Visited(order0), id);
    }
    inDegree, queue := Release(dependents[node], inDegree0, queue0[1..]);
    ReleaseFits(edges, counted, dependents, inDegree0, inDegree, Visited(order0), node);
    forall id | id in inDegree0 ensures inDegree[id] <= inDegree0[id] {
      assert LoweredFor(inDegree, inDegree0, dependents[node], |dependents[node]|, id);
    }
    QueueStillFits(edges, inDegree0, inDegree, order0, queue0, queue);
  }

  /** The queue loop: visits every task whose dependencies are visited, in an order that depends on the hash maps. */
  method Visit(edges: Edges) returns (order: seq<string>)
    requires Closed(edges)
    ensures Topological(edges, order)
    ensures |order| == |edges| <==> Acyclic(edges)
    ensures Acyclic(edges) ==> Visited(order) == edges.Keys
  {
    var inDegree, dependents := CountEdges(edges);
    ghost var counted := inDegree;
    var queue := InitialQueue(inDegree);
    order := [];
    assert Visited(order) == {};
    StartFits(edges, inDegree, dependents);
    while queue != []
      invariant inDegree.Keys == edges.Keys && Topological(edges, order)
      invariant DegreesFit(edges, inDegree, Visited(order)) && QueueFits(inDegree, queue, Visited(order))
      decreases edges.Keys - Visited(order)
    {
      order, inDegree, queue := VisitNext(edges, counted, dependents, inDegree, order, queue);
    }
    VisitedSize(edges, order);
    VisitEnds(edges, inDegree, order);
    FullSize(Visited(order), edges.Keys);
  }

  // ---------------------------------------------------------------------
  // Building the graph
  // ---------------------------------------------------------------------

  /** An id that occurs twice, if there is one. */
  method FindDuplicate(tasks: seq<Task>) returns (duplicate: Option<string>)
    ensures duplicate.None? <==> Distinct(IdsOf(tasks))
    ensures duplicate.Some? ==> exists s, t :: 0 <= s < t < |tasks| && tasks[s].id == tasks[t].id == duplicate.value
  {
    var seen: set<string> := {};
    for t := 0 to |tasks|
      invariant seen == Visited(IdsOf(tasks)[..t]) && Distinct(IdsOf(tasks)[..t])
    {
      var ids := IdsOf(tasks);
      assert ids[..t + 1] == ids[..t] + [ids[t]];
      if tasks[t].id in seen {
        var s :| 0 <= s < t && ids[s] == tasks[t].id;
        return Some(tasks[t].id);
      }
      seen := seen + {tasks[t].id};
    }
    assert IdsOf(tasks)[..|tasks|] == IdsOf(tasks);
    return None;
  }

  /** The tasks by id. */
  method CollectEdges(tasks: seq<Task>) returns (edges: Edges)
    ensures edges == EdgesOf(tasks)
  {
    edges := map[];
    for t := 0 to |tasks|
      invariant edges == EdgesOf(tasks[..t])
    {
      assert tasks[..t + 1][..t] == tasks[..t];
      edges := edges[tasks[t].id := tasks[t].dependencies];
    }
    assert tasks[..|tasks|] == tasks;
  }

  /** A dependency that is no task, if there is one; which one depends on the hash map. */
  method FindUnknown(edges: Edges) returns (found: bool, id: string, dependency: string)
    ensures found <==> !Closed(edges)
    ensures found ==> DependsOn(edges, id, dependency) && dependency !in edges
  {
    found, id, dependency := false, "", "";
    var rest := edges.Keys;
    while rest != {}
      invariant rest <= edges.Keys
      invariant forall task, other :: task !in rest && DependsOn(edges, task, other) ==> other in edges
    {
      id :| id in rest;
      for k := 0 to |edges[id]|
        invariant forall j :: 0 <= j < k ==> edges[id][j] in edges
      {
        dependency := edges[id][k];
        if dependency !in edges {
          assert DependsOn(edges, id, dependency);
          return true, id, dependency;
        }
      }
      rest := rest - {id};
    }
  }

  /** Validates the tasks: the graph is built exactly if they are as documented, and each refusal is true. */
  method New(tasks: seq<Task>) returns (result: Validation)
    ensures result.Valid? <==> Accepted(tasks)
    ensures result.Valid? ==> result.graph == Graph(EdgesOf(tasks), IdsOf(tasks))
    ensures result.DuplicateId? <==> !Distinct(IdsOf(tasks))
    ensures result.DuplicateId? ==> exists s, t :: 0 <= s < t < |tasks| && tasks[s].id == tasks[t].id == result.id
    ensures result.UnknownDependency? <==> Distinct(IdsOf(tasks)) && !Closed(EdgesOf(tasks))
    ensures result.UnknownDependency? ==>
              DependsOn(EdgesOf(tasks), result.id, result.dependency) && result.dependency !in EdgesOf(tasks)
  {
    var duplicate := FindDuplicate(tasks);
    if duplicate.Some? {
      return DuplicateId(duplicate.value);
    }
    var edges := CollectEdges(tasks);
    var found, id, dependency := FindUnknown(edges);
    if found {
      return UnknownDependency(id, dependency);
    }
    var visited := Visit(edges);
    if |visited| != |edges| {
      return DependencyCycle;
    }
    return Valid(Graph(edges, IdsOf(tasks)));
  }

  /** An order in which every task comes once and after all its dependencies, exactly if there is no cycle. */
  method TopologicalOrder(edges: Edges) returns (order: Option<seq<string>>)
    requires Closed(edges)
    ensures order.Some? <==> Acyclic(edges)
    ensures order.Some? ==> Topological(edges, order.value) && Visited(order.value) == edges.Keys
  {
    var visited := Visit(edges);
    return if |visited| != |edges| then None else Some(visited);
  }

  // ---------------------------------------------------------------------
  // Progress
  // ---------------------------------------------------------------------

  datatype Status = Pending | Running | Completed | Failed

  /** Pending, with every dependency completed. */
  ghost predicate Ready(edges: Edges, status: map<string, Status>, id: string) {
    && id in edges && id in status && status[id] == Pending
    && forall other :: other in edges[id] ==> other in status && status[other] == Completed
  }

  /** Nothing runs and nothing has failed. */
  ghost predicate Settled(edges: Edges, status: map<string, Status>) {
    forall id :: id in edges ==> id in status && status[id] in {Pending, Completed}
  }

  ghost predicate WorkLeft(edges: Edges, status: map<string, Status>) {
    exists id :: id in edges && id in status && status[id] == Pending
  }

  ghost predicate SomeReady(edges: Edges, status: map<string, Status>) {
    exists id :: Ready(edges, status, id)
  }

  /** As long as nothing runs or has failed and something is pending, some task is ready. */
  lemma SomeTaskIsReady(edges: Edges, status: map<string, Status>)
    requires Closed(edges) && Acyclic(edges) && Settled(edges, status) && WorkLeft(edges, status)
    ensures SomeReady(edges, status)
  {
    if !SomeReady(edges, status) {
      var left := set id | id in edges && status[id] == Pending;
      var id :| id in edges && id in status && status[id] == Pending;
      assert id in left;
      forall id | id in left ensures DependsWithin(edges, left, id) {
        assert !Ready(edges, status, id);
        var other :| other in edges[id] && !(other in status && status[other] == Completed);
        assert DependsOn(edges, id, other);
      }
      StuckHasCycle(edges, left);
    }
  }

  /** The tasks of a cycle pending and all others completed: nothing is ready. */
  lemma CycleBlocks(edges: Edges, path: seq<string>) returns (status: map<string, Status>)
    requires Closed(edges) && IsPath(edges, path) && |path| >= 2 && path[0] == path[|path| - 1]
    ensures Settled(edges, status) && WorkLeft(edges, status) && !SomeReady(edges, status)
  {
    status := map id | id in edges :: if id in path then Pending else Completed;
    assert DependsOn(edges, path[0], path[1]);
    forall id ensures !Ready(edges, status, id) {
      if id in edges && id in path {
        var k :| 0 <= k < |path| && path[k] == id;
        var j := if k < |path| - 1 then k else 0;
        assert DependsOn(edges, path[j], path[j + 1]);
      }
    }
  }

  predicate IsReady(edges: Edges, status: map<string, Status>, id: string) {
    && id in edges && id in status && status[id] == Pending
    && forall other | other in edges[id] :: other in status && status[other] == Completed
  }

  function ReadyIn(edges: Edges, status: map<string, Status>, order: seq<string>): (ready: seq<string>) {
    if order == [] then []
    else
      var last := order[|order| - 1];
      ReadyIn(edges, status, order[..|order| - 1]) + (if IsReady(edges, status, last) then [last] else [])
  }

  lemma {:induction false} ReadyInMeaning(edges: Edges, status: map<string, Status>, order: seq<string>)
    ensures forall id :: id in ReadyIn(edges, status, order) <==> id in order && Ready(edges, status, id)
  {
    if order != [] {
      var front, last := order[..|order| - 1], order[|order| - 1];
      ReadyInMeaning(edges, status, front);
      assert order == front + [last];
    }
  }

  /** What marking a task as running says. */
  datatype Mark = Done | NotFound | AlreadyEnded | WaitsFor(dependency: string)

  /** The tasks of a graph at work. */
  class Work {
    const graph: Graph
    var status: map<string, Status>

    constructor (graph: Graph)
      ensures this.graph == graph && status == map id | id in graph.edges :: Pending
    {
      this.graph := graph;
      status := map id | id in graph.edges :: Pending;
    }

    /** As the validation leaves it. */
    ghost predicate IsSound() {
      Closed(graph.edges) && Acyclic(graph.edges) && Visited(graph.order) == graph.edges.Keys
    }

    /** In the order of the list, the pending tasks all of whose dependencies are completed; there is one as long as
        something is pending and nothing runs or has failed. */
    method ReadyTasks() returns (ready: seq<string>)
      ensures ready == ReadyIn(graph.edges, status, graph.order)
      ensures forall id :: id in ready <==>
                && id in graph.order && id in graph.edges && id in status && status[id] == Pending
                && forall other :: other in graph.edges[id] ==> other in status && status[other] == Completed
      ensures IsSound() && Settled(graph.edges, status) && WorkLeft(graph.edges, status) ==> ready != []
    {
      ready := [];
      for k := 0 to |graph.order|
        invariant ready == ReadyIn(graph.edges, status, graph.order[..k])
      {
        assert graph.order[..k + 1][..k] == graph.order[..k];
        var id := graph.order[k];
        if IsReady(graph.edges, status, id) {
          ready := ready + [id];
        }
      }
      assert graph.order[..|graph.order|] == graph.order;
      ReadyInMeaning(graph.edges, status, graph.order);
      if IsSound() && Settled(graph.edges, status) && WorkLeft(graph.edges, status) {
        SomeTaskIsReady(graph.edges, status);
        var id :| Ready(graph.edges, status, id);
        assert id in Visited(graph.order);
      }
    }

    /** A task starts only if it is pending and all its dependencies are completed. */
    method MarkRunning(id: string) returns (mark: Mark)
      requires status.Keys == graph.edges.Keys
      modifies this`status
      ensures status == if old(id in status && status[id] == Pending) && mark.Done? then old(status)[id := Running]
                        else old(status)
      ensures mark.NotFound? <==> id !in old(status)
      ensures mark.AlreadyEnded? <==> id in old(status) && old(status)[id] in {Completed, Failed}
      ensures mark.Done? <==>
                && id in old(status)
                && (old(status)[id] == Running
                    || (old(status)[id] == Pending
                        && forall other :: other in graph.edges[id] ==>
                             other in old(status) && old(status)[other] == Completed))
      ensures mark.WaitsFor? ==>
                && id in graph.edges && mark.dependency in graph.edges[id]
                && !(mark.dependency in old(status) && old(status)[mark.dependency] == Completed)
    {
      if id !in status {
        return NotFound;
      }
      match status[id] {
        case Pending =>
        case Running => return Done;
        case _ => return AlreadyEnded;
      }
      for k := 0 to |graph.edges[id]|
        invariant forall j :: 0 <= j < k ==> graph.edges[id][j] in status && status[graph.edges[id][j]] == Completed
      {
        var other := graph.edges[id][k];
        if other !in status || status[other] != Completed {
          return WaitsFor(other);
        }
      }
      status := status[id := Running];
      mark := Done;
    }

    method MarkCompleted(id: string) returns (mark: Mark)
      modifies this`status
      ensures mark == if id in old(status) then Done else NotFound
      ensures status == if id in old(status) then old(status)[id := Completed] else old(status)
    {
      if id !in status {
        return NotFound;
      }
      status := status[id := Completed];
      mark := Done;
    }

    method MarkFailed(id: string) returns (mark: Mark)
      modifies this`status
      ensures mark == if id in old(status) then Done else NotFound
      ensures status == if id in old(status) then old(status)[id := Failed] else old(status)
    {
      if id !in status {
        return NotFound;
      }
      status := status[id := Failed];
      mark := Done;
    }
  }

  /** Why cycles are refused: a graph without unknown dependencies has no cycle if and only if, in every state in
      which nothing runs or has failed and something is pending, some task is ready. */
  lemma AcyclicIffProgress(edges: Edges)
    requires Closed(edges)
    ensures Acyclic(edges) <==>
              forall status :: Settled(edges, status) && WorkLeft(edges, status) ==> SomeReady(edges, status)
  {
    if Acyclic(edges) {
      forall status | Settled(edges, status) && WorkLeft(edges, status) ensures SomeReady(edges, status) {
        SomeTaskIsReady(edges, status);
      }
    } else {
      var path :| IsPath(edges, path) && |path| >= 2 && path[0] == path[|path| - 1];
      var status := CycleBlocks(edges, path);
    }
  }
}
