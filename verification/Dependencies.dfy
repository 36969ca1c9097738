/** Grouping of a batch of tool calls by union-find. */
module Dependencies {
  import opened ToolCalls

  // ---------------------------------------------------------------------
  // What a grouping is: the connected components of the dependency relation
  // ---------------------------------------------------------------------

  /** A walk through the batch along pairwise dependent calls. */
  ghost predicate Chain(calls: seq<ToolCall>, walk: seq<nat>) {
    && walk != []
    && (forall k :: 0 <= k < |walk| ==> walk[k] < |calls|)
    && (forall k {:trigger walk[k]} :: 0 < k < |walk| ==> AreDependent(calls[walk[k - 1]], calls[walk[k]]))
  }

  ghost predicate Links(calls: seq<ToolCall>, walk: seq<nat>, x: nat, y: nat) {
    Chain(calls, walk) && walk[0] == x && walk[|walk| - 1] == y
  }

  ghost predicate Linked(calls: seq<ToolCall>, x: nat, y: nat) {
    exists walk :: Links(calls, walk, x, y)
  }

  ghost predicate Ascending(group: seq<nat>) {
    forall a, b :: 0 <= a < b < |group| ==> group[a] < group[b]
  }

  ghost predicate InGroup(groups: seq<seq<nat>>, g: int, i: nat) {
    0 <= g < |groups| && i in groups[g]
  }

  ghost predicate SameGroup(groups: seq<seq<nat>>, x: nat, y: nat) {
    exists g :: InGroup(groups, g, x) && InGroup(groups, g, y)
  }

  /** The groups partition 0..n, and each keeps list order. */
  ghost predicate IsPartition(n: nat, groups: seq<seq<nat>>) {
    && (forall g, k :: 0 <= g < |groups| && 0 <= k < |groups[g]| ==> groups[g][k] < n)
    && (forall g :: 0 <= g < |groups| ==> groups[g] != [] && Ascending(groups[g]))
    && (forall i: nat {:trigger SameGroup(groups, i, i)} :: i < n ==> SameGroup(groups, i, i))
    && (forall g, h, i: nat :: InGroup(groups, g, i) && InGroup(groups, h, i) ==> g == h)
  }

  ghost predicate IsGrouping(calls: seq<ToolCall>, groups: seq<seq<nat>>) {
    && IsPartition(|calls|, groups)
    && (forall x: nat, y: nat :: x < |calls| && y < |calls| ==>
          (SameGroup(groups, x, y) <==> Linked(calls, x, y)))
  }

  lemma LinkedReflexive(calls: seq<ToolCall>, x: nat)
    requires x < |calls|
    ensures Linked(calls, x, x)
  {
    assert Links(calls, [x], x, x);
  }

  lemma LinkedByDependence(calls: seq<ToolCall>, x: nat, y: nat)
    requires x < |calls| && y < |calls| && AreDependent(calls[x], calls[y])
    ensures Linked(calls, x, y)
  {
    assert Links(calls, [x, y], x, y);
  }

  lemma LinkedTransitive(calls: seq<ToolCall>, x: nat, y: nat, z: nat)
    requires Linked(calls, x, y) && Linked(calls, y, z)
    ensures Linked(calls, x, z)
  {
    var v :| Links(calls, v, x, y);
    var w :| Links(calls, w, y, z);
    assert Links(calls, v + w[1..], x, z);
  }

  lemma {:induction false} LinkedSymmetric(calls: seq<ToolCall>, x: nat, y: nat)
    requires Linked(calls, x, y)
    ensures Linked(calls, y, x)
  {
    var v :| Links(calls, v, x, y);
    var w := seq(|v|, k requires 0 <= k < |v| => v[|v| - 1 - k]);
    forall k | 0 < k < |w|
      ensures AreDependent(calls[w[k - 1]], calls[w[k]])
    {
      assert w[k - 1] == v[|v| - k] && w[k] == v[|v| - k - 1];
      DependenceIsSymmetric(calls[w[k - 1]], calls[w[k]]);
    }
    assert Links(calls, w, y, x);
  }

  // ---------------------------------------------------------------------
  // The union-find forest
  // ---------------------------------------------------------------------

  /** The parent link of one node: it stays in the tree that `root` names, and `rank` grows along
      it but stays below `bound`, so there is no cycle and a climb ends. */
  ghost predicate Node(parent: seq<nat>, root: seq<nat>, rank: seq<nat>, bound: nat, x: nat)
    requires |root| == |parent| == |rank| && x < |parent|
  {
    && parent[x] < |parent| && root[x] < |parent| && rank[x] < bound
    && parent[root[x]] == root[x] == root[parent[x]]
    && (parent[x] == x <==> root[x] == x)
    && (parent[x] != x ==> rank[x] < rank[parent[x]] && rank[x] < rank[root[x]])
  }

  ghost predicate Forest(parent: seq<nat>, root: seq<nat>, rank: seq<nat>, bound: nat) {
    && |root| == |parent| == |rank|
    && forall x :: 0 <= x < |parent| ==> Node(parent, root, rank, bound, x)
  }

  lemma RootOfRoot(parent: seq<nat>, root: seq<nat>, rank: seq<nat>, bound: nat, x: nat)
    requires Forest(parent, root, rank, bound) && x < |parent|
    ensures root[x] < |root| && root[root[x]] == root[x]
  {
    assert Node(parent, root, rank, bound, x);
    assert Node(parent, root, rank, bound, root[x]);
  }

  lemma CompressingKeepsForest(parent: seq<nat>, root: seq<nat>, rank: seq<nat>, bound: nat, x: nat)
    requires Forest(parent, root, rank, bound)
    requires x < |parent| && parent[x] != x && root[x] < |parent|
    ensures Forest(parent[x := root[x]], root, rank, bound)
  {
    RootOfRoot(parent, root, rank, bound, x);
    var parent' := parent[x := root[x]];
    forall y | 0 <= y < |parent|
      ensures Node(parent', root, rank, bound, y)
    {
      assert Node(parent, root, rank, bound, x);
      assert Node(parent, root, rank, bound, y);
    }
  }

  /** Find with path compression: returns the root and leaves every node in its tree. */
  method Find(parent: array<nat>, x: nat, ghost root: seq<nat>, ghost rank: seq<nat>, ghost bound: nat)
    returns (r: nat)
    requires Forest(parent[..], root, rank, bound)
    requires x < parent.Length
    modifies parent
    ensures Forest(parent[..], root, rank, bound)
    ensures r == root[x] < parent.Length
    decreases bound - rank[x]
  {
    assert Node(parent[..], root, rank, bound, x);
    if parent[x] != x {
      assert Node(parent[..], root, rank, bound, parent[x]);
      var r' := Find(parent, parent[x], root, rank, bound);
      ghost var before := parent[..];
      assert Node(before, root, rank, bound, x);
      CompressingKeepsForest(before, root, rank, bound, x);
      parent[x] := r';
      assert parent[..] == before[x := root[x]];
    }
    r := parent[x];
  }

  ghost function MergedRoots(root: seq<nat>, from: nat, to: nat): (merged: seq<nat>) {
    seq(|root|, x requires 0 <= x < |root| => if root[x] == from then to else root[x])
  }

  ghost function RaisedRank(rank: seq<nat>, from: nat, to: nat): (raised: seq<nat>)
    requires from < |rank| && to < |rank|
  {
    rank[to := 1 + (if rank[from] < rank[to] then rank[to] else rank[from])]
  }

  lemma LinkingRootsKeepsForest(parent: seq<nat>, root: seq<nat>, rank: seq<nat>, bound: nat, ra: nat, rb: nat)
    requires Forest(parent, root, rank, bound)
    requires ra < |parent| && rb < |parent| && root[ra] == ra && root[rb] == rb && ra != rb
    ensures Forest(parent[ra := rb], MergedRoots(root, ra, rb), RaisedRank(rank, ra, rb), bound + 1)
  {
    assert Node(parent, root, rank, bound, ra) && Node(parent, root, rank, bound, rb);
    var parent', root', rank' := parent[ra := rb], MergedRoots(root, ra, rb), RaisedRank(rank, ra, rb);
    var bound' := bound + 1;
    forall x | 0 <= x < |parent|
      ensures Node(parent', root', rank', bound', x)
    {
      assert Node(parent, root, rank, bound, x);
      RootOfRoot(parent, root, rank, bound, x);
    }
  }

  /** Union: afterwards exactly the trees of `a` and `b` have become one. */
  method Union(parent: array<nat>, a: nat, b: nat, ghost root: seq<nat>, ghost rank: seq<nat>, ghost bound: nat)
    returns (ghost root': seq<nat>, ghost rank': seq<nat>, ghost bound': nat)
    requires Forest(parent[..], root, rank, bound)
    requires a < parent.Length && b < parent.Length
    modifies parent
    ensures Forest(parent[..], root', rank', bound')
    ensures root' == MergedRoots(root, root[a], root[b])
  {
    var ra := Find(parent, a, root, rank, bound);
    var rb := Find(parent, b, root, rank, bound);
    root', rank', bound' := MergedRoots(root, ra, rb), rank, bound;
    RootOfRoot(parent[..], root, rank, bound, a);
    RootOfRoot(parent[..], root, rank, bound, b);
    if ra != rb {
      LinkingRootsKeepsForest(parent[..], root, rank, bound, ra, rb);
      ghost var before := parent[..];
      parent[ra] := rb;
      assert parent[..] == before[ra := rb];
      rank', bound' := RaisedRank(rank, ra, rb), bound + 1;
    } else {
      assert root' == root;
    }
  }

  // ---------------------------------------------------------------------
  // Roots against chains
  // ---------------------------------------------------------------------

  /** Trees only join calls that some chain links. */
  ghost predicate Sound(calls: seq<ToolCall>, root: seq<nat>) {
    && |root| == |calls|
    && forall x: nat, y: nat :: x < |root| && y < |root| && root[x] == root[y] ==> Linked(calls, x, y)
  }

  /** Every dependent pair (i, j) that comes before (row, col) in the scan shares a tree. */
  ghost predicate Scanned(calls: seq<ToolCall>, root: seq<nat>, row: nat, col: nat) {
    && |root| == |calls|
    && forall i: nat, j: nat :: i < j < |calls| && (i < row || (i == row && j < col)) ==>
         AreDependent(calls[i], calls[j]) ==> root[i] == root[j]
  }

  lemma MergeKeepsSound(calls: seq<ToolCall>, root: seq<nat>, a: nat, b: nat)
    requires Sound(calls, root)
    requires a < |calls| && b < |calls| && AreDependent(calls[a], calls[b])
    ensures Sound(calls, MergedRoots(root, root[a], root[b]))
  {
    var merged := MergedRoots(root, root[a], root[b]);
    LinkedByDependence(calls, a, b);
    LinkedSymmetric(calls, a, b);
    forall x: nat, y: nat | x < |root| && y < |root| && merged[x] == merged[y]
      ensures Linked(calls, x, y)
    {
      if root[x] == root[a] && root[y] == root[b] {
        LinkedTransitive(calls, x, a, b);
        LinkedTransitive(calls, x, b, y);
      } else if root[x] == root[b] && root[y] == root[a] {
        LinkedTransitive(calls, x, b, a);
        LinkedTransitive(calls, x, a, y);
      }
    }
  }

  lemma ScanStep(calls: seq<ToolCall>, root: seq<nat>, i: nat, j: nat)
    requires i < j < |calls| && Scanned(calls, root, i, j)
    ensures AreDependent(calls[i], calls[j]) ==> Scanned(calls, MergedRoots(root, root[i], root[j]), i, j + 1)
    ensures !AreDependent(calls[i], calls[j]) ==> Scanned(calls, root, i, j + 1)
  {
  }

  lemma ScanRow(calls: seq<ToolCall>, root: seq<nat>, i: nat)
    requires i < |calls|
    ensures Scanned(calls, root, i, 0) ==> Scanned(calls, root, i, i + 1)
    ensures Scanned(calls, root, i, |calls|) ==> Scanned(calls, root, i + 1, 0)
  {
  }

  lemma {:induction false} ChainStaysInTree(calls: seq<ToolCall>, root: seq<nat>, walk: seq<nat>)
    requires Scanned(calls, root, |calls|, 0)
    requires Chain(calls, walk)
    ensures root[walk[0]] == root[walk[|walk| - 1]]
  {
    if |walk| > 1 {
      var x, y := walk[|walk| - 2], walk[|walk| - 1];
      assert AreDependent(calls[x], calls[y]);
      DependenceIsSymmetric(calls[x], calls[y]);
      var front := walk[..|walk| - 1];
      assert forall k {:trigger front[k]} :: 0 < k < |front| ==> front[k - 1] == walk[k - 1] && front[k] == walk[k];
      ChainStaysInTree(calls, root, front);
    }
  }

  lemma RootsAreComponents(calls: seq<ToolCall>, root: seq<nat>, x: nat, y: nat)
    requires Sound(calls, root) && Scanned(calls, root, |calls|, 0)
    requires x < |calls| && y < |calls|
    ensures root[x] == root[y] <==> Linked(calls, x, y)
  {
    if Linked(calls, x, y) {
      var walk :| Links(calls, walk, x, y);
      ChainStaysInTree(calls, root, walk);
    }
  }

  // ---------------------------------------------------------------------
  // Collecting the groups
  // ---------------------------------------------------------------------

  /** The calls below `n` in the tree of `r`, in list order. */
  ghost function Members(root: seq<nat>, r: nat, n: nat): (group: seq<nat>)
    requires n <= |root|
  {
    if n == 0 then []
    else Members(root, r, n - 1) + (if root[n - 1] == r then [n - 1] else [])
  }

  lemma {:induction false} MembersMeaning(root: seq<nat>, r: nat, n: nat)
    requires n <= |root|
    ensures Ascending(Members(root, r, n))
    ensures forall i: nat :: i in Members(root, r, n) <==> i < n && root[i] == r
  {
    if n > 0 {
      MembersMeaning(root, r, n - 1);
      var group := Members(root, r, n - 1);
      assert forall k :: 0 <= k < |group| ==> group[k] in group;
    }
  }

  /** The map from roots to members after the first `n` calls have been entered. */
  ghost function Collected(root: seq<nat>, n: nat): (m: map<nat, seq<nat>>)
    requires n <= |root|
  {
    if n == 0 then map[]
    else
      var m, r := Collected(root, n - 1), root[n - 1];
      m[r := (if r in m then m[r] else []) + [n - 1]]
  }

  lemma {:induction false} CollectedMeaning(root: seq<nat>, n: nat, r: nat)
    requires n <= |root|
    ensures r in Collected(root, n) <==> Members(root, r, n) != []
    ensures r in Collected(root, n) ==> Collected(root, n)[r] == Members(root, r, n)
  {
    if n > 0 {
      CollectedMeaning(root, n - 1, r);
    }
  }

  /** Emitting the map in ascending key order: groups of the keys below `limit`. */
  ghost predicate Emitted(groups: seq<seq<nat>>, keys: seq<nat>, m: map<nat, seq<nat>>, limit: nat) {
    && |groups| == |keys|
    && (forall g :: 0 <= g < |groups| ==> keys[g] in m && groups[g] == m[keys[g]] && keys[g] < limit)
    && (forall g, h :: 0 <= g < h < |keys| ==> keys[g] < keys[h])
    && (forall r :: r in m && r < limit ==> r in keys)
  }

  lemma EmitKeepsEmitted(groups: seq<seq<nat>>, keys: seq<nat>, m: map<nat, seq<nat>>, r: nat)
    requires Emitted(groups, keys, m, r)
    ensures r in m ==> Emitted(groups + [m[r]], keys + [r], m, r + 1)
    ensures r !in m ==> Emitted(groups, keys, m, r + 1)
  {
    if r in m {
      assert forall q :: q in keys + [r] <==> q in keys || q == r;
    }
  }

  lemma {:induction false} EmittedByRoot(root: seq<nat>, m: map<nat, seq<nat>>, groups: seq<seq<nat>>, keys: seq<nat>)
    requires m == Collected(root, |root|)
    requires forall x :: 0 <= x < |root| ==> root[x] < |root|
    requires Emitted(groups, keys, m, |root|)
    ensures forall g :: 0 <= g < |groups| ==> groups[g] != [] && Ascending(groups[g])
    ensures forall g, i: nat :: InGroup(groups, g, i) <==> 0 <= g < |keys| && i < |root| && root[i] == keys[g]
    ensures forall i: nat :: i < |root| ==> root[i] in keys
  {
    forall g | 0 <= g < |groups|
      ensures groups[g] != [] && Ascending(groups[g])
      ensures forall i: nat :: i in groups[g] <==> i < |root| && root[i] == keys[g]
    {
      CollectedMeaning(root, |root|, keys[g]);
      MembersMeaning(root, keys[g], |root|);
    }
    forall i: nat | i < |root|
      ensures root[i] in keys
    {
      CollectedMeaning(root, |root|, root[i]);
      MembersMeaning(root, root[i], |root|);
      assert i in Members(root, root[i], |root|);
    }
  }

  lemma {:induction false} EmittedIsGrouping(calls: seq<ToolCall>, root: seq<nat>, m: map<nat, seq<nat>>,
                          groups: seq<seq<nat>>, keys: seq<nat>)
    requires Sound(calls, root) && Scanned(calls, root, |calls|, 0)
    requires m == Collected(root, |root|)
    requires forall x :: 0 <= x < |root| ==> root[x] < |root|
    requires Emitted(groups, keys, m, |root|)
    ensures IsGrouping(calls, groups)
  {
    EmittedByRoot(root, m, groups, keys);
    forall x: nat, y: nat | x < |calls| && y < |calls|
      ensures SameGroup(groups, x, y) <==> Linked(calls, x, y)
    {
      RootsAreComponents(calls, root, x, y);
      if root[x] == root[y] {
        var g :| 0 <= g < |keys| && keys[g] == root[x];
        assert InGroup(groups, g, x) && InGroup(groups, g, y);
      }
    }
    forall i: nat | i < |calls|
      ensures SameGroup(groups, i, i)
    {
      LinkedReflexive(calls, i);
    }
    forall g, k | 0 <= g < |groups| && 0 <= k < |groups[g]|
      ensures groups[g][k] < |calls|
    {
      assert InGroup(groups, g, groups[g][k]);
    }
  }

  lemma SingletonGrouping(calls: seq<ToolCall>)
    requires |calls| == 1
    ensures IsGrouping(calls, [[0]])
  {
    LinkedReflexive(calls, 0);
    assert InGroup([[0]], 0, 0);
  }

  /** Unites every dependent pair i < j. */
  method UniteDependentPairs(calls: seq<ToolCall>, parent: array<nat>)
    returns (ghost root: seq<nat>, ghost rank: seq<nat>, ghost bound: nat)
    requires parent.Length == |calls| && forall x :: 0 <= x < parent.Length ==> parent[x] == x
    modifies parent
    ensures Forest(parent[..], root, rank, bound)
    ensures Sound(calls, root) && Scanned(calls, root, |calls|, 0)
  {
    var n := |calls|;
    root, rank, bound := parent[..], seq(n, i => 0), 1;
    forall x: nat | x < n ensures Linked(calls, x, x) {
      LinkedReflexive(calls, x);
    }
    for i := 0 to n
      invariant Forest(parent[..], root, rank, bound)
      invariant Sound(calls, root) && Scanned(calls, root, i, 0)
    {
      ScanRow(calls, root, i);
      for j := i + 1 to n
        invariant Forest(parent[..], root, rank, bound)
        invariant Sound(calls, root) && Scanned(calls, root, i, j)
      {
        ScanStep(calls, root, i, j);
        if AreDependent(calls[i], calls[j]) {
          MergeKeepsSound(calls, root, i, j);
          root, rank, bound := Union(parent, i, j, root, rank, bound);
        }
      }
      ScanRow(calls, root, i);
    }
  }

  /** Enters every call under its root. */
  method EnterCalls(parent: array<nat>, ghost root: seq<nat>, ghost rank: seq<nat>, ghost bound: nat)
    returns (groupMap: map<nat, seq<nat>>)
    requires Forest(parent[..], root, rank, bound)
    modifies parent
    ensures groupMap == Collected(root, |root|)
  {
    groupMap := map[];
    for i := 0 to parent.Length
      invariant Forest(parent[..], root, rank, bound)
      invariant groupMap == Collected(root, i)
    {
      var r := Find(parent, i, root, rank, bound);
      groupMap := groupMap[r := (if r in groupMap then groupMap[r] else []) + [i]];
    }
  }

  /** Reads the map in ascending key order. */
  method EmitGroups(groupMap: map<nat, seq<nat>>, n: nat)
    returns (groups: seq<seq<nat>>, keys: seq<nat>)
    ensures Emitted(groups, keys, groupMap, n)
  {
    groups, keys := [], [];
    for r := 0 to n
      invariant Emitted(groups, keys, groupMap, r)
    {
      EmitKeepsEmitted(groups, keys, groupMap, r);
      if r in groupMap {
        groups, keys := groups + [groupMap[r]], keys + [r];
      }
    }
  }

  /** Groups a batch by dependency. */
  method DetectDependencies(calls: seq<ToolCall>) returns (groups: seq<seq<nat>>)
    ensures IsGrouping(calls, groups)
  {
    if |calls| == 0 {
      return [];
    }
    if |calls| == 1 {
      SingletonGrouping(calls);
      return [[0]];
    }
    var parent := new nat[|calls|](i => i);
    ghost var root, rank, bound := UniteDependentPairs(calls, parent);
    forall x | 0 <= x < |root| ensures root[x] < |root| {
      RootOfRoot(parent[..], root, rank, bound, x);
    }
    var groupMap := EnterCalls(parent, root, rank, bound);
    var keys;
    groups, keys := EmitGroups(groupMap, |calls|);
    EmittedIsGrouping(calls, root, groupMap, groups, keys);
  }
}
