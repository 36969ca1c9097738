/** What a tool call does to the shared store, one access at a time, and runs in list order. */
module Programs {
  import opened Wrappers

  /** The content of a path; `None` when nothing is stored there. */
  type Content = Option<string>
  type Store = map<string, string>
  type History = seq<Content>

  function Get(s: Store, p: string): Content {
    if p in s then Some(s[p]) else None
  }

  function Set(s: Store, p: string, c: Content): (r: Store)
    ensures forall q :: Get(r, q) == if q == p then c else Get(s, q)
  {
    if c.Some? then s[p := c.value] else s - {p}
  }

  /** A running call picks its next access from what it has seen so far. */
  datatype Action =
    | Read(path: string)
    | Write(path: string, content: Content)
    | Return(output: string)

  type Program = History -> Action

  datatype Progress = Progress(store: Store, history: History)

  function Advance(program: Program, at: Progress): Progress {
    match program(at.history)
    case Read(p) => Progress(at.store, at.history + [Get(at.store, p)])
    case Write(p, c) => Progress(Set(at.store, p, c), at.history + [c])
    case Return(_) => at
  }

  function Run(program: Program, s: Store, k: nat): Progress {
    if k == 0 then Progress(s, []) else Advance(program, Run(program, s, k - 1))
  }

  /** `program` accesses only `touches` and changes only `writes`. */
  ghost predicate Confined(program: Program, touches: set<string>, writes: set<string>) {
    && writes <= touches
    && forall h ::
         && (program(h).Read? ==> program(h).path in touches)
         && (program(h).Write? ==> program(h).path in writes)
  }

  // ---------------------------------------------------------------------
  // One call against a change made elsewhere
  // ---------------------------------------------------------------------

  lemma SetsCommute(s: Store, p: string, c: Content, q: string, d: Content)
    requires p != q
    ensures Set(Set(s, p, c), q, d) == Set(Set(s, q, d), p, c)
  {
  }

  lemma AdvanceCommutes(program: Program, at: Progress, other: Progress, p: string, c: Content)
    requires other.store == Set(at.store, p, c) && other.history == at.history
    requires program(at.history).Read? ==> program(at.history).path != p
    requires program(at.history).Write? ==> program(at.history).path != p
    ensures Advance(program, other).store == Set(Advance(program, at).store, p, c)
    ensures Advance(program, other).history == Advance(program, at).history
  {
    match program(at.history)
    case Write(q, d) => SetsCommute(at.store, p, c, q, d);
    case _ =>
  }

  /** A change to a path the call does not touch can be moved across it. */
  lemma {:induction false} RunCommutes(program: Program, touches: set<string>, writes: set<string>,
                                       s: Store, k: nat, p: string, c: Content)
    requires Confined(program, touches, writes) && p !in touches
    ensures Run(program, Set(s, p, c), k).store == Set(Run(program, s, k).store, p, c)
    ensures Run(program, Set(s, p, c), k).history == Run(program, s, k).history
  {
    if k > 0 {
      RunCommutes(program, touches, writes, s, k - 1, p, c);
      AdvanceCommutes(program, Run(program, s, k - 1), Run(program, Set(s, p, c), k - 1), p, c);
    }
  }

  lemma {:induction false} RunKeepsUnwritten(program: Program, touches: set<string>, writes: set<string>,
                                             s: Store, k: nat, p: string)
    requires Confined(program, touches, writes) && p !in writes
    ensures Get(Run(program, s, k).store, p) == Get(s, p)
  {
    if k > 0 {
      RunKeepsUnwritten(program, touches, writes, s, k - 1, p);
    }
  }

  lemma {:induction false} RunPastReturn(program: Program, s: Store, k: nat, m: nat)
    requires k <= m && program(Run(program, s, k).history).Return?
    ensures Run(program, s, m) == Run(program, s, k)
  {
    if k < m {
      RunPastReturn(program, s, k, m - 1);
    }
  }

  lemma {:induction false} ReturnsOnce(program: Program, s: Store, k: nat, m: nat, output: string, output': string)
    requires program(Run(program, s, k).history) == Return(output)
    requires program(Run(program, s, m).history) == Return(output')
    ensures Run(program, s, k) == Run(program, s, m) && output == output'
  {
    if k <= m {
      RunPastReturn(program, s, k, m);
    } else {
      RunPastReturn(program, s, m, k);
    }
  }

  // ---------------------------------------------------------------------
  // Calls in list order
  // ---------------------------------------------------------------------

  /** The store after the first `i` calls ran in list order, call `j` for `ks[j]` accesses. */
  function After(programs: seq<Program>, ks: seq<nat>, s: Store, i: nat): Store
    requires |ks| == |programs| && i <= |programs|
  {
    if i == 0 then s else Run(programs[i - 1], After(programs, ks, s, i - 1), ks[i - 1]).store
  }

  function HistoryOf(programs: seq<Program>, ks: seq<nat>, s: Store, i: nat): History
    requires |ks| == |programs| && i < |programs|
  {
    Run(programs[i], After(programs, ks, s, i), ks[i]).history
  }

  /** In list order call `i` returns `outputs[i]`. */
  ghost predicate ReturnsAt(programs: seq<Program>, ks: seq<nat>, s: Store, outputs: seq<string>, i: nat)
    requires |ks| == |programs| == |outputs| && i < |programs|
  {
    programs[i](HistoryOf(programs, ks, s, i)) == Return(outputs[i])
  }

  /** Running the calls one after another, each to its return, yields `outputs` and `final`. */
  ghost predicate SequentialRun(programs: seq<Program>, ks: seq<nat>, s: Store, outputs: seq<string>, final: Store) {
    && |ks| == |programs| == |outputs|
    && final == After(programs, ks, s, |programs|)
    && forall i: nat :: i < |programs| ==> ReturnsAt(programs, ks, s, outputs, i)
  }

  ghost predicate Sequential(programs: seq<Program>, s: Store, outputs: seq<string>, final: Store) {
    exists ks :: SequentialRun(programs, ks, s, outputs, final)
  }

  lemma {:induction false} SequentialPrefixUnique(programs: seq<Program>, ks: seq<nat>, ms: seq<nat>, s: Store,
                                                  outputs: seq<string>, outputs': seq<string>,
                                                  final: Store, final': Store, i: nat)
    requires SequentialRun(programs, ks, s, outputs, final)
    requires SequentialRun(programs, ms, s, outputs', final')
    requires i <= |programs|
    ensures After(programs, ks, s, i) == After(programs, ms, s, i)
    ensures forall j :: 0 <= j < i ==> outputs[j] == outputs'[j]
  {
    if i > 0 {
      SequentialPrefixUnique(programs, ks, ms, s, outputs, outputs', final, final', i - 1);
      assert ReturnsAt(programs, ks, s, outputs, i - 1) && ReturnsAt(programs, ms, s, outputs', i - 1);
      ReturnsOnce(programs[i - 1], After(programs, ks, s, i - 1), ks[i - 1], ms[i - 1],
                  outputs[i - 1], outputs'[i - 1]);
    }
  }

  /** Sequential execution has at most one result. */
  lemma SequentialIsDeterministic(programs: seq<Program>, s: Store, outputs: seq<string>, outputs': seq<string>,
                                  final: Store, final': Store)
    requires Sequential(programs, s, outputs, final) && Sequential(programs, s, outputs', final')
    ensures outputs == outputs' && final == final'
  {
    var ks :| SequentialRun(programs, ks, s, outputs, final);
    var ms :| SequentialRun(programs, ms, s, outputs', final');
    SequentialPrefixUnique(programs, ks, ms, s, outputs, outputs', final, final', |programs|);
  }

  // ---------------------------------------------------------------------
  // Letting one call take one more access
  // ---------------------------------------------------------------------

  /** A later call that has begun neither touches what `c` may write nor writes what `c` touches. */
  ghost predicate Undisturbed(programs: seq<Program>, touches: seq<set<string>>, writes: seq<set<string>>,
                              ks: seq<nat>, c: nat) {
    && |programs| == |touches| == |writes| == |ks| && c < |programs|
    && (forall i :: 0 <= i < |programs| ==> Confined(programs[i], touches[i], writes[i]))
    && (forall i :: c < i < |programs| && ks[i] > 0 ==>
          writes[c] * touches[i] == {} && writes[i] * touches[c] == {})
  }

  lemma {:induction false} EarlierUnaffected(programs: seq<Program>, ks: seq<nat>, s: Store, c: nat, k: nat, i: nat)
    requires |ks| == |programs| && i <= c < |programs|
    ensures After(programs, ks[c := k], s, i) == After(programs, ks, s, i)
  {
    if i > 0 {
      EarlierUnaffected(programs, ks, s, c, k, i - 1);
    }
  }

  /** What `c` touches looks the same after the later calls as right after `c`. */
  lemma {:induction false} LaterCallsKeepTouched(programs: seq<Program>, touches: seq<set<string>>,
                                                 writes: seq<set<string>>, ks: seq<nat>, s: Store,
                                                 c: nat, p: string, i: nat)
    requires Undisturbed(programs, touches, writes, ks, c) && c < i <= |programs|
    requires p in touches[c]
    ensures Get(After(programs, ks, s, i), p) == Get(After(programs, ks, s, c + 1), p)
  {
    if i > c + 1 {
      LaterCallsKeepTouched(programs, touches, writes, ks, s, c, p, i - 1);
      if ks[i - 1] > 0 {
        assert p !in writes[i - 1] * touches[c];
        RunKeepsUnwritten(programs[i - 1], touches[i - 1], writes[i - 1],
                          After(programs, ks, s, i - 1), ks[i - 1], p);
      }
    }
  }

  lemma {:induction false} LaterCallsCommute(programs: seq<Program>, touches: seq<set<string>>,
                                             writes: seq<set<string>>, ks: seq<nat>, s: Store,
                                             c: nat, k: nat, p: string, v: Content, i: nat)
    requires Undisturbed(programs, touches, writes, ks, c) && c < i <= |programs|
    requires p in writes[c]
    requires After(programs, ks[c := k], s, c + 1) == Set(After(programs, ks, s, c + 1), p, v)
    ensures After(programs, ks[c := k], s, i) == Set(After(programs, ks, s, i), p, v)
    ensures forall j :: c < j < i ==>
              HistoryOf(programs, ks[c := k], s, j) == HistoryOf(programs, ks, s, j)
  {
    if i > c + 1 {
      LaterCallsCommute(programs, touches, writes, ks, s, c, k, p, v, i - 1);
      if ks[i - 1] > 0 {
        assert p !in writes[c] * touches[i - 1];
        RunCommutes(programs[i - 1], touches[i - 1], writes[i - 1],
                    After(programs, ks, s, i - 1), ks[i - 1], p, v);
      }
    }
  }

  lemma {:induction false} LaterCallsSame(programs: seq<Program>, ks: seq<nat>, s: Store, c: nat, k: nat, i: nat)
    requires |ks| == |programs| && c < i <= |programs|
    requires After(programs, ks[c := k], s, c + 1) == After(programs, ks, s, c + 1)
    ensures After(programs, ks[c := k], s, i) == After(programs, ks, s, i)
    ensures forall j :: c < j < i ==>
              HistoryOf(programs, ks[c := k], s, j) == HistoryOf(programs, ks, s, j)
  {
    if i > c + 1 {
      LaterCallsSame(programs, ks, s, c, k, i - 1);
    }
  }

  /** One more access of call `c`, made after everything else so far, has the effect it would have
      had in list order. */
  lemma AccessCommutes(programs: seq<Program>, touches: seq<set<string>>, writes: seq<set<string>>,
                       ks: seq<nat>, s: Store, c: nat)
    requires Undisturbed(programs, touches, writes, ks, c)
    requires !programs[c](HistoryOf(programs, ks, s, c)).Return?
    ensures var now := Advance(programs[c],
                               Progress(After(programs, ks, s, |programs|), HistoryOf(programs, ks, s, c)));
            var ks' := ks[c := ks[c] + 1];
            && After(programs, ks', s, |programs|) == now.store
            && HistoryOf(programs, ks', s, c) == now.history
            && forall i :: 0 <= i < |programs| && i != c ==>
                 HistoryOf(programs, ks', s, i) == HistoryOf(programs, ks, s, i)
  {
    var ks', n := ks[c := ks[c] + 1], |programs|;
    forall i | 0 <= i <= c
      ensures After(programs, ks', s, i) == After(programs, ks, s, i)
    {
      EarlierUnaffected(programs, ks, s, c, ks[c] + 1, i);
    }
    var at := Run(programs[c], After(programs, ks, s, c), ks[c]);
    assert Run(programs[c], After(programs, ks', s, c), ks'[c]) == Advance(programs[c], at);
    match programs[c](at.history)
    case Read(p) =>
      LaterCallsKeepTouched(programs, touches, writes, ks, s, c, p, n);
      LaterCallsSame(programs, ks, s, c, ks[c] + 1, n);
    case Write(p, v) =>
      LaterCallsCommute(programs, touches, writes, ks, s, c, ks[c] + 1, p, v, n);
  }

  ghost function Lengths(histories: seq<History>): (ks: seq<nat>) {
    seq(|histories|, i requires 0 <= i < |histories| => |histories[i]|)
  }

  /** The store and what each call has seen are those of list-order execution in which call `i` makes
      `ks[i]` accesses. */
  ghost predicate ReplaysAt(programs: seq<Program>, s0: Store, store: Store, histories: seq<History>, ks: seq<nat>) {
    && |histories| == |programs| == |ks|
    && store == After(programs, ks, s0, |programs|)
    && forall i :: 0 <= i < |programs| ==> histories[i] == HistoryOf(programs, ks, s0, i)
  }

  /** The accesses made so far could have been made in list order. */
  ghost predicate Replays(programs: seq<Program>, s0: Store, store: Store, histories: seq<History>) {
    ReplaysAt(programs, s0, store, histories, Lengths(histories))
  }

  lemma AccessReplaysAt(programs: seq<Program>, touches: seq<set<string>>, writes: seq<set<string>>,
                        s0: Store, store: Store, histories: seq<History>, ks: seq<nat>, c: nat)
    requires ReplaysAt(programs, s0, store, histories, ks)
    requires Undisturbed(programs, touches, writes, ks, c)
    requires !programs[c](histories[c]).Return?
    ensures var now := Advance(programs[c], Progress(store, histories[c]));
            ReplaysAt(programs, s0, now.store, histories[c := now.history], ks[c := ks[c] + 1])
  {
    AccessCommutes(programs, touches, writes, ks, s0, c);
  }

  lemma AccessReplays(programs: seq<Program>, touches: seq<set<string>>, writes: seq<set<string>>,
                      s0: Store, store: Store, histories: seq<History>, c: nat)
    requires Replays(programs, s0, store, histories)
    requires Undisturbed(programs, touches, writes, Lengths(histories), c)
    requires !programs[c](histories[c]).Return?
    ensures var now := Advance(programs[c], Progress(store, histories[c]));
            Replays(programs, s0, now.store, histories[c := now.history])
  {
    var now, ks := Advance(programs[c], Progress(store, histories[c])), Lengths(histories);
    AccessReplaysAt(programs, touches, writes, s0, store, histories, ks, c);
    LongerHistory(programs[c], store, histories, c);
    ReplaysAtLengths(programs, s0, now.store, histories[c := now.history], ks[c := ks[c] + 1]);
  }

  lemma ReplaysAtLengths(programs: seq<Program>, s0: Store, store: Store, histories: seq<History>, ks: seq<nat>)
    requires ReplaysAt(programs, s0, store, histories, ks) && ks == Lengths(histories)
    ensures Replays(programs, s0, store, histories)
  {
  }

  lemma LongerHistory(program: Program, store: Store, histories: seq<History>, c: nat)
    requires c < |histories| && !program(histories[c]).Return?
    ensures Lengths(histories[c := Advance(program, Progress(store, histories[c])).history]) ==
            Lengths(histories)[c := Lengths(histories)[c] + 1]
  {
  }
}
