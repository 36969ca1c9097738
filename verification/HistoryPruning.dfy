/** Pruning a history by importance, whole turns at a time, and removing orphaned tool results. */
module HistoryPruning {
  import opened Wrappers
  import opened Messages
  import opened Turns

  const RECENCY_WINDOW: nat := 4
  const RECENCY_BONUS: int := 3

  /** The classifier's base score (1, 3, 5, 7 or 10 in the source) is any function of the message. */
  type Importance = Message -> int

  function ScoreMessage(importance: Importance, m: Message, index: nat, total: nat): int {
    importance(m) + (if total > 0 && index + RECENCY_WINDOW >= total then RECENCY_BONUS else 0)
  }

  function ScoreAt(importance: Importance, history: seq<Message>, i: nat): int
    requires i < |history|
  {
    ScoreMessage(importance, history[i], i, |history|)
  }

  /** The highest score in a turn. */
  function TurnScore(importance: Importance, history: seq<Message>, turn: Turn): (score: int)
    requires turn.start < turn.end <= |history|
    decreases turn.end
  {
    var score := ScoreAt(importance, history, turn.end - 1);
    if turn.end - 1 == turn.start then score
    else
      var rest := TurnScore(importance, history, Turn(turn.start, turn.end - 1));
      if rest < score then score else rest
  }

  lemma {:induction false} TurnScoreIsHighest(importance: Importance, history: seq<Message>, turn: Turn)
    returns (i: nat)
    requires turn.start < turn.end <= |history|
    ensures turn.start <= i < turn.end && ScoreAt(importance, history, i) == TurnScore(importance, history, turn)
    ensures forall j: nat :: turn.start <= j < turn.end ==>
              ScoreAt(importance, history, j) <= ScoreAt(importance, history, i)
    decreases turn.end
  {
    i := turn.end - 1;
    if i > turn.start {
      var k := TurnScoreIsHighest(importance, history, Turn(turn.start, i));
      if ScoreAt(importance, history, k) >= ScoreAt(importance, history, i) {
        i := k;
      }
    }
  }

  function TurnScores(importance: Importance, history: seq<Message>, turns: seq<Turn>): (scores: seq<int>)
    requires forall t :: 0 <= t < |turns| ==> turns[t].start < turns[t].end <= |history|
  {
    seq(|turns|, t requires 0 <= t < |turns| => TurnScore(importance, history, turns[t]))
  }

  // ---------------------------------------------------------------------
  // Sorting turns by (score, position)
  // ---------------------------------------------------------------------

  predicate Precedes(scores: seq<int>, t: nat, u: nat)
    requires t < |scores| && u < |scores|
  {
    scores[t] < scores[u] || (scores[t] == scores[u] && t < u)
  }

  /** All turns below `n`, ascending. */
  ghost predicate Sorted(scores: seq<int>, order: seq<nat>, n: nat) {
    && n <= |scores|
    && |order| == n
    && (forall k :: 0 <= k < |order| ==> order[k] < n)
    && (forall t: nat :: t < n ==> t in order)
    && (forall j, k :: 0 <= j < k < |order| ==> Precedes(scores, order[j], order[k]))
  }

  /** The stable library sort, as an insertion sort. */
  method SortTurns(scores: seq<int>) returns (order: seq<nat>)
    ensures Sorted(scores, order, |scores|)
  {
    order := [];
    for n := 0 to |scores|
      invariant Sorted(scores, order, n)
    {
      var k := 0;
      while k < |order| && Precedes(scores, order[k], n)
        invariant k <= |order|
        invariant forall j :: 0 <= j < k ==> Precedes(scores, order[j], n)
      {
        k := k + 1;
      }
      InsertKeepsSorted(scores, order, n, k);
      order := order[..k] + [n] + order[k..];
    }
  }

  lemma InsertKeepsSorted(scores: seq<int>, order: seq<nat>, n: nat, k: nat)
    requires Sorted(scores, order, n) && n < |scores| && k <= |order|
    requires forall j :: 0 <= j < k ==> Precedes(scores, order[j], n)
    requires k < |order| ==> !Precedes(scores, order[k], n)
    ensures Sorted(scores, order[..k] + [n] + order[k..], n + 1)
  {
    var order' := order[..k] + [n] + order[k..];
    forall t: nat | t < n + 1 ensures t in order' {
      if t == n {
        assert order'[k] == n;
      } else {
        assert t in order;
        var j :| 0 <= j < |order| && order[j] == t;
        assert order'[if j < k then j else j + 1] == t;
      }
    }
    forall j | k <= j < |order| ensures Precedes(scores, n, order[j]) {
    }
  }

  // ---------------------------------------------------------------------
  // Dropping whole turns
  // ---------------------------------------------------------------------

  /** The turns of a history: they tile it. */
  ghost predicate Grouped(history: seq<Message>, turns: seq<Turn>) {
    && Tiles(turns, 0, |history|)
    && (forall t :: 0 <= t < |turns| ==> turns[t].start < turns[t].end <= |history|)
  }

  lemma {:induction false} TurnsAreGrouped(history: seq<Message>)
    ensures Grouped(history, AllTurns(history))
  {
    TurnsTile(history, 0);
    TilingMeaning(AllTurns(history), 0, |history|);
  }

  function Range(start: nat, end: nat): (positions: set<nat>)
    ensures forall i: nat :: i in positions <==> start <= i < end
    ensures |positions| == if start < end then end - start else 0
  {
    if start >= end then {} else Range(start, end - 1) + {end - 1}
  }

  /** The positions of the messages in the dropped turns. */
  ghost function PositionsOf(history: seq<Message>, turns: seq<Turn>, dropped: set<nat>): (drop: set<nat>)
    ensures forall i :: i in drop ==> i < |history|
  {
    set i: nat | i < |history| && TurnOf(turns, i) in dropped
  }

  /** The messages whose positions are not in `drop`, in order. */
  ghost function Filtered(history: seq<Message>, drop: set<nat>, i: nat): (kept: seq<Message>)
    requires i <= |history|
    decreases |history| - i
  {
    if i == |history| then []
    else (if i in drop then [] else [history[i]]) + Filtered(history, drop, i + 1)
  }

  ghost function Kept(history: seq<Message>, turns: seq<Turn>, dropped: set<nat>): (kept: seq<Message>) {
    Filtered(history, PositionsOf(history, turns, dropped), 0)
  }

  lemma {:induction false} FilteredSize(history: seq<Message>, drop: set<nat>, i: nat)
    requires i <= |history| && forall j :: j in drop ==> i <= j < |history|
    ensures |Filtered(history, drop, i)| + |drop| == |history| - i
    decreases |history| - i
  {
    if i < |history| {
      FilteredSize(history, drop - {i}, i + 1);
      FilteredIgnores(history, drop, i, i + 1);
    } else {
      assert drop == {};
    }
  }

  lemma {:induction false} FilteredIgnores(history: seq<Message>, drop: set<nat>, x: nat, i: nat)
    requires x < i <= |history|
    ensures Filtered(history, drop - {x}, i) == Filtered(history, drop, i)
    decreases |history| - i
  {
    if i < |history| {
      FilteredIgnores(history, drop, x, i + 1);
    }
  }

  /** Where a kept message comes from. */
  lemma {:induction false} KeptFromHistory(history: seq<Message>, drop: set<nat>, i: nat, k: nat) returns (j: nat)
    requires i <= |history| && k < |Filtered(history, drop, i)|
    ensures i <= j < |history| && j !in drop && history[j] == Filtered(history, drop, i)[k]
    decreases |history| - i
  {
    if i in drop {
      j := KeptFromHistory(history, drop, i + 1, k);
    } else if k == 0 {
      j := i;
    } else {
      j := KeptFromHistory(history, drop, i + 1, k - 1);
    }
  }

  /** Where a message that is not dropped goes. */
  lemma {:induction false} HistoryIsKept(history: seq<Message>, drop: set<nat>, i: nat, j: nat) returns (k: nat)
    requires i <= j < |history| && j !in drop
    ensures k < |Filtered(history, drop, i)| && Filtered(history, drop, i)[k] == history[j]
    decreases |history| - i
  {
    if i == j {
      k := 0;
    } else {
      k := HistoryIsKept(history, drop, i + 1, j);
      if i !in drop {
        k := k + 1;
      }
    }
  }

  lemma {:induction false} NothingDropped(history: seq<Message>, i: nat)
    requires i <= |history|
    ensures Filtered(history, {}, i) == history[i..]
    decreases |history| - i
  {
    if i < |history| {
      NothingDropped(history, i + 1);
    }
  }

  lemma KeptSize(history: seq<Message>, turns: seq<Turn>, dropped: set<nat>)
    ensures |Kept(history, turns, dropped)| + |PositionsOf(history, turns, dropped)| == |history|
  {
    FilteredSize(history, PositionsOf(history, turns, dropped), 0);
  }

  lemma {:induction false} TurnOfUnique(turns: seq<Turn>, from: nat, n: nat, t: nat, i: nat)
    requires Tiles(turns, from, n) && t < |turns| && turns[t].start <= i < turns[t].end
    ensures TurnOf(turns, i) == t
  {
    if t > 0 {
      TurnOfUnique(turns[1..], turns[0].end, n, t - 1, i);
      TilingMeaning(turns, from, n);
    }
  }

  /** The positions of a single turn are its interval. */
  lemma TurnIsInterval(history: seq<Message>, turns: seq<Turn>, u: nat)
    requires Grouped(history, turns) && u < |turns|
    ensures PositionsOf(history, turns, {u}) == Range(turns[u].start, turns[u].end)
  {
    TilingMeaning(turns, 0, |history|);
    forall i: nat | i < |history|
      ensures TurnOf(turns, i) == u <==> turns[u].start <= i < turns[u].end
    {
      if turns[u].start <= i < turns[u].end {
        TurnOfUnique(turns, 0, |history|, u, i);
      }
    }
  }

  lemma OneMoreTurn(history: seq<Message>, turns: seq<Turn>, dropped: set<nat>, u: nat)
    ensures PositionsOf(history, turns, dropped + {u}) ==
            PositionsOf(history, turns, dropped) + PositionsOf(history, turns, {u})
    ensures u !in dropped ==> PositionsOf(history, turns, dropped) !! PositionsOf(history, turns, {u})
  {
  }

  lemma OneMoreTurnAdds(history: seq<Message>, turns: seq<Turn>, dropped: set<nat>, u: nat)
    requires Grouped(history, turns) && u < |turns| && u !in dropped
    ensures |PositionsOf(history, turns, dropped + {u})| ==
            |PositionsOf(history, turns, dropped)| + (turns[u].end - turns[u].start)
  {
    OneMoreTurn(history, turns, dropped, u);
    TurnIsInterval(history, turns, u);
  }

  lemma {:induction false} AllPositions(history: seq<Message>, turns: seq<Turn>, dropped: set<nat>)
    requires Grouped(history, turns) && forall t: nat :: t < |turns| ==> t in dropped
    ensures PositionsOf(history, turns, dropped) == Range(0, |history|)
  {
    TilingMeaning(turns, 0, |history|);
  }

  /** Dropped turns precede all others. */
  ghost predicate GoFirst(scores: seq<int>, dropped: set<nat>) {
    && (forall t :: t in dropped ==> t < |scores|)
    && (forall t, u: nat :: t in dropped && u < |scores| && u !in dropped ==> Precedes(scores, t, u))
  }

  /** Turn `t` is the last of them. */
  ghost predicate IsLast(scores: seq<int>, dropped: set<nat>, t: nat) {
    && t in dropped && t < |scores|
    && forall u :: u in dropped && u != t ==> u < |scores| && Precedes(scores, u, t)
  }

  ghost predicate LastIsNeeded(history: seq<Message>, turns: seq<Turn>, scores: seq<int>, max: nat, dropped: set<nat>) {
    forall t {:trigger IsLast(scores, dropped, t)} ::
      IsLast(scores, dropped, t) ==> |Kept(history, turns, dropped - {t})| > max
  }

  /** The greedy choice: the turns that precede all others, as few as bring the history down to `max`. */
  ghost predicate GreedyChoice(history: seq<Message>, turns: seq<Turn>, scores: seq<int>, max: nat, dropped: set<nat>)
    requires |scores| == |turns|
  {
    && GoFirst(scores, dropped)
    && |Kept(history, turns, dropped)| <= max
    && LastIsNeeded(history, turns, scores, max, dropped)
  }

  ghost function Chosen(order: seq<nat>, k: nat): (dropped: set<nat>)
    requires k <= |order|
  {
    set j | 0 <= j < k :: order[j]
  }

  lemma ChosenGrows(scores: seq<int>, order: seq<nat>, n: nat, k: nat)
    requires Sorted(scores, order, n) && k < |order|
    ensures Chosen(order, k + 1) == Chosen(order, k) + {order[k]}
    ensures order[k] !in Chosen(order, k)
    ensures Chosen(order, k + 1) - {order[k]} == Chosen(order, k)
  {
    forall j | 0 <= j < k ensures order[j] != order[k] {
      assert Precedes(scores, order[j], order[k]);
    }
  }

  lemma ChosenPrecede(scores: seq<int>, order: seq<nat>, n: nat, k: nat, t: nat, u: nat)
    requires Sorted(scores, order, n) && k <= |order| && t in Chosen(order, k) && u < n && u !in Chosen(order, k)
    ensures t < n && Precedes(scores, t, u)
  {
    assert u in order;
    var j :| 0 <= j < k && order[j] == t;
    var i :| 0 <= i < |order| && order[i] == u;
  }

  lemma ChosenGoFirst(scores: seq<int>, order: seq<nat>, n: nat, k: nat)
    requires n == |scores| && Sorted(scores, order, n) && k <= |order|
    ensures GoFirst(scores, Chosen(order, k))
  {
    var dropped := Chosen(order, k);
    forall t, u: nat | t in dropped && u < |scores| && u !in dropped ensures Precedes(scores, t, u) {
      ChosenPrecede(scores, order, n, k, t, u);
    }
  }

  lemma LastChosen(scores: seq<int>, order: seq<nat>, n: nat, k: nat, t: nat)
    requires n == |scores| && Sorted(scores, order, n) && k <= |order| && IsLast(scores, Chosen(order, k), t)
    ensures k > 0 && t == order[k - 1]
  {
    var j :| 0 <= j < k && order[j] == t;
    assert order[k - 1] in Chosen(order, k);
    if j < k - 1 {
      assert Precedes(scores, order[j], order[k - 1]);
    }
  }

  lemma PrefixIsGreedy(history: seq<Message>, turns: seq<Turn>, scores: seq<int>, order: seq<nat>, max: nat, k: nat)
    requires |scores| == |turns| && Sorted(scores, order, |turns|) && k <= |order|
    requires |Kept(history, turns, Chosen(order, k))| <= max
    requires k > 0 ==> |Kept(history, turns, Chosen(order, k - 1))| > max
    ensures GreedyChoice(history, turns, scores, max, Chosen(order, k))
  {
    var dropped := Chosen(order, k);
    ChosenGoFirst(scores, order, |turns|, k);
    forall t | IsLast(scores, dropped, t) ensures |Kept(history, turns, dropped - {t})| > max {
      LastChosen(scores, order, |turns|, k, t);
      ChosenGrows(scores, order, |turns|, k - 1);
    }
  }

  /** How many messages the first `k` turns of the order hold. */
  function DropCount(turns: seq<Turn>, order: seq<nat>, k: nat): (count: nat)
    requires k <= |order|
    requires forall j :: 0 <= j < |order| ==> order[j] < |turns| && turns[order[j]].start < turns[order[j]].end
  {
    if k == 0 then 0
    else DropCount(turns, order, k - 1) + (turns[order[k - 1]].end - turns[order[k - 1]].start)
  }

  lemma {:induction false} DropCountMeaning(history: seq<Message>, turns: seq<Turn>, scores: seq<int>,
                                            order: seq<nat>, k: nat)
    requires Grouped(history, turns) && |scores| == |turns| && Sorted(scores, order, |turns|) && k <= |order|
    ensures |PositionsOf(history, turns, Chosen(order, k))| == DropCount(turns, order, k)
  {
    if k == 0 {
      assert PositionsOf(history, turns, Chosen(order, 0)) == {};
    } else {
      DropCountMeaning(history, turns, scores, order, k - 1);
      ChosenGrows(scores, order, |turns|, k - 1);
      OneMoreTurnAdds(history, turns, Chosen(order, k - 1), order[k - 1]);
    }
  }

  lemma {:induction false} AllChosen(history: seq<Message>, turns: seq<Turn>, scores: seq<int>, order: seq<nat>)
    requires Grouped(history, turns) && |scores| == |turns| && Sorted(scores, order, |turns|)
    ensures DropCount(turns, order, |order|) == |history|
  {
    DropCountMeaning(history, turns, scores, order, |order|);
    forall t: nat | t < |turns| ensures t in Chosen(order, |order|) {
      assert t in order;
    }
    AllPositions(history, turns, Chosen(order, |order|));
  }

  lemma {:induction false} KeptCount(history: seq<Message>, turns: seq<Turn>, scores: seq<int>, order: seq<nat>, k: nat)
    requires Grouped(history, turns) && |scores| == |turns| && Sorted(scores, order, |turns|) && k <= |order|
    ensures |Kept(history, turns, Chosen(order, k))| == |history| - DropCount(turns, order, k)
  {
    DropCountMeaning(history, turns, scores, order, k);
    KeptSize(history, turns, Chosen(order, k));
  }

  /** Takes turns in ascending order until enough messages are dropped. */
  method ChooseDrops(turns: seq<Turn>, order: seq<nat>, msgsToDrop: nat) returns (k: nat)
    requires forall j :: 0 <= j < |order| ==> order[j] < |turns| && turns[order[j]].start < turns[order[j]].end
    ensures k <= |order|
    ensures k < |order| ==> DropCount(turns, order, k) >= msgsToDrop
    ensures k > 0 ==> DropCount(turns, order, k - 1) < msgsToDrop
  {
    var dropMsgCount := 0;
    k := 0;
    while k < |order| && dropMsgCount < msgsToDrop
      invariant k <= |order| && dropMsgCount == DropCount(turns, order, k)
      invariant k > 0 ==> DropCount(turns, order, k - 1) < msgsToDrop
    {
      dropMsgCount := dropMsgCount + (turns[order[k]].end - turns[order[k]].start);
      k := k + 1;
    }
  }

  lemma ChoiceIsGreedy(history: seq<Message>, turns: seq<Turn>, scores: seq<int>, order: seq<nat>, max: nat, k: nat)
    requires Grouped(history, turns) && |scores| == |turns| && Sorted(scores, order, |turns|) && k <= |order|
    requires |history| > max
    requires k < |order| ==> DropCount(turns, order, k) >= |history| - max
    requires k > 0 ==> DropCount(turns, order, k - 1) < |history| - max
    ensures GreedyChoice(history, turns, scores, max, Chosen(order, k))
  {
    AllChosen(history, turns, scores, order);
    KeptCount(history, turns, scores, order, k);
    if k > 0 {
      KeptCount(history, turns, scores, order, k - 1);
    }
    PrefixIsGreedy(history, turns, scores, order, max, k);
  }

  /** Collects the positions of the first `k` turns of the order. */
  method CollectPositions(history: seq<Message>, turns: seq<Turn>, order: seq<nat>, k: nat) returns (drop: set<nat>)
    requires Grouped(history, turns) && k <= |order| && forall j :: 0 <= j < |order| ==> order[j] < |turns|
    ensures drop == PositionsOf(history, turns, Chosen(order, k))
  {
    drop := {};
    for j := 0 to k
      invariant drop == PositionsOf(history, turns, Chosen(order, j))
    {
      assert Chosen(order, j + 1) == Chosen(order, j) + {order[j]};
      OneMoreTurn(history, turns, Chosen(order, j), order[j]);
      TurnIsInterval(history, turns, order[j]);
      drop := drop + Range(turns[order[j]].start, turns[order[j]].end);
    }
  }

  /** Keeps the rest of the history in order. */
  method DropPositions(history: seq<Message>, drop: set<nat>) returns (kept: seq<Message>)
    ensures kept == Filtered(history, drop, 0)
  {
    kept := [];
    for i := 0 to |history|
      invariant kept + Filtered(history, drop, i) == Filtered(history, drop, 0)
    {
      if i !in drop {
        kept := kept + [history[i]];
      }
    }
  }

  /** Prunes a history to at most `maxMessages` messages; `dropped` are the turns taken out. */
  method PruneHistory(history: seq<Message>, maxMessages: nat, importance: Importance)
    returns (kept: seq<Message>, droppedCount: nat, ghost dropped: set<nat>)
    ensures Grouped(history, AllTurns(history))
    ensures |history| <= maxMessages ==> kept == history && dropped == {}
    ensures |kept| <= maxMessages && |kept| + droppedCount == |history|
    ensures GreedyChoice(history, AllTurns(history), TurnScores(importance, history, AllTurns(history)),
                         maxMessages, dropped)
    ensures kept == Kept(history, AllTurns(history), dropped)
  {
    var turns := GroupIntoTurns(history);
    TurnsAreGrouped(history);
    if |history| <= maxMessages {
      NothingDropped(history, 0);
      assert PositionsOf(history, turns, {}) == {};
      return history, 0, {};
    }
    var scores := TurnScores(importance, history, turns);
    var order := SortTurns(scores);
    var k := ChooseDrops(turns, order, |history| - maxMessages);
    ChoiceIsGreedy(history, turns, scores, order, maxMessages, k);
    var drop := CollectPositions(history, turns, order, k);
    kept := DropPositions(history, drop);
    KeptSize(history, turns, Chosen(order, k));
    droppedCount := |drop|;
    dropped := Chosen(order, k);
  }

  // ---------------------------------------------------------------------
  // Pairs through pruning
  // ---------------------------------------------------------------------

  /** Dropping turns never separates a tool use from its result: they are in one turn. */
  lemma {:induction false} PairsStayTogether(history: seq<Message>, u: nat, r: nat, id: string)
    requires WellPaired(history) && Pair(history, u, r, id)
    ensures TurnOf(AllTurns(history), u) == TurnOf(AllTurns(history), r) < |AllTurns(history)|
  {
    var turns := AllTurns(history);
    TurnsTile(history, 0);
    PairInOneTurn(history, u, r, id);
    var t: nat :| t < |turns| && turns[t].start == u && r < turns[t].end;
    assert RunOfAnswers(history, u, r);
    TurnOfUnique(turns, 0, |history|, t, u);
    TurnOfUnique(turns, 0, |history|, t, r);
  }

  lemma UseIn(history: seq<Message>, r: nat, id: string) returns (u: nat)
    requires NoOrphans(history) && r < |history| && id in ResultIds(history[r])
    ensures Pair(history, u, r, id)
  {
    assert Offers(history, id);
    u :| u < |history| && id in UseIds(history[u]);
  }

  /** The turn of position `r` has a use of `id`. */
  ghost predicate UsedInTurn(history: seq<Message>, r: nat, id: string) {
    exists u: nat :: Uses(history, u, id) && TurnOf(AllTurns(history), u) == TurnOf(AllTurns(history), r)
  }

  ghost predicate UsedInOwnTurns(history: seq<Message>) {
    forall r: nat, id :: Answers(history, r, id) ==> UsedInTurn(history, r, id)
  }

  ghost predicate UseIsKept(history: seq<Message>, drop: set<nat>, id: string) {
    exists u: nat :: Uses(history, u, id) && u !in drop
  }

  lemma {:induction false} KeptUses(history: seq<Message>, drop: set<nat>)
    requires forall r: nat, id :: Answers(history, r, id) && r !in drop ==> UseIsKept(history, drop, id)
    ensures NoOrphans(Filtered(history, drop, 0))
  {
    var kept := Filtered(history, drop, 0);
    forall k, id | 0 <= k < |kept| && id in ResultIds(kept[k]) ensures Offers(kept, id) {
      var r := KeptFromHistory(history, drop, 0, k);
      assert Answers(history, r, id);
      var u: nat :| Uses(history, u, id) && u !in drop;
      var l := HistoryIsKept(history, drop, 0, u);
    }
  }

  /** A result stays with the use in its own turn. */
  lemma TurnsKeepUses(history: seq<Message>, dropped: set<nat>)
    requires UsedInOwnTurns(history)
    ensures NoOrphans(Kept(history, AllTurns(history), dropped))
  {
    var drop := PositionsOf(history, AllTurns(history), dropped);
    forall r: nat, id | Answers(history, r, id) && r !in drop ensures UseIsKept(history, drop, id) {
      assert UsedInTurn(history, r, id);
    }
    KeptUses(history, drop);
  }

  /** Every turn but the one of position `r`. */
  ghost function OtherTurns(history: seq<Message>, r: nat): (dropped: set<nat>) {
    Range(0, |AllTurns(history)|) - {TurnOf(AllTurns(history), r)}
  }

  /** What is left if all turns but that of position `r` are dropped is in that turn. */
  lemma {:induction false} LeftInTurn(history: seq<Message>, r: nat, u: nat)
    requires u < |history| && u !in PositionsOf(history, AllTurns(history), OtherTurns(history, r))
    ensures TurnOf(AllTurns(history), u) == TurnOf(AllTurns(history), r)
  {
    var turns := AllTurns(history);
    TurnsTile(history, 0);
    TilingMeaning(turns, 0, |history|);
    assert TurnOf(turns, u) < |turns|;
  }

  /** If all other turns are dropped, a result is left with the uses of its own turn. */
  lemma OwnTurnIsLeft(history: seq<Message>, r: nat, id: string)
    requires Answers(history, r, id) && NoOrphans(Kept(history, AllTurns(history), OtherTurns(history, r)))
    ensures UsedInTurn(history, r, id)
  {
    var turns := AllTurns(history);
    var drop := PositionsOf(history, turns, OtherTurns(history, r));
    var kept := Kept(history, turns, OtherTurns(history, r));
    var k := HistoryIsKept(history, drop, 0, r);
    assert Offers(kept, id);
    var l :| 0 <= l < |kept| && id in UseIds(kept[l]);
    var u := KeptFromHistory(history, drop, 0, l);
    LeftInTurn(history, r, u);
    assert Uses(history, u, id);
  }

  /** Exactly when pruning is safe: no choice of dropped turns leaves an orphan if and only if every result has a
      use of its id in its own turn. */
  lemma PruningSafeIff(history: seq<Message>)
    ensures (forall dropped: set<nat> :: NoOrphans(Kept(history, AllTurns(history), dropped)))
            <==> UsedInOwnTurns(history)
  {
    if UsedInOwnTurns(history) {
      forall dropped: set<nat> ensures NoOrphans(Kept(history, AllTurns(history), dropped)) {
        TurnsKeepUses(history, dropped);
      }
    }
    if forall dropped: set<nat> :: NoOrphans(Kept(history, AllTurns(history), dropped)) {
      forall r: nat, id | Answers(history, r, id) ensures UsedInTurn(history, r, id) {
        OwnTurnIsLeft(history, r, id);
      }
    }
  }

  // ---------------------------------------------------------------------
  // Pairs through pruning by score
  // ---------------------------------------------------------------------

  ghost function ScoresOf(importance: Importance, history: seq<Message>): (scores: seq<int>) {
    TurnsAreGrouped(history);
    TurnScores(importance, history, AllTurns(history))
  }

  lemma {:induction false} TurnInRange(history: seq<Message>, i: nat)
    requires i < |history|
    ensures TurnOf(AllTurns(history), i) < |AllTurns(history)|
  {
    TurnsTile(history, 0);
    TilingMeaning(AllTurns(history), 0, |history|);
  }

  /** The turn of `u` goes before that of `r`. */
  ghost predicate GoesBefore(history: seq<Message>, scores: seq<int>, u: nat, r: nat) {
    && TurnOf(AllTurns(history), u) < |scores| && TurnOf(AllTurns(history), r) < |scores|
    && Precedes(scores, TurnOf(AllTurns(history), u), TurnOf(AllTurns(history), r))
  }

  /** Some use of `id` is in the turn of `r`, or in a turn that goes later. */
  ghost predicate Outlasted(history: seq<Message>, scores: seq<int>, r: nat, id: string) {
    exists u: nat :: Uses(history, u, id) && !GoesBefore(history, scores, u, r)
  }

  ghost predicate AllOutlasted(history: seq<Message>, scores: seq<int>) {
    forall r: nat, id :: Answers(history, r, id) ==> Outlasted(history, scores, r, id)
  }

  lemma OutlastingStays(history: seq<Message>, scores: seq<int>, dropped: set<nat>, r: nat, u: nat)
    requires |scores| == |AllTurns(history)| && GoFirst(scores, dropped)
    requires r < |history| && u < |history| && !GoesBefore(history, scores, u, r)
    requires r !in PositionsOf(history, AllTurns(history), dropped)
    ensures u !in PositionsOf(history, AllTurns(history), dropped)
  {
    TurnInRange(history, u);
    TurnInRange(history, r);
  }

  /** A choice by score keeps a use of every result it keeps. */
  lemma ChoiceKeepsUses(history: seq<Message>, scores: seq<int>, max: nat, dropped: set<nat>)
    requires |scores| == |AllTurns(history)| && AllOutlasted(history, scores)
    requires GreedyChoice(history, AllTurns(history), scores, max, dropped)
    ensures NoOrphans(Kept(history, AllTurns(history), dropped))
  {
    var drop := PositionsOf(history, AllTurns(history), dropped);
    forall r: nat, id | Answers(history, r, id) && r !in drop ensures UseIsKept(history, drop, id) {
      assert Outlasted(history, scores, r, id);
      var u: nat :| Uses(history, u, id) && !GoesBefore(history, scores, u, r);
      OutlastingStays(history, scores, dropped, r, u);
    }
    KeptUses(history, drop);
  }

  /** The turns that go before turn `t`. */
  ghost function Earlier(scores: seq<int>, t: nat): (earlier: set<nat>)
    requires t < |scores|
    ensures forall u: nat :: u in earlier <==> u < |scores| && Precedes(scores, u, t)
  {
    set u: nat | u in Range(0, |scores|) && Precedes(scores, u, t)
  }

  /** They are what the pruning takes out for some size. */
  lemma EarlierIsGreedy(history: seq<Message>, scores: seq<int>, t: nat)
    requires |scores| == |AllTurns(history)| && t < |scores|
    ensures var turns, dropped := AllTurns(history), Earlier(scores, t);
            GreedyChoice(history, turns, scores, |Kept(history, turns, dropped)|, dropped)
  {
    var turns, dropped := AllTurns(history), Earlier(scores, t);
    TurnsAreGrouped(history);
    forall u | u in dropped ensures |Kept(history, turns, dropped - {u})| > |Kept(history, turns, dropped)| {
      assert dropped - {u} + {u} == dropped;
      OneMoreTurnAdds(history, turns, dropped - {u}, u);
      KeptSize(history, turns, dropped);
      KeptSize(history, turns, dropped - {u});
    }
  }

  /** If every use of a result goes before it, this choice orphans it. */
  lemma {:induction false} EarlierOrphans(history: seq<Message>, scores: seq<int>, r: nat, id: string)
    requires |scores| == |AllTurns(history)| && Answers(history, r, id) && !Outlasted(history, scores, r, id)
    ensures TurnOf(AllTurns(history), r) < |scores|
    ensures !NoOrphans(Kept(history, AllTurns(history), Earlier(scores, TurnOf(AllTurns(history), r))))
  {
    TurnInRange(history, r);
    var turns, dropped := AllTurns(history), Earlier(scores, TurnOf(AllTurns(history), r));
    var kept, drop := Kept(history, turns, dropped), PositionsOf(history, turns, dropped);
    forall u: nat | Uses(history, u, id) ensures u in drop {
      assert GoesBefore(history, scores, u, r);
    }
    OrphanedByDropping(history, drop, r, id);
  }

  /** If all uses of a kept result are dropped, it is an orphan. */
  lemma {:induction false} OrphanedByDropping(history: seq<Message>, drop: set<nat>, r: nat, id: string)
    requires Answers(history, r, id) && r !in drop && forall u: nat :: Uses(history, u, id) ==> u in drop
    ensures !NoOrphans(Filtered(history, drop, 0))
  {
    var kept := Filtered(history, drop, 0);
    var k := HistoryIsKept(history, drop, 0, r);
    forall l | 0 <= l < |kept| ensures id !in UseIds(kept[l]) {
      var u := KeptFromHistory(history, drop, 0, l);
      assert !Uses(history, u, id);
    }
    assert !Offers(kept, id) && id in ResultIds(kept[k]);
  }

  /** Exactly when the pruning of a history is safe for every size limit: every result has a use of its id in its own
      turn, or in one that goes later in the order of scores. */
  lemma PruneHistorySafeIff(importance: Importance, history: seq<Message>)
    ensures var turns, scores := AllTurns(history), ScoresOf(importance, history);
            && |scores| == |turns|
            && ((forall max: nat, dropped: set<nat> :: GreedyChoice(history, turns, scores, max, dropped) ==>
                   NoOrphans(Kept(history, turns, dropped))) <==> AllOutlasted(history, scores))
  {
    var turns, scores := AllTurns(history), ScoresOf(importance, history);
    if AllOutlasted(history, scores) {
      forall max: nat, dropped: set<nat> | GreedyChoice(history, turns, scores, max, dropped)
        ensures NoOrphans(Kept(history, turns, dropped))
      {
        ChoiceKeepsUses(history, scores, max, dropped);
      }
    } else {
      var r: nat, id :| Answers(history, r, id) && !Outlasted(history, scores, r, id);
      EarlierOrphans(history, scores, r, id);
      EarlierIsGreedy(history, scores, TurnOf(turns, r));
    }
  }

  /** A tool use, a message between, and the result: three turns. */
  ghost predicate Interrupted(history: seq<Message>, id: string) {
    && |history| == 3
    && UseIds(history[0]) == [id] && UseIds(history[1]) == UseIds(history[2]) == []
    && ResultIds(history[0]) == ResultIds(history[1]) == [] && ResultIds(history[2]) == [id]
  }

  lemma InterruptedTurns(history: seq<Message>, id: string)
    requires Interrupted(history, id)
    ensures AllTurns(history) == [Turn(0, 1), Turn(1, 2), Turn(2, 3)]
    ensures forall i: nat :: i < 3 ==> TurnOf(AllTurns(history), i) == i
  {
    NotAbsorbed(history, 0, 1);
    NoUsesEndTurn(history, 1);
    NoUsesEndTurn(history, 2);
    assert TurnsFrom(history, 3) == [] && TurnsFrom(history, 2) == [Turn(2, 3)];
    assert TurnsFrom(history, 1) == [Turn(1, 2), Turn(2, 3)];
    TurnsAreGrouped(history);
    forall i: nat | i < 3 ensures TurnOf(AllTurns(history), i) == i {
      TurnOfUnique(AllTurns(history), 0, 3, i, i);
    }
  }

  lemma InterruptedScores(importance: Importance, history: seq<Message>, id: string)
    requires Interrupted(history, id)
    ensures ScoresOf(importance, history) ==
            [importance(history[0]) + 3, importance(history[1]) + 3, importance(history[2]) + 3]
  {
    InterruptedTurns(history, id);
  }

  /** With room for two, exactly the turn with the lowest score goes, if the others are equal. */
  lemma LowestGoes(history: seq<Message>, id: string, scores: seq<int>, dropped: set<nat>)
    requires Interrupted(history, id) && |scores| == |AllTurns(history)| == 3 && scores[0] < scores[1] == scores[2]
    requires GreedyChoice(history, AllTurns(history), scores, 2, dropped)
    ensures 0 in dropped && 2 !in dropped
  {
    var turns := AllTurns(history);
    InterruptedTurns(history, id);
    KeptSize(history, turns, dropped);
    var i :| i in PositionsOf(history, turns, dropped);
    assert TurnOf(turns, i) in dropped;
    assert 0 in dropped;
    KeptSize(history, turns, dropped - {2});
    assert 0 in PositionsOf(history, turns, dropped - {2});
    assert |Kept(history, turns, dropped - {2})| <= 2;
    assert !IsLast(scores, dropped, 2);
  }

  /** Pruning does orphan results: a tool use, an image of the user and the error that answers the use, of medium, high
      and high importance, are three turns, and with room for two messages the use goes alone. */
  lemma PruningOrphansAResult(importance: Importance) returns (history: seq<Message>)
    requires importance(Message(Assistant, Parts([ToolUse("x", "shell", "{}")]))) == 5
    requires importance(Message(User, Parts([Image("image/png", "")]))) == 7
    requires importance(Message(Tool, Parts([ToolResult("x", "failed", true)]))) == 7
    ensures |ScoresOf(importance, history)| == |AllTurns(history)|
    ensures forall dropped :: GreedyChoice(history, AllTurns(history), ScoresOf(importance, history), 2, dropped) ==>
              !NoOrphans(Kept(history, AllTurns(history), dropped))
  {
    var id := "x";
    var use, image, answer := [ToolUse(id, "shell", "{}")], [Image("image/png", "")], [ToolResult(id, "failed", true)];
    history := [Message(Assistant, Parts(use)), Message(User, Parts(image)), Message(Tool, Parts(answer))];
    assert use[1..] == [] && image[1..] == [] && answer[1..] == [];
    assert Interrupted(history, id);
    InterruptedTurns(history, id);
    InterruptedScores(importance, history, id);
    var turns, scores := AllTurns(history), ScoresOf(importance, history);
    forall dropped | GreedyChoice(history, turns, scores, 2, dropped)
      ensures !NoOrphans(Kept(history, turns, dropped))
    {
      LowestGoes(history, id, scores, dropped);
      OrphanedByDropping(history, PositionsOf(history, turns, dropped), 2, id);
    }
  }

  /** In a well-paired history without orphans every result has its use in its own turn, so none is an orphan after
      pruning. */
  lemma {:induction false} PruningKeepsPairing(history: seq<Message>, dropped: set<nat>)
    requires WellPaired(history) && NoOrphans(history)
    ensures NoOrphans(Kept(history, AllTurns(history), dropped))
  {
    forall r: nat, id | Answers(history, r, id) ensures UsedInTurn(history, r, id) {
      var u := UseIn(history, r, id);
      PairsStayTogether(history, u, r, id);
    }
    TurnsKeepUses(history, dropped);
  }

  // ---------------------------------------------------------------------
  // Recency
  // ---------------------------------------------------------------------

  /** Of equally important messages the later never scores less. */
  lemma LaterScoresNoLess(importance: Importance, history: seq<Message>, i: nat, j: nat)
    requires i <= j < |history| && importance(history[i]) == importance(history[j])
    ensures ScoreAt(importance, history, i) <= ScoreAt(importance, history, j)
  {
  }

  /** The last four messages, and only they, score 3 more than they are worth. */
  lemma LastFourScoreMore(importance: Importance, history: seq<Message>, i: nat)
    requires i < |history|
    ensures ScoreAt(importance, history, i) == importance(history[i]) + 3 <==> |history| - i <= 4
    ensures ScoreAt(importance, history, i) == importance(history[i]) <==> |history| - i > 4
  {
  }

  ghost predicate NoUses(history: seq<Message>) {
    forall i :: 0 <= i < |history| ==> UseIds(history[i]) == []
  }

  lemma {:induction false} EachItsTurn(history: seq<Message>, i: nat)
    requires NoUses(history) && i <= |history|
    ensures |TurnsFrom(history, i)| == |history| - i
    ensures forall k :: 0 <= k < |history| - i ==> TurnsFrom(history, i)[k] == Turn(i + k, i + k + 1)
    decreases |history| - i
  {
    if i < |history| {
      NoUsesEndTurn(history, i);
      EachItsTurn(history, i + 1);
    }
  }

  /** Without tool uses, every message is a turn and has its own score. */
  lemma TurnsAreMessages(importance: Importance, history: seq<Message>)
    requires NoUses(history)
    ensures |AllTurns(history)| == |ScoresOf(importance, history)| == |history|
    ensures forall i: nat :: i < |history| ==> TurnOf(AllTurns(history), i) == i
    ensures forall i: nat :: i < |history| ==> ScoresOf(importance, history)[i] == ScoreAt(importance, history, i)
  {
    EachItsTurn(history, 0);
    TurnsAreGrouped(history);
    forall i: nat | i < |history| ensures TurnOf(AllTurns(history), i) == i {
      TurnOfUnique(AllTurns(history), 0, |history|, i, i);
    }
  }

  /** What goes before something dropped is dropped. */
  lemma BeforeDropped(scores: seq<int>, dropped: set<nat>, t: nat, u: nat)
    requires GoFirst(scores, dropped) && t < |scores| && u < |scores| && Precedes(scores, t, u)
    ensures u in dropped ==> t in dropped
  {
  }

  /** One of the last four messages is dropped only after every earlier one whose importance is at most 3 above its
      own, and any other message only after every earlier one that is not more important. */
  lemma EarlierGoFirst(importance: Importance, history: seq<Message>, max: nat, dropped: set<nat>, i: nat, j: nat)
    requires NoUses(history) && i < j < |history|
    requires |ScoresOf(importance, history)| == |AllTurns(history)|
    requires GreedyChoice(history, AllTurns(history), ScoresOf(importance, history), max, dropped)
    requires importance(history[i]) <= importance(history[j]) + (if i < |history| - 4 <= j then 3 else 0)
    ensures j in PositionsOf(history, AllTurns(history), dropped) ==>
              i in PositionsOf(history, AllTurns(history), dropped)
  {
    TurnsAreMessages(importance, history);
    LastFourScoreMore(importance, history, i);
    LastFourScoreMore(importance, history, j);
    BeforeDropped(ScoresOf(importance, history), dropped, i, j);
  }

  lemma {:induction false} DroppedPrefix(history: seq<Message>, drop: set<nat>, m: nat, i: nat)
    requires m <= |history| && i <= |history| && forall k: nat :: k < |history| ==> (k in drop <==> k < m)
    ensures Filtered(history, drop, i) == if i <= m then history[m..] else history[i..]
    decreases |history| - i
  {
    if i < |history| {
      DroppedPrefix(history, drop, m, i + 1);
    }
  }

  /** How many of the first messages are dropped. */
  ghost function PrefixIn(drop: set<nat>, n: nat): (m: nat)
    ensures m <= n && (m < n ==> m !in drop) && forall k: nat :: k < m ==> k in drop
  {
    if n == 0 then 0 else if PrefixIn(drop, n - 1) == n - 1 && n - 1 in drop then n else PrefixIn(drop, n - 1)
  }

  /** Equally important messages without tool uses: exactly the last `max` stay. */
  lemma NewestStay(importance: Importance, history: seq<Message>, max: nat, dropped: set<nat>)
    requires NoUses(history) && forall i :: 0 <= i < |history| ==> importance(history[i]) == importance(history[0])
    requires |ScoresOf(importance, history)| == |AllTurns(history)|
    requires GreedyChoice(history, AllTurns(history), ScoresOf(importance, history), max, dropped)
    ensures Kept(history, AllTurns(history), dropped) == history[if |history| <= max then 0 else |history| - max..]
  {
    var turns, scores, n := AllTurns(history), ScoresOf(importance, history), |history|;
    TurnsAreMessages(importance, history);
    var drop := PositionsOf(history, turns, dropped);
    var m := PrefixIn(drop, n);
    forall k: nat | k < n ensures k in drop <==> k < m {
      if m < k {
        EarlierGoFirst(importance, history, max, dropped, m, k);
      }
    }
    DroppedPrefix(history, drop, m, 0);
    assert Kept(history, turns, dropped) == history[m..];
    if m > 0 {
      LastOfPrefix(importance, history, max, dropped, m);
    }
  }

  lemma {:induction false} WithoutLast(history: seq<Message>, turns: seq<Turn>, dropped: set<nat>, last: nat)
    requires last < |history| && forall i: nat :: i < |history| ==> TurnOf(turns, i) == i
    requires forall k: nat :: k < |history| ==> (k in PositionsOf(history, turns, dropped) <==> k <= last)
    ensures |Kept(history, turns, dropped - {last})| == |history| - last
  {
    var drop := PositionsOf(history, turns, dropped - {last});
    forall k: nat | k < |history| ensures k in drop <==> k < last {
      assert TurnOf(turns, k) == k;
      assert k in PositionsOf(history, turns, dropped) <==> k <= last;
    }
    DroppedPrefix(history, drop, last, 0);
  }

  lemma PrefixScores(importance: Importance, history: seq<Message>, turns: seq<Turn>, scores: seq<int>,
                     dropped: set<nat>, last: nat)
    requires NoUses(history) && forall i :: 0 <= i < |history| ==> importance(history[i]) == importance(history[0])
    requires turns == AllTurns(history) && scores == ScoresOf(importance, history)
    requires last < |history|
    requires forall k: nat :: k < |history| ==> (k in PositionsOf(history, turns, dropped) ==> k <= last)
    requires last in dropped && forall u :: u in dropped ==> u < |turns|
    ensures |scores| == |turns| == |history| && IsLast(scores, dropped, last)
  {
    TurnsAreMessages(importance, history);
    forall u | u in dropped && u != last ensures u < |turns| && Precedes(scores, u, last) {
      assert u in PositionsOf(history, turns, dropped);
      LaterScoresNoLess(importance, history, u, last);
    }
  }

  /** The last message of a dropped prefix had to go. */
  lemma LastOfPrefix(importance: Importance, history: seq<Message>, max: nat, dropped: set<nat>, m: nat)
    requires NoUses(history) && forall i :: 0 <= i < |history| ==> importance(history[i]) == importance(history[0])
    requires |ScoresOf(importance, history)| == |AllTurns(history)| && 0 < m <= |history|
    requires GreedyChoice(history, AllTurns(history), ScoresOf(importance, history), max, dropped)
    requires forall k: nat :: k < |history| ==> (k in PositionsOf(history, AllTurns(history), dropped) <==> k < m)
    ensures |history| - m + 1 > max
  {
    var turns, scores, last := AllTurns(history), ScoresOf(importance, history), m - 1;
    TurnsAreMessages(importance, history);
    assert last in PositionsOf(history, turns, dropped);
    PrefixScores(importance, history, turns, scores, dropped, last);
    WithoutLast(history, turns, dropped, last);
  }

  // ---------------------------------------------------------------------
  // Orphaned tool results
  // ---------------------------------------------------------------------

  /** A message that names a result whose tool use is nowhere in `messages`. */
  predicate Orphaned(messages: seq<Message>, m: Message) {
    exists id | id in ResultIds(m) :: !Offers(messages, id)
  }

  /** The elements that satisfy `keep`, in order (`retain`). */
  ghost function Retained<T>(s: seq<T>, keep: T -> bool): (kept: seq<T>) {
    if s == [] then [] else (if keep(s[0]) then [s[0]] else []) + Retained(s[1..], keep)
  }

  function Supported(messages: seq<Message>): (keep: Message -> bool) {
    (m: Message) => !Orphaned(messages, m)
  }

  ghost function WithoutOrphans(messages: seq<Message>): (kept: seq<Message>) {
    Retained(messages, Supported(messages))
  }

  lemma RetainNext<T>(s: seq<T>, keep: T -> bool, kept: seq<T>, i: nat)
    requires i < |s|
    ensures kept + Retained(s[i..], keep) == (kept + (if keep(s[i]) then [s[i]] else [])) + Retained(s[i + 1..], keep)
  {
    assert s[i..][1..] == s[i + 1..];
  }

  lemma {:induction false} RetainedMeaning<T>(s: seq<T>, keep: T -> bool, x: T)
    ensures x in Retained(s, keep) <==> x in s && keep(x)
  {
    if s != [] {
      RetainedMeaning(s[1..], keep, x);
    }
  }

  lemma {:induction false} RetainedCons<T>(x: T, s: seq<T>, keep: T -> bool)
    ensures Retained([x] + s, keep) == (if keep(x) then [x] else []) + Retained(s, keep)
  {
    assert ([x] + s)[1..] == s;
  }

  /** Order is kept. */
  lemma {:induction false} RetainedConcat<T>(a: seq<T>, b: seq<T>, keep: T -> bool)
    ensures Retained(a + b, keep) == Retained(a, keep) + Retained(b, keep)
  {
    if a == [] {
      assert a + b == b;
    } else {
      RetainedConcat(a[1..], b, keep);
      assert a + b == [a[0]] + (a[1..] + b);
      RetainedCons(a[0], a[1..] + b, keep);
      Regrouped(if keep(a[0]) then [a[0]] else [], Retained(a[1..], keep), Retained(b, keep));
    }
  }

  lemma {:induction false} RetainedAll<T>(s: seq<T>, keep: T -> bool)
    requires forall i :: 0 <= i < |s| ==> keep(s[i])
    ensures Retained(s, keep) == s
  {
    if s != [] {
      RetainedAll(s[1..], keep);
      assert s == [s[0]] + s[1..];
    }
  }

  lemma {:induction false} RetainedSame<T>(s: seq<T>, keep: T -> bool, other: T -> bool)
    requires forall i :: 0 <= i < |s| ==> keep(s[i]) == other(s[i])
    ensures Retained(s, keep) == Retained(s, other)
  {
    if s != [] {
      RetainedSame(s[1..], keep, other);
    }
  }

  method Retain(messages: seq<Message>, keep: Message -> bool) returns (kept: seq<Message>)
    ensures kept == Retained(messages, keep)
  {
    kept := [];
    for i := 0 to |messages|
      invariant kept + Retained(messages[i..], keep) == Retained(messages, keep)
    {
      RetainNext(messages, keep, kept, i);
      kept := kept + (if keep(messages[i]) then [messages[i]] else []);
    }
  }

  /** Keeps the messages all of whose results have a tool use among `messages`. */
  method RemoveOrphanedToolResults(messages: seq<Message>) returns (kept: seq<Message>)
    ensures kept == WithoutOrphans(messages)
  {
    kept := Retain(messages, Supported(messages));
  }

  /** A message stays exactly if all its results have a tool use in the list. */
  lemma WithoutOrphansMeaning(messages: seq<Message>, m: Message)
    ensures m in WithoutOrphans(messages) <==> m in messages && forall id :: id in ResultIds(m) ==> Offers(messages, id)
  {
    RetainedMeaning(messages, Supported(messages), m);
  }

  /** Everyone who offers `id` is about to be removed, though someone who stays names it. */
  ghost predicate LosesUse(messages: seq<Message>, r: Message, id: string) {
    && r in messages && !Orphaned(messages, r) && id in ResultIds(r)
    && forall o :: o in messages && id in UseIds(o) ==> Orphaned(messages, o)
  }

  lemma OrphanAfterwardsIff(messages: seq<Message>, r: Message, id: string)
    requires r in WithoutOrphans(messages) && id in ResultIds(r)
    ensures !Offers(WithoutOrphans(messages), id) <==> LosesUse(messages, r, id)
  {
    var kept := WithoutOrphans(messages);
    WithoutOrphansMeaning(messages, r);
    if LosesUse(messages, r, id) {
      if j :| 0 <= j < |kept| && id in UseIds(kept[j]) {
        WithoutOrphansMeaning(messages, kept[j]);
      }
    } else {
      var o :| o in messages && id in UseIds(o) && !Orphaned(messages, o);
      WithoutOrphansMeaning(messages, o);
      var j :| 0 <= j < |kept| && kept[j] == o;
    }
  }

  /** One pass leaves no orphan exactly when no removed message takes a needed tool use with it. */
  lemma OnePassSufficesIff(messages: seq<Message>)
    ensures NoOrphans(WithoutOrphans(messages)) <==> forall r, id :: !LosesUse(messages, r, id)
  {
    var kept := WithoutOrphans(messages);
    forall r, id | LosesUse(messages, r, id)
      ensures !NoOrphans(kept)
    {
      WithoutOrphansMeaning(messages, r);
      OrphanAfterwardsIff(messages, r, id);
      var k :| 0 <= k < |kept| && kept[k] == r;
    }
    forall k, id | 0 <= k < |kept| && id in ResultIds(kept[k])
      ensures Offers(kept, id) || LosesUse(messages, kept[k], id)
    {
      OrphanAfterwardsIff(messages, kept[k], id);
    }
  }

  /** In particular it does when no message mixes tool uses and results. */
  lemma UnmixedOnePassSuffices(messages: seq<Message>)
    requires forall k :: 0 <= k < |messages| ==> !Mixed(messages[k])
    ensures NoOrphans(WithoutOrphans(messages))
  {
    forall r, id ensures !LosesUse(messages, r, id) {
    }
    OnePassSufficesIff(messages);
  }

  /** A mixed message breaks it: the first message goes because its result is an orphan, and takes the tool use
      with it that the second message answers. */
  lemma MixedOrphanSurvives(mixed: Message, answer: Message, x: string, y: string)
    requires x != y && UseIds(mixed) == [y] && ResultIds(mixed) == [x]
    requires UseIds(answer) == [] && ResultIds(answer) == [y]
    ensures !NoOrphans(WithoutOrphans([mixed, answer]))
  {
    var messages := [mixed, answer];
    assert !Offers(messages, x) && x in ResultIds(messages[0]);
    assert y in UseIds(messages[0]);
    assert messages[0] in messages && messages[1] in messages;
    assert LosesUse(messages, messages[1], y);
    OnePassSufficesIff(messages);
  }

  lemma MixedMessagesExist()
    ensures var mixed := Message(Assistant, Parts([ToolResult("x", "", false), ToolUse("y", "shell", "{}")]));
            var answer := Message(Tool, Parts([ToolResult("y", "", false)]));
            !NoOrphans(WithoutOrphans([mixed, answer]))
  {
    var first := [ToolResult("x", "", false), ToolUse("y", "shell", "{}")];
    var second := [ToolResult("y", "", false)];
    assert first[1..] == [first[1]];
    assert UseIdsOf(first) == ["y"] && ResultIdsOf(first) == ["x"];
    assert UseIdsOf(second) == [] && ResultIdsOf(second) == ["y"];
    MixedOrphanSurvives(Message(Assistant, Parts(first)), Message(Tool, Parts(second)), "x", "y");
  }
}
