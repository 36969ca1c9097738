/** Sums of sequences, for counting arguments over threads and tasks. */
module Sums {
  ghost function Sum(ws: seq<nat>): (total: nat) {
    if ws == [] then 0 else ws[0] + Sum(ws[1..])
  }

  lemma {:induction false} SumUpdate(ws: seq<nat>, i: nat, w: nat)
    requires i < |ws|
    ensures Sum(ws[i := w]) == Sum(ws) - ws[i] + w
  {
    if i == 0 {
      assert ws[0 := w][1..] == ws[1..];
    } else {
      assert ws[i := w][1..] == ws[1..][i - 1 := w];
      SumUpdate(ws[1..], i - 1, w);
    }
  }

  lemma {:induction false} SumBound(ws: seq<nat>, bound: nat)
    requires forall i :: 0 <= i < |ws| ==> ws[i] <= bound
    ensures Sum(ws) <= |ws| * bound
  {
    if ws != [] {
      SumBound(ws[1..], bound);
      assert |ws| * bound == bound + (|ws| - 1) * bound;
    }
  }

  lemma {:induction false} SumPositive(ws: seq<nat>, i: nat)
    requires i < |ws|
    ensures ws[i] <= Sum(ws)
  {
    if i > 0 {
      SumPositive(ws[1..], i - 1);
    }
  }

  lemma {:induction false} SumZero(ws: seq<nat>)
    requires forall i :: 0 <= i < |ws| ==> ws[i] == 0
    ensures Sum(ws) == 0
  {
    if ws != [] {
      SumZero(ws[1..]);
    }
  }

  ghost function Ones(ws: seq<nat>): set<nat> {
    set i: nat | i < |ws| && ws[i] == 1
  }

  lemma OnesSplitLast(ws: seq<nat>, last: nat)
    requires |ws| == last + 1
    ensures |Ones(ws)| == |Ones(ws[..last])| + (if ws[last] == 1 then 1 else 0)
  {
    assert Ones(ws) == Ones(ws[..last]) + (if ws[last] == 1 then {last} else {});
  }

  /** A sum of zeros and ones counts the ones. */
  lemma {:induction false} SumCounts(ws: seq<nat>)
    requires forall i :: 0 <= i < |ws| ==> ws[i] <= 1
    ensures Sum(ws) == |Ones(ws)|
  {
    if ws != [] {
      var last := |ws| - 1;
      var front := ws[..last];
      SumCounts(front);
      OnesSplitLast(ws, last);
      SumSplitLast(ws);
    }
  }

  lemma {:induction false} SumSplitLast(ws: seq<nat>)
    requires ws != []
    ensures Sum(ws) == Sum(ws[..|ws| - 1]) + ws[|ws| - 1]
  {
    if |ws| > 1 {
      SumSplitLast(ws[1..]);
      assert ws[1..][..|ws| - 2] == ws[..|ws| - 1][1..];
    }
  }
}
