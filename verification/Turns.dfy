/** Grouping of a history into indivisible turns: a tool use with the results that follow it. */
module Turns {
  import opened Messages

  /** A turn is the interval `start..end` of message positions. */
  datatype Turn = Turn(start: nat, end: nat)

  function Ids(ids: seq<string>): set<string> {
    set id | id in ids
  }

  /** The ids that each message answers. */
  function AnswersOf(messages: seq<Message>): (answers: seq<set<string>>) {
    seq(|messages|, i requires 0 <= i < |messages| => Ids(ResultIds(messages[i])))
  }

  /** How far the run of answers to `pending` reaches from `j`. */
  function RunEnd(answers: seq<set<string>>, j: nat, pending: set<string>): (end: nat)
    ensures j <= end && (j <= |answers| ==> end <= |answers|)
    decreases |answers| - j
  {
    if j < |answers| && pending != {} && answers[j] * pending != {}
    then RunEnd(answers, j + 1, pending - answers[j])
    else j
  }

  function TurnEnd(messages: seq<Message>, i: nat): (end: nat)
    requires i < |messages|
    ensures i < end <= |messages|
  {
    RunEnd(AnswersOf(messages), i + 1, Ids(UseIds(messages[i])))
  }

  function TurnsFrom(messages: seq<Message>, i: nat): (turns: seq<Turn>)
    requires i <= |messages|
    decreases |messages| - i
  {
    if i == |messages| then []
    else [Turn(i, TurnEnd(messages, i))] + TurnsFrom(messages, TurnEnd(messages, i))
  }

  function AllTurns(messages: seq<Message>): (turns: seq<Turn>) {
    TurnsFrom(messages, 0)
  }

  /** The turns tile the interval `from..n`. */
  ghost predicate Tiles(turns: seq<Turn>, from: nat, n: nat) {
    if turns == [] then from == n
    else turns[0].start == from < turns[0].end <= n && Tiles(turns[1..], turns[0].end, n)
  }

  /** The look-ahead loop: absorbs messages as long as they answer something pending. */
  method LookAhead(messages: seq<Message>, start: nat, ids: set<string>) returns (j: nat)
    requires start <= |messages|
    ensures j == RunEnd(AnswersOf(messages), start, ids)
  {
    ghost var answers := AnswersOf(messages);
    j := start;
    var pending := ids;
    while j < |messages| && pending != {}
      invariant start <= j <= |messages|
      invariant RunEnd(answers, j, pending) == RunEnd(answers, start, ids)
      decreases |messages| - j
    {
      var resultIds := Ids(ResultIds(messages[j]));
      if resultIds * pending == {} {
        break;
      }
      pending := pending - resultIds;
      j := j + 1;
    }
  }

  /** The turns before position `i` are collected. */
  ghost predicate Collected(messages: seq<Message>, turns: seq<Turn>, i: nat)
    requires i <= |messages|
  {
    turns + TurnsFrom(messages, i) == AllTurns(messages)
  }

  lemma {:induction false} NextCollected(messages: seq<Message>, turns: seq<Turn>, i: nat)
    requires i < |messages| && Collected(messages, turns, i)
    ensures Collected(messages, turns + [Turn(i, TurnEnd(messages, i))], TurnEnd(messages, i))
  {
    var next := TurnEnd(messages, i);
    assert turns + ([Turn(i, next)] + TurnsFrom(messages, next)) ==
           (turns + [Turn(i, next)]) + TurnsFrom(messages, next);
  }

  lemma {:induction false} AllCollected(messages: seq<Message>, turns: seq<Turn>, i: nat)
    requires i == |messages| && Collected(messages, turns, i)
    ensures turns == AllTurns(messages)
  {
  }

  lemma {:induction false} NothingCollected(messages: seq<Message>)
    ensures Collected(messages, [], 0)
  {
  }

  lemma NoUsesEndTurn(messages: seq<Message>, i: nat)
    requires i < |messages| && UseIds(messages[i]) == []
    ensures TurnEnd(messages, i) == i + 1
  {
    assert Ids([]) == {};
  }

  /** The walk over the history. */
  method GroupIntoTurns(messages: seq<Message>) returns (turns: seq<Turn>)
    ensures turns == AllTurns(messages)
    ensures Tiles(turns, 0, |messages|)
  {
    turns := [];
    var i := 0;
    NothingCollected(messages);
    while i < |messages|
      invariant i <= |messages| && Collected(messages, turns, i)
    {
      var useIds := UseIds(messages[i]);
      NextCollected(messages, turns, i);
      var j := i + 1;
      if useIds != [] {
        j := LookAhead(messages, i + 1, Ids(useIds));
      } else {
        NoUsesEndTurn(messages, i);
      }
      turns := turns + [Turn(i, j)];
      i := j;
    }
    AllCollected(messages, turns, i);
    TurnsTile(messages, 0);
  }

  lemma {:induction false} TurnsTile(messages: seq<Message>, i: nat)
    requires i <= |messages|
    ensures Tiles(TurnsFrom(messages, i), i, |messages|)
    decreases |messages| - i
  {
    if i < |messages| {
      TurnsTile(messages, TurnEnd(messages, i));
    }
  }

  /** In a tiling every position is in exactly one turn, and turns come in order. */
  lemma {:induction false} TilingMeaning(turns: seq<Turn>, from: nat, n: nat)
    requires Tiles(turns, from, n)
    ensures from <= n
    ensures forall t :: 0 <= t < |turns| ==> from <= turns[t].start < turns[t].end <= n
    ensures forall t, u :: 0 <= t < u < |turns| ==> turns[t].end <= turns[u].start
    ensures forall i: nat {:trigger TurnOf(turns, i)} :: from <= i < n ==>
              var t := TurnOf(turns, i); t < |turns| && turns[t].start <= i < turns[t].end
  {
    if turns != [] {
      TilingMeaning(turns[1..], turns[0].end, n);
      forall i: nat | from <= i < n
        ensures var t := TurnOf(turns, i); t < |turns| && turns[t].start <= i < turns[t].end
      {
        if i >= turns[0].end {
          assert TurnOf(turns[1..], i) < |turns[1..]|;
        }
      }
    }
  }

  /** Each turn ends where the next one starts. */
  lemma {:induction false} TurnsAreAdjacent(turns: seq<Turn>, from: nat, n: nat, k: nat)
    requires Tiles(turns, from, n) && 0 < k <= |turns|
    ensures turns[k - 1].end == if k < |turns| then turns[k].start else n
  {
    if k > 1 {
      TurnsAreAdjacent(turns[1..], turns[0].end, n, k - 1);
    }
  }

  /** The first turn that reaches beyond position `i`. */
  function TurnOf(turns: seq<Turn>, i: nat): (t: nat)
    ensures t <= |turns|
  {
    if turns == [] then 0 else if i < turns[0].end then 0 else 1 + TurnOf(turns[1..], i)
  }

  // ---------------------------------------------------------------------
  // Tool uses and their results stay together
  // ---------------------------------------------------------------------

  ghost predicate Uses(messages: seq<Message>, k: nat, id: string) {
    k < |messages| && id in UseIds(messages[k])
  }

  ghost predicate Answers(messages: seq<Message>, k: nat, id: string) {
    k < |messages| && id in ResultIds(messages[k])
  }

  /** Message `u` uses a tool and message `r` answers it with result `id`. */
  ghost predicate Pair(messages: seq<Message>, u: nat, r: nat, id: string) {
    Uses(messages, u, id) && Answers(messages, r, id)
  }

  ghost predicate UsedOnce(messages: seq<Message>) {
    forall u: nat, v: nat, id :: Uses(messages, u, id) && Uses(messages, v, id) ==> u == v
  }

  /** No earlier message answers `id`. */
  ghost predicate AnsweredFirst(messages: seq<Message>, r: nat, id: string) {
    forall q: nat :: q < r ==> !Answers(messages, q, id)
  }

  ghost predicate AnsweredOnce(messages: seq<Message>) {
    forall r: nat, id :: Answers(messages, r, id) ==> AnsweredFirst(messages, r, id)
  }

  ghost predicate Unmixed(messages: seq<Message>) {
    forall k: nat :: k < |messages| ==> !Mixed(messages[k])
  }

  ghost predicate AnswersSome(messages: seq<Message>, u: nat, k: nat) {
    exists id :: Pair(messages, u, k, id)
  }

  /** From `u` up to `r`, every message answers some use of `u`. */
  ghost predicate RunOfAnswers(messages: seq<Message>, u: nat, r: nat) {
    u < r && forall k: nat :: u < k <= r ==> AnswersSome(messages, u, k)
  }

  /** Messages with results use no tools, no id is used or answered twice, and every result is in the
      contiguous run of answers after its use. */
  ghost predicate WellPaired(messages: seq<Message>) {
    && Unmixed(messages) && UsedOnce(messages) && AnsweredOnce(messages)
    && (forall u: nat, r: nat, id :: Pair(messages, u, r, id) ==> RunOfAnswers(messages, u, r))
  }

  /** What is left of `pending` after the answers in `from .. j`. */
  ghost function Left(answers: seq<set<string>>, pending: set<string>, from: nat, j: nat): (left: set<string>)
    requires from <= j <= |answers|
  {
    if j == from then pending else Left(answers, pending, from, j - 1) - answers[j - 1]
  }

  lemma {:induction false} UnansweredIsLeft(answers: seq<set<string>>, pending: set<string>, from: nat, j: nat,
                                            id: string)
    requires from <= j <= |answers| && id in pending && forall n :: from <= n < j ==> id !in answers[n]
    ensures id in Left(answers, pending, from, j)
  {
    if j > from {
      UnansweredIsLeft(answers, pending, from, j - 1, id);
    }
  }

  lemma {:induction false} LeftMeaning(answers: seq<set<string>>, pending: set<string>, from: nat, j: nat, id: string)
    requires from <= j <= |answers|
    ensures id in Left(answers, pending, from, j) <==> id in pending && forall n :: from <= n < j ==> id !in answers[n]
  {
    if j > from {
      LeftMeaning(answers, pending, from, j - 1, id);
    }
  }

  /** Position `j` answers something that is left. */
  ghost predicate AnswersLeft(answers: seq<set<string>>, pending: set<string>, from: nat, j: nat) {
    from <= j < |answers| && answers[j] * Left(answers, pending, from, j) != {}
  }

  /** The look-ahead gets from position `j` past `r`. */
  ghost predicate GetsPast(answers: seq<set<string>>, pending: set<string>, from: nat, j: nat, r: nat) {
    from <= j <= |answers| && RunEnd(answers, j, Left(answers, pending, from, j)) > r
  }

  lemma {:induction false} GetsPastHere(answers: seq<set<string>>, pending: set<string>, from: nat, r: nat)
    requires AnswersLeft(answers, pending, from, r)
    ensures GetsPast(answers, pending, from, r, r)
  {
  }

  lemma {:induction false} GetsPastLater(answers: seq<set<string>>, pending: set<string>, from: nat, j: nat, r: nat)
    requires AnswersLeft(answers, pending, from, j) && GetsPast(answers, pending, from, j + 1, r)
    ensures GetsPast(answers, pending, from, j, r)
  {
  }

  /** The look-ahead gets past a run of answers. */
  lemma {:induction false} RunIsPassed(answers: seq<set<string>>, pending: set<string>, from: nat, r: nat)
    requires from <= r && forall j: nat :: from <= j <= r ==> AnswersLeft(answers, pending, from, j)
    ensures RunEnd(answers, from, pending) > r
  {
    GetsPastHere(answers, pending, from, r);
    for j := r downto from
      invariant GetsPast(answers, pending, from, j, r)
    {
      GetsPastLater(answers, pending, from, j, r);
    }
  }

  lemma UnansweredIsAnswered(answers: seq<set<string>>, pending: set<string>, from: nat, j: nat, id: string)
    requires from <= j < |answers| && id in pending && id in answers[j]
    requires forall n :: from <= n < j ==> id !in answers[n]
    ensures AnswersLeft(answers, pending, from, j)
  {
    UnansweredIsLeft(answers, pending, from, j, id);
    assert id in answers[j] * Left(answers, pending, from, j);
  }

  lemma NotAnsweredBefore(messages: seq<Message>, j: nat, id: string)
    requires AnsweredFirst(messages, j, id) && j < |messages|
    ensures forall n :: 0 <= n < j ==> id !in AnswersOf(messages)[n]
  {
    forall n: nat | n < j ensures id !in AnswersOf(messages)[n] {
      assert !Answers(messages, n, id);
    }
  }

  lemma PairIsLeft(messages: seq<Message>, u: nat, j: nat, id: string)
    requires Pair(messages, u, j, id) && AnsweredFirst(messages, j, id) && u < j
    ensures AnswersLeft(AnswersOf(messages), Ids(UseIds(messages[u])), u + 1, j)
  {
    NotAnsweredBefore(messages, j, id);
    UnansweredIsAnswered(AnswersOf(messages), Ids(UseIds(messages[u])), u + 1, j, id);
  }

  lemma AnswerIsLeft(messages: seq<Message>, u: nat, j: nat)
    requires AnsweredOnce(messages) && AnswersSome(messages, u, j) && u < j
    ensures AnswersLeft(AnswersOf(messages), Ids(UseIds(messages[u])), u + 1, j)
  {
    var id :| Pair(messages, u, j, id);
    assert Answers(messages, j, id);
    PairIsLeft(messages, u, j, id);
  }

  /** The look-ahead from `u` gets past its last answer. */
  lemma RunCoversAnswers(messages: seq<Message>, u: nat, r: nat)
    requires AnsweredOnce(messages) && RunOfAnswers(messages, u, r) && r < |messages|
    ensures r < TurnEnd(messages, u)
  {
    var answers, pending, from := AnswersOf(messages), Ids(UseIds(messages[u])), u + 1;
    forall j: nat | from <= j <= r ensures AnswersLeft(answers, pending, from, j) {
      assert AnswersSome(messages, u, j);
      AnswerIsLeft(messages, u, j);
    }
    RunIsPassed(answers, pending, from, r);
  }

  /** `turns` has a turn that starts at `u` and reaches beyond `r`. */
  ghost predicate Holds(turns: seq<Turn>, u: nat, r: nat) {
    exists t :: 0 <= t < |turns| && turns[t].start == u && r < turns[t].end
  }

  lemma {:induction false} RunStopsAtEmpty(answers: seq<set<string>>, j: nat, pending: set<string>, u: nat)
    requires j <= u < |answers| && answers[u] == {}
    ensures RunEnd(answers, j, pending) <= u
    decreases u - j
  {
    if j < u {
      RunStopsAtEmpty(answers, j + 1, pending - answers[j], u);
    }
  }

  lemma NotAbsorbed(messages: seq<Message>, i: nat, u: nat)
    requires i < u < |messages| && ResultIds(messages[u]) == []
    ensures TurnEnd(messages, i) <= u
  {
    assert AnswersOf(messages)[u] == {};
    RunStopsAtEmpty(AnswersOf(messages), i + 1, Ids(UseIds(messages[i])), u);
  }

  /** A message without results is never absorbed, so it starts its own turn, as far as its run reaches. */
  lemma {:induction false} StartsItsTurn(messages: seq<Message>, i: nat, u: nat, r: nat)
    requires i <= u < |messages| && ResultIds(messages[u]) == [] && r < TurnEnd(messages, u)
    ensures Holds(TurnsFrom(messages, i), u, r)
    decreases |messages| - i
  {
    var end, turns := TurnEnd(messages, i), TurnsFrom(messages, i);
    if i == u {
      assert turns[0] == Turn(i, end);
    } else {
      NotAbsorbed(messages, i, u);
      StartsItsTurn(messages, end, u, r);
      HeldLater(turns[0], TurnsFrom(messages, end), u, r);
    }
  }

  /** The turn that a tool use starts holds all its results. */
  lemma {:induction false} PairInOneTurn(messages: seq<Message>, u: nat, r: nat, id: string)
    requires WellPaired(messages) && Pair(messages, u, r, id)
    ensures Holds(AllTurns(messages), u, r)
  {
    assert RunOfAnswers(messages, u, r) && !Mixed(messages[u]);
    assert Answers(messages, r, id);
    RunCoversAnswers(messages, u, r);
    StartsItsTurn(messages, 0, u, r);
  }

  lemma HeldLater(turn: Turn, turns: seq<Turn>, u: nat, r: nat)
    requires Holds(turns, u, r)
    ensures Holds([turn] + turns, u, r)
  {
    var t :| 0 <= t < |turns| && turns[t].start == u && r < turns[t].end;
    assert ([turn] + turns)[t + 1] == turns[t];
  }

  /** Only messages that answer something pending are absorbed. */
  lemma {:induction false} RunMembersAnswer(answers: seq<set<string>>, j: nat, pending: set<string>)
    requires j <= |answers|
    ensures forall k :: j <= k < RunEnd(answers, j, pending) ==> answers[k] * pending != {}
    decreases |answers| - j
  {
    if j < |answers| && pending != {} && answers[j] * pending != {} {
      RunMembersAnswer(answers, j + 1, pending - answers[j]);
    }
  }

  /** The run ends at the first position that answers nothing that is left. */
  lemma {:induction false} RunIsExact(answers: seq<set<string>>, pending: set<string>, from: nat, j: nat)
    requires from <= j <= |answers|
    ensures var end := RunEnd(answers, j, Left(answers, pending, from, j));
            && (forall k :: j <= k < end ==> AnswersLeft(answers, pending, from, k))
            && !AnswersLeft(answers, pending, from, end)
    decreases |answers| - j
  {
    if AnswersLeft(answers, pending, from, j) {
      RunIsExact(answers, pending, from, j + 1);
    }
  }

  /** Message `j` answers a tool use of message `i` that nothing in between answers. */
  ghost predicate AnswersOpenUse(messages: seq<Message>, i: nat, j: nat) {
    exists id :: Pair(messages, i, j, id) && forall k: nat :: i < k < j ==> !Answers(messages, k, id)
  }

  lemma LeftIsOpen(messages: seq<Message>, i: nat, j: nat)
    requires i < j < |messages| && AnswersLeft(AnswersOf(messages), Ids(UseIds(messages[i])), i + 1, j)
    ensures AnswersOpenUse(messages, i, j)
  {
    var answers, pending := AnswersOf(messages), Ids(UseIds(messages[i]));
    var id :| id in answers[j] * Left(answers, pending, i + 1, j);
    LeftMeaning(answers, pending, i + 1, j, id);
    assert Pair(messages, i, j, id);
    forall k: nat | i < k < j ensures !Answers(messages, k, id) {
      assert id !in answers[k];
    }
  }

  lemma OpenIsLeft(messages: seq<Message>, i: nat, j: nat)
    requires i < j < |messages| && AnswersOpenUse(messages, i, j)
    ensures AnswersLeft(AnswersOf(messages), Ids(UseIds(messages[i])), i + 1, j)
  {
    var answers, pending := AnswersOf(messages), Ids(UseIds(messages[i]));
    var id :| Pair(messages, i, j, id) && forall k: nat :: i < k < j ==> !Answers(messages, k, id);
    forall n | i + 1 <= n < j ensures id !in answers[n] {
      assert !Answers(messages, n, id);
    }
    UnansweredIsAnswered(answers, pending, i + 1, j, id);
  }

  lemma AnswersLeftMeaning(messages: seq<Message>, i: nat, j: nat)
    requires i < j
    ensures i < |messages| ==>
              (AnswersLeft(AnswersOf(messages), Ids(UseIds(messages[i])), i + 1, j) <==> AnswersOpenUse(messages, i, j))
  {
    if j < |messages| {
      if AnswersLeft(AnswersOf(messages), Ids(UseIds(messages[i])), i + 1, j) {
        LeftIsOpen(messages, i, j);
      }
      if AnswersOpenUse(messages, i, j) {
        OpenIsLeft(messages, i, j);
      }
    }
  }

  /** A turn ends exactly at the first message that answers no open tool use of its first one. */
  lemma {:induction false} TurnEndsAtFirstOther(messages: seq<Message>, i: nat)
    requires i < |messages|
    ensures forall j: nat :: i < j < TurnEnd(messages, i) ==> AnswersOpenUse(messages, i, j)
    ensures !AnswersOpenUse(messages, i, TurnEnd(messages, i))
  {
    RunIsExact(AnswersOf(messages), Ids(UseIds(messages[i])), i + 1, i + 1);
    forall j: nat | i < j <= TurnEnd(messages, i)
      ensures AnswersLeft(AnswersOf(messages), Ids(UseIds(messages[i])), i + 1, j) <==> AnswersOpenUse(messages, i, j)
    {
      AnswersLeftMeaning(messages, i, j);
    }
  }

  lemma AnswersUse(messages: seq<Message>, i: nat, k: nat)
    requires i < |messages| && k < |messages| && AnswersOf(messages)[k] * Ids(UseIds(messages[i])) != {}
    ensures AnswersSome(messages, i, k)
  {
    var id :| id in AnswersOf(messages)[k] * Ids(UseIds(messages[i]));
    assert Pair(messages, i, k, id);
  }

  lemma {:induction false} TurnMembersAnswer(messages: seq<Message>, i: nat)
    requires i < |messages|
    ensures forall k: nat :: i < k < TurnEnd(messages, i) ==> AnswersSome(messages, i, k)
  {
    RunMembersAnswer(AnswersOf(messages), i + 1, Ids(UseIds(messages[i])));
    forall k: nat | i < k < TurnEnd(messages, i) ensures AnswersSome(messages, i, k) {
      AnswersUse(messages, i, k);
    }
  }

  /** The turn ends where the look-ahead from its start does. */
  ghost predicate IsRun(messages: seq<Message>, turn: Turn) {
    turn.start < |messages| && turn.end == TurnEnd(messages, turn.start)
  }

  lemma {:induction false} TurnsAreRuns(messages: seq<Message>, i: nat, t: nat)
    requires i <= |messages| && t < |TurnsFrom(messages, i)|
    ensures IsRun(messages, TurnsFrom(messages, i)[t])
    decreases t
  {
    if t > 0 {
      TurnsAreRuns(messages, TurnEnd(messages, i), t - 1);
    }
  }

  /** A turn holds nothing but its first message and messages that answer a tool use of it. */
  lemma {:induction false} TurnIsUseWithAnswers(messages: seq<Message>, turn: Turn)
    requires turn in AllTurns(messages)
    ensures forall k: nat :: turn.start < k < turn.end ==> AnswersSome(messages, turn.start, k)
  {
    var t :| 0 <= t < |AllTurns(messages)| && AllTurns(messages)[t] == turn;
    TurnsAreRuns(messages, 0, t);
    TurnMembersAnswer(messages, turn.start);
  }
}
