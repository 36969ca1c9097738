/** λ-Memory: the token budget, packing memories into it, and stripping memory blocks from replies. */
module LambdaMemory {
  import opened Wrappers
  import opened Strings
  import opened Messages

  const MIN_ENTRY_TOKENS: nat := 15
  const GONE_THRESHOLD: real := 0.01

  datatype Thresholds = Thresholds(hot: real, warm: real, cool: real)

  /** A memory with its four formatted representations. */
  datatype Entry = Entry(explicitSave: bool, hot: string, warm: string, cool: string, faded: string)

  /** A candidate with its final score (decay plus relevance boost). */
  datatype Scored = Scored(score: real, entry: Entry)

  // ---------------------------------------------------------------------
  // Budgets
  // ---------------------------------------------------------------------

  function SaturatingSub(a: nat, b: nat): nat {
    if a <= b then 0 else a - b
  }

  function Occupied(skull: nat, maxOutput: nat, bone: nat, active: nat): nat {
    bone + active + (if maxOutput <= skull / 10 then maxOutput else skull / 10) + skull / 50
  }

  function LambdaBudget(skull: nat, maxOutput: nat, bone: nat, active: nat): nat {
    SaturatingSub(skull, Occupied(skull, maxOutput, bone, active))
  }

  /** Everything in front of the λ section and its budget fit the skull exactly when the former does. */
  lemma BudgetFitsSkull(skull: nat, maxOutput: nat, bone: nat, active: nat)
    ensures Occupied(skull, maxOutput, bone, active) + LambdaBudget(skull, maxOutput, bone, active) <= skull
            <==> Occupied(skull, maxOutput, bone, active) <= skull
    ensures Occupied(skull, maxOutput, bone, active) <= skull ==>
              Occupied(skull, maxOutput, bone, active) + LambdaBudget(skull, maxOutput, bone, active) == skull
  {
  }

  function EffectiveThresholds(budget: nat, maxBudget: nat, base: Thresholds): Thresholds {
    var ratio := budget as real / (if maxBudget == 0 then 1 else maxBudget) as real;
    var pressure := 1.0 - (if ratio <= 1.0 then ratio else 1.0);
    Thresholds(base.hot + pressure * 2.0, base.warm + pressure, base.cool + pressure * 0.5)
  }

  // ---------------------------------------------------------------------
  // The best representation that fits
  // ---------------------------------------------------------------------

  function BestRepresentation(e: Entry, remaining: nat, score: real, th: Thresholds): (text: string) {
    if score > th.hot && EstimateTokens(e.hot) <= remaining then e.hot
    else if score > th.warm && EstimateTokens(e.warm) <= remaining then e.warm
    else if score > th.cool && EstimateTokens(e.cool) <= remaining then e.cool
    else if score > GONE_THRESHOLD && EstimateTokens(e.faded) <= remaining then e.faded
    else ""
  }

  /** The representations from the least to the most, and the score each needs. */
  function TierText(e: Entry, tier: nat): string
    requires 1 <= tier <= 4
  {
    if tier == 4 then e.hot else if tier == 3 then e.warm else if tier == 2 then e.cool else e.faded
  }

  function TierThreshold(th: Thresholds, tier: nat): real
    requires 1 <= tier <= 4
  {
    if tier == 4 then th.hot else if tier == 3 then th.warm else if tier == 2 then th.cool else 0.01
  }

  /** The score entitles to the tier, and its text fits. */
  predicate TierFits(e: Entry, remaining: nat, score: real, th: Thresholds, tier: nat)
    requires 1 <= tier <= 4
  {
    score > TierThreshold(th, tier) && EstimateTokens(TierText(e, tier)) <= remaining
  }

  /** The chosen representation is the highest tier that fits; there is none exactly if no tier fits. */
  lemma RepresentationIsBest(e: Entry, remaining: nat, score: real, th: Thresholds)
    ensures var text := BestRepresentation(e, remaining, score, th);
            || (text == "" && forall tier :: 1 <= tier <= 4 ==> !TierFits(e, remaining, score, th, tier))
            || (exists tier :: 1 <= tier <= 4 && TierFits(e, remaining, score, th, tier) && text == TierText(e, tier)
                               && forall other :: tier < other <= 4 ==> !TierFits(e, remaining, score, th, other))
  {
    var fits := tier requires 1 <= tier <= 4 => TierFits(e, remaining, score, th, tier);
    if fits(4) {
    } else if fits(3) {
    } else if fits(2) {
    } else if fits(1) {
    }
  }

  /** How much a representation shows: 4 for hot down to 0 for nothing. */
  function Fidelity(score: real, th: Thresholds): nat {
    if score > th.hot then 4 else if score > th.warm then 3 else if score > th.cool then 2
    else if score > GONE_THRESHOLD then 1 else 0
  }

  /** With room for it, that is the text that is chosen. */
  lemma FidelityIsShown(e: Entry, remaining: nat, score: real, th: Thresholds)
    requires forall tier :: 1 <= tier <= 4 ==> EstimateTokens(TierText(e, tier)) <= remaining
    ensures var tier := Fidelity(score, th);
            BestRepresentation(e, remaining, score, th) == if tier == 0 then "" else TierText(e, tier)
  {
    assert EstimateTokens(TierText(e, 4)) <= remaining && EstimateTokens(TierText(e, 3)) <= remaining;
    assert EstimateTokens(TierText(e, 2)) <= remaining && EstimateTokens(TierText(e, 1)) <= remaining;
  }

  /** Less budget never raises the tier a memory is entitled to. */
  lemma PressureLowersFidelity(score: real, low: nat, high: nat, maxBudget: nat, base: Thresholds)
    requires low <= high && base.hot >= base.warm >= base.cool >= GONE_THRESHOLD
    ensures Fidelity(score, EffectiveThresholds(low, maxBudget, base)) <=
            Fidelity(score, EffectiveThresholds(high, maxBudget, base))
  {
    var m := (if maxBudget == 0 then 1 else maxBudget) as real;
    var l, h := low as real, high as real;
    assert l / m <= h / m by {
      DivMonotone(l, h, m);
    }
  }

  /** How far the thresholds rise: not at all with the whole budget, and with nothing by 2 for hot, 1 for warm and a
      half for cool; in between by the share of the budget that is missing. */
  lemma ThresholdsRise(budget: nat, maxBudget: nat, base: Thresholds)
    ensures var th, whole := EffectiveThresholds(budget, maxBudget, base), if maxBudget == 0 then 1 else maxBudget;
            && (th.warm - base.warm) * whole as real == (if budget <= whole then whole - budget else 0) as real
            && th.hot - base.hot == 2.0 * (th.warm - base.warm)
            && th.cool - base.cool == 0.5 * (th.warm - base.warm)
  {
    var whole := (if maxBudget == 0 then 1 else maxBudget) as real;
    var ratio := budget as real / whole;
    assert ratio * whole == budget as real;
    if budget as real <= whole {
      DivMonotone(budget as real, whole, whole);
      assert (1.0 - ratio) * whole == whole - budget as real;
    } else {
      assert (ratio - 1.0) * whole > 0.0;
    }
  }

  lemma DivMonotone(a: real, b: real, m: real)
    requires a <= b && m > 0.0
    ensures a / m <= b / m
  {
    assert b / m - a / m == (b - a) / m;
  }

  // ---------------------------------------------------------------------
  // Packing
  // ---------------------------------------------------------------------

  /** A rule of `n` box-drawing characters. */
  function Rule(n: nat): string {
    if n == 0 then "" else "\U{2550}" + Rule(n - 1)
  }

  const HEADER: string := Rule(3) + " \U{03BB}" + "-Memory " + Rule(3) + "\n\n"
  const FOOTER: string := "\n" + Rule(15) + "\n"

  /** A packed memory: its place among the candidates, its text and its cost. */
  datatype Pick = Pick(index: nat, text: string)

  /** One pass over the candidates with (or without) an explicit save. */
  function Pass(scored: seq<Scored>, th: Thresholds, explicitSave: bool, i: nat, remaining: nat): (picks: seq<Pick>)
    requires i <= |scored|
    decreases |scored| - i
  {
    if i == |scored| then []
    else if scored[i].entry.explicitSave != explicitSave then Pass(scored, th, explicitSave, i + 1, remaining)
    else if remaining < MIN_ENTRY_TOKENS then []
    else
      var text := BestRepresentation(scored[i].entry, remaining, scored[i].score, th);
      var cost := EstimateTokens(text);
      if cost == 0 || cost > remaining then Pass(scored, th, explicitSave, i + 1, remaining)
      else [Pick(i, text)] + Pass(scored, th, explicitSave, i + 1, remaining - cost)
  }

  function Cost(picks: seq<Pick>): nat {
    if picks == [] then 0 else EstimateTokens(picks[0].text) + Cost(picks[1..])
  }

  function Concat(picks: seq<Pick>): string {
    if picks == [] then "" else picks[0].text + Concat(picks[1..])
  }

  /** Explicit saves first, then the others with what is left. */
  function Packing(scored: seq<Scored>, th: Thresholds, remaining: nat): (picks: seq<Pick>) {
    var explicits := Pass(scored, th, true, 0, remaining);
    explicits + Pass(scored, th, false, 0, SaturatingSub(remaining, Cost(explicits)))
  }

  /** The result of the packing; nothing when no memory was packed. */
  function Render(picks: seq<Pick>): string {
    if picks == [] then "" else HEADER + Concat(picks) + FOOTER
  }

  function PackBudget(budget: nat): nat {
    SaturatingSub(budget, EstimateTokens(HEADER) + EstimateTokens(FOOTER))
  }

  function Sections(scored: seq<Scored>, th: Thresholds, budget: nat, enabled: bool): (picks: seq<Pick>) {
    if budget < MIN_ENTRY_TOKENS || !enabled || scored == [] then [] else Packing(scored, th, PackBudget(budget))
  }

  lemma RepresentationFits(e: Entry, remaining: nat, score: real, th: Thresholds)
    ensures EstimateTokens(BestRepresentation(e, remaining, score, th)) <= remaining
  {
  }

  lemma {:induction false} CostConcat(a: seq<Pick>, b: seq<Pick>)
    ensures Cost(a + b) == Cost(a) + Cost(b)
  {
    if a == [] {
      assert a + b == b;
    } else {
      CostConcat(a[1..], b);
      assert (a + b)[0] == a[0] && (a + b)[1..] == a[1..] + b;
    }
  }

  lemma {:induction false} ConcatCons(pick: Pick, picks: seq<Pick>)
    ensures Concat([pick] + picks) == pick.text + Concat(picks)
  {
    assert ([pick] + picks)[1..] == picks;
  }

  lemma {:induction false} TextsConcat(a: seq<Pick>, b: seq<Pick>)
    ensures Concat(a + b) == Concat(a) + Concat(b)
  {
    if a == [] {
      assert a + b == b;
    } else {
      TextsConcat(a[1..], b);
      assert a + b == [a[0]] + (a[1..] + b);
      ConcatCons(a[0], a[1..] + b);
      Regrouped(a[0].text, Concat(a[1..]), Concat(b));
    }
  }

  /** One pass over the candidates; `remaining` never underflows. */
  method PackPass(scored: seq<Scored>, th: Thresholds, explicitSave: bool, budget: nat, prefix: string)
    returns (output: string, remaining: nat, packed: nat)
    ensures var picks := Pass(scored, th, explicitSave, 0, budget);
            && output == prefix + Concat(picks)
            && remaining + Cost(picks) == budget
            && packed == |picks|
  {
    output, remaining, packed := prefix, budget, 0;
    ghost var picks: seq<Pick> := [];
    for i := 0 to |scored|
      invariant picks + Pass(scored, th, explicitSave, i, remaining) == Pass(scored, th, explicitSave, 0, budget)
      invariant output == prefix + Concat(picks) && remaining + Cost(picks) == budget && packed == |picks|
    {
      if scored[i].entry.explicitSave != explicitSave {
        continue;
      }
      if remaining < MIN_ENTRY_TOKENS {
        assert picks + [] == picks;
        return;
      }
      var text := BestRepresentation(scored[i].entry, remaining, scored[i].score, th);
      var cost := EstimateTokens(text);
      RepresentationFits(scored[i].entry, remaining, scored[i].score, th);
      if cost == 0 {
        continue;
      }
      ghost var rest := Pass(scored, th, explicitSave, i + 1, remaining - cost);
      assert picks + ([Pick(i, text)] + rest) == (picks + [Pick(i, text)]) + rest;
      CostConcat(picks, [Pick(i, text)]);
      TextsConcat(picks, [Pick(i, text)]);
      assert prefix + (Concat(picks) + text) == prefix + Concat(picks) + text;
      picks := picks + [Pick(i, text)];
      output := output + text;
      remaining := remaining - cost;
      packed := packed + 1;
    }
    assert picks + [] == picks;
  }

  lemma {:induction false} RenderPacking(scored: seq<Scored>, th: Thresholds, budget: nat)
    ensures var explicits := Pass(scored, th, true, 0, budget);
            var others := Pass(scored, th, false, 0, SaturatingSub(budget, Cost(explicits)));
            Render(Packing(scored, th, budget)) ==
            if |explicits| + |others| == 0 then "" else HEADER + Concat(explicits) + Concat(others) + FOOTER
  {
    var explicits := Pass(scored, th, true, 0, budget);
    var others := Pass(scored, th, false, 0, SaturatingSub(budget, Cost(explicits)));
    TextsConcat(explicits, others);
    assert HEADER + Concat(explicits) + Concat(others) == HEADER + (Concat(explicits) + Concat(others));
  }

  ghost predicate Descending(scored: seq<Scored>) {
    forall j, k :: 0 <= j < k < |scored| ==> scored[j].score >= scored[k].score
  }

  /** Where a candidate goes: behind all that score at least as much. */
  method RankOf(scored: seq<Scored>, c: Scored) returns (k: nat)
    requires Descending(scored)
    ensures k <= |scored| && Descending(scored[..k] + [c] + scored[k..])
    ensures forall j :: k <= j < |scored| ==> scored[j].score < c.score
  {
    k := 0;
    while k < |scored| && scored[k].score >= c.score
      invariant k <= |scored|
      invariant forall j :: 0 <= j < k ==> scored[j].score >= c.score
    {
      k := k + 1;
    }
  }

  lemma InsertedOnce<T>(s: seq<T>, k: nat, x: T)
    requires k <= |s|
    ensures multiset(s[..k] + [x] + s[k..]) == multiset(s) + multiset{x}
  {
    assert s == s[..k] + s[k..];
  }

  /** The candidates with this score, in order. */
  ghost function WithScore(scored: seq<Scored>, score: real): (same: seq<Scored>) {
    if scored == [] then []
    else (if scored[0].score == score then [scored[0]] else []) + WithScore(scored[1..], score)
  }

  /** Equal scores keep their order. */
  ghost predicate StablyOrdered(scored: seq<Scored>, candidates: seq<Scored>) {
    forall score :: WithScore(scored, score) == WithScore(candidates, score)
  }

  lemma {:induction false} WithScoreCons(c: Scored, scored: seq<Scored>, score: real)
    ensures WithScore([c] + scored, score) == (if c.score == score then [c] else []) + WithScore(scored, score)
  {
    assert ([c] + scored)[1..] == scored;
  }

  lemma {:induction false} WithScoreConcat(a: seq<Scored>, b: seq<Scored>, score: real)
    ensures WithScore(a + b, score) == WithScore(a, score) + WithScore(b, score)
  {
    if a == [] {
      assert a + b == b;
    } else {
      var head := if a[0].score == score then [a[0]] else [];
      WithScoreConcat(a[1..], b, score);
      assert a + b == [a[0]] + (a[1..] + b);
      WithScoreCons(a[0], a[1..] + b, score);
      Regrouped(head, WithScore(a[1..], score), WithScore(b, score));
    }
  }

  lemma {:induction false} NoneWithScore(scored: seq<Scored>, score: real)
    requires forall j :: 0 <= j < |scored| ==> scored[j].score != score
    ensures WithScore(scored, score) == []
  {
    if scored != [] {
      NoneWithScore(scored[1..], score);
    }
  }

  lemma {:induction false} WithScoreOne(c: Scored, score: real)
    ensures WithScore([c], score) == if c.score == score then [c] else []
  {
    assert [c][1..] == [];
  }

  /** Inserting behind all equal scores appends. */
  lemma {:induction false} InsertedLast(scored: seq<Scored>, k: nat, c: Scored, score: real)
    requires k <= |scored| && forall j :: k <= j < |scored| ==> scored[j].score < c.score
    ensures WithScore(scored[..k] + [c] + scored[k..], score) == WithScore(scored + [c], score)
  {
    var front, back := scored[..k], scored[k..];
    WithScoreConcat(front + [c], back, score);
    WithScoreConcat(front, [c], score);
    WithScoreConcat(front, back, score);
    assert front + back == scored;
    WithScoreConcat(scored, [c], score);
    WithScoreOne(c, score);
    if c.score == score {
      NoneWithScore(back, score);
    }
  }

  lemma StaysStable(scored: seq<Scored>, before: seq<Scored>, k: nat, c: Scored)
    requires StablyOrdered(scored, before)
    requires k <= |scored| && forall j :: k <= j < |scored| ==> scored[j].score < c.score
    ensures StablyOrdered(scored[..k] + [c] + scored[k..], before + [c])
  {
    forall score ensures WithScore(scored[..k] + [c] + scored[k..], score) == WithScore(before + [c], score) {
      InsertedLast(scored, k, c, score);
      WithScoreConcat(scored, [c], score);
      WithScoreConcat(before, [c], score);
    }
  }

  /** The stable library sort by descending score, as an insertion sort. */
  method RankCandidates(candidates: seq<Scored>) returns (scored: seq<Scored>)
    ensures Descending(scored) && multiset(scored) == multiset(candidates)
    ensures StablyOrdered(scored, candidates)
  {
    scored := [];
    for n := 0 to |candidates|
      invariant Descending(scored) && multiset(scored) == multiset(candidates[..n])
      invariant StablyOrdered(scored, candidates[..n])
    {
      var k := RankOf(scored, candidates[n]);
      InsertedOnce(scored, k, candidates[n]);
      StaysStable(scored, candidates[..n], k, candidates[n]);
      assert candidates[..n + 1] == candidates[..n] + [candidates[n]];
      scored := scored[..k] + [candidates[n]] + scored[k..];
    }
    assert candidates[..|candidates|] == candidates;
  }

  /** Assembles the section from ranked candidates. */
  method AssembleLambdaContext(scored: seq<Scored>, th: Thresholds, budget: nat, enabled: bool)
    returns (text: string, tokens: nat)
    ensures text == Render(Sections(scored, th, budget, enabled))
    ensures tokens == EstimateTokens(text)
    ensures !enabled ==> text == "" && tokens == 0
  {
    if budget < MIN_ENTRY_TOKENS || !enabled || scored == [] {
      return "", 0;
    }
    var output, remaining, packed := PackPass(scored, th, true, PackBudget(budget), HEADER);
    var more;
    output, remaining, more := PackPass(scored, th, false, remaining, output);
    RenderPacking(scored, th, PackBudget(budget));
    if packed + more == 0 {
      return "", 0;
    }
    text := output + FOOTER;
    tokens := EstimateTokens(text);
  }

  // ---------------------------------------------------------------------
  // What a packing is
  // ---------------------------------------------------------------------

  lemma {:induction false} PassCost(scored: seq<Scored>, th: Thresholds, explicitSave: bool, i: nat, remaining: nat)
    requires i <= |scored|
    ensures Cost(Pass(scored, th, explicitSave, i, remaining)) <= remaining
    decreases |scored| - i
  {
    if i < |scored| {
      var cost := EstimateTokens(BestRepresentation(scored[i].entry, remaining, scored[i].score, th));
      PassCost(scored, th, explicitSave, i + 1, remaining);
      PassCost(scored, th, explicitSave, i + 1, SaturatingSub(remaining, cost));
    }
  }

  /** Picks of candidates from `i` on, of one kind, in order. */
  ghost predicate InOrder(scored: seq<Scored>, picks: seq<Pick>, explicitSave: bool, i: nat) {
    && (forall k :: 0 <= k < |picks| ==>
          && i <= picks[k].index < |scored|
          && scored[picks[k].index].entry.explicitSave == explicitSave
          && EstimateTokens(picks[k].text) > 0)
    && (forall j, k :: 0 <= j < k < |picks| ==> picks[j].index < picks[k].index)
  }

  lemma {:induction false} PassInOrder(scored: seq<Scored>, th: Thresholds, explicitSave: bool, i: nat, remaining: nat)
    requires i <= |scored|
    ensures InOrder(scored, Pass(scored, th, explicitSave, i, remaining), explicitSave, i)
    decreases |scored| - i
  {
    if i < |scored| {
      var cost := EstimateTokens(BestRepresentation(scored[i].entry, remaining, scored[i].score, th));
      PassInOrder(scored, th, explicitSave, i + 1, remaining);
      PassInOrder(scored, th, explicitSave, i + 1, SaturatingSub(remaining, cost));
    }
  }

  /** Each candidate at most once, every explicit save before every other memory, each kind in score order. */
  ghost predicate ExplicitFirst(scored: seq<Scored>, picks: seq<Pick>) {
    && (forall k :: 0 <= k < |picks| ==> picks[k].index < |scored| && EstimateTokens(picks[k].text) > 0)
    && (forall j, k :: 0 <= j < k < |picks| ==>
          var first, second := scored[picks[j].index].entry.explicitSave, scored[picks[k].index].entry.explicitSave;
          && picks[j].index != picks[k].index
          && (second ==> first)
          && (first == second ==> picks[j].index < picks[k].index))
  }

  /** Each candidate is packed at most once, every explicit save precedes every other memory, each kind is
      packed in score order, and the texts fit what the budget leaves for them. */
  lemma PackingMeaning(scored: seq<Scored>, th: Thresholds, remaining: nat)
    ensures var picks := Packing(scored, th, remaining);
            && Cost(picks) <= remaining
            && ExplicitFirst(scored, picks)
  {
    var explicits := Pass(scored, th, true, 0, remaining);
    PassCost(scored, th, true, 0, remaining);
    var left := remaining - Cost(explicits);
    PassCost(scored, th, false, 0, left);
    CostConcat(explicits, Pass(scored, th, false, 0, left));
    PassInOrder(scored, th, true, 0, remaining);
    PassInOrder(scored, th, false, 0, left);
    TwoPasses(scored, explicits, Pass(scored, th, false, 0, left));
  }

  lemma TwoPasses(scored: seq<Scored>, saves: seq<Pick>, others: seq<Pick>)
    requires InOrder(scored, saves, true, 0) && InOrder(scored, others, false, 0)
    ensures ExplicitFirst(scored, saves + others)
  {
  }

  /** What cannot be added with more room cannot be added with less. */
  lemma LessRoomFitsNoMore(e: Entry, less: nat, more: nat, score: real, th: Thresholds)
    requires less <= more && EstimateTokens(BestRepresentation(e, more, score, th)) == 0
    ensures EstimateTokens(BestRepresentation(e, less, score, th)) == 0
  {
    assert EstimateTokens("") == 0;
  }

  /** A pass leaves nothing out that would still fit: for a candidate of its kind that is not packed, either too
      little is left for any memory, or none of its representations fits what is left. */
  lemma {:induction false} NothingMoreFits(scored: seq<Scored>, th: Thresholds, explicitSave: bool, i: nat,
                                           remaining: nat, c: nat)
    requires i <= c < |scored| && scored[c].entry.explicitSave == explicitSave
    requires forall pick :: pick in Pass(scored, th, explicitSave, i, remaining) ==> pick.index != c
    ensures var left := SaturatingSub(remaining, Cost(Pass(scored, th, explicitSave, i, remaining)));
            || left < MIN_ENTRY_TOKENS
            || EstimateTokens(BestRepresentation(scored[c].entry, left, scored[c].score, th)) == 0
    decreases |scored| - i
  {
    var picks := Pass(scored, th, explicitSave, i, remaining);
    var text := BestRepresentation(scored[i].entry, remaining, scored[i].score, th);
    PassCost(scored, th, explicitSave, i, remaining);
    if scored[i].entry.explicitSave != explicitSave {
      NothingMoreFits(scored, th, explicitSave, i + 1, remaining, c);
    } else if remaining >= MIN_ENTRY_TOKENS {
      RepresentationFits(scored[i].entry, remaining, scored[i].score, th);
      if EstimateTokens(text) > 0 {
        assert picks[0] == Pick(i, text);
        assert picks[1..] == Pass(scored, th, explicitSave, i + 1, remaining - EstimateTokens(text));
        NothingMoreFits(scored, th, explicitSave, i + 1, remaining - EstimateTokens(text), c);
      } else if i < c {
        NothingMoreFits(scored, th, explicitSave, i + 1, remaining, c);
      } else {
        LessRoomFitsNoMore(scored[c].entry, SaturatingSub(remaining, Cost(picks)), remaining, scored[c].score, th);
      }
    }
  }

  lemma {:induction false} BytesFromCost(picks: seq<Pick>)
    ensures 4 * Cost(picks) <= ByteLength(Concat(picks)) <= 4 * Cost(picks) + 3 * |picks|
  {
    if picks != [] {
      BytesFromCost(picks[1..]);
      ByteLengthConcat(picks[0].text, Concat(picks[1..]));
    }
  }

  lemma {:induction false} AsciiBytes(s: string)
    requires forall k :: 0 <= k < |s| ==> s[k] as int < 0x80
    ensures ByteLength(s) == |s|
  {
    if s != "" {
      AsciiBytes(s[1..]);
    }
  }

  lemma {:induction false} RuleBytes(n: nat)
    ensures ByteLength(Rule(n)) == 3 * n
  {
    if n > 0 {
      RuleBytes(n - 1);
      assert Rule(n)[1..] == Rule(n - 1);
    }
  }

  lemma {:induction false} LambdaBytes()
    ensures ByteLength(" \U{03BB}") == 3
  {
    var lambda := " \U{03BB}";
    assert lambda[1..] == [lambda[1]] && lambda[1..][1..] == "";
    assert ByteLength(lambda[1..]) == 2;
  }

  lemma {:induction false} HeaderBytes(rule: string)
    requires rule == Rule(3)
    ensures ByteLength(HEADER) == 31
  {
    var lambda := " \U{03BB}";
    RuleBytes(3);
    LambdaBytes();
    AsciiBytes("-Memory ");
    AsciiBytes("\n\n");
    ByteLengthConcat(rule, lambda);
    ByteLengthConcat(rule + lambda, "-Memory ");
    ByteLengthConcat(rule + lambda + "-Memory ", rule);
    ByteLengthConcat(rule + lambda + "-Memory " + rule, "\n\n");
  }

  lemma {:induction false} FooterBytes(rule: string)
    requires rule == Rule(15)
    ensures ByteLength(FOOTER) == 47
  {
    RuleBytes(15);
    AsciiBytes("\n");
    ByteLengthConcat("\n", rule);
    ByteLengthConcat("\n" + rule, "\n");
  }

  /** The frame costs 31 and 47 bytes: 7 and 11 tokens. */
  lemma FrameSizes()
    ensures ByteLength(HEADER) == 31 && ByteLength(FOOTER) == 47
  {
    HeaderBytes(Rule(3));
    FooterBytes(Rule(15));
  }

  /** The reported cost exceeds the budget by at most the rounding of `k` entries and the frame. */
  lemma CostWithinSlack(scored: seq<Scored>, th: Thresholds, budget: nat, enabled: bool)
    ensures var picks := Sections(scored, th, budget, enabled);
            && (picks == [] ==> EstimateTokens(Render(picks)) == 0)
            && (picks != [] ==> EstimateTokens(Render(picks)) <= budget + 3 * (|picks| + 2) / 4)
  {
    var picks := Sections(scored, th, budget, enabled);
    if picks != [] {
      FrameSizes();
      PackingMeaning(scored, th, PackBudget(budget));
      assert Cost(picks) >= 1;
      BytesFromCost(picks);
      ByteLengthConcat(HEADER, Concat(picks));
      ByteLengthConcat(HEADER + Concat(picks), FOOTER);
    }
  }

  /** The design invariant, up to that slack: all parts and the λ section fit the skull if the parts in
      front of the section do. */
  lemma SkullInvariant(scored: seq<Scored>, th: Thresholds, skull: nat, maxOutput: nat, bone: nat, active: nat,
                       budget: nat, enabled: bool)
    requires budget <= LambdaBudget(skull, maxOutput, bone, active)
    requires Occupied(skull, maxOutput, bone, active) <= skull
    ensures var picks := Sections(scored, th, budget, enabled);
            Occupied(skull, maxOutput, bone, active) + EstimateTokens(Render(picks)) <=
            skull + (if picks == [] then 0 else 3 * (|picks| + 2) / 4)
  {
    CostWithinSlack(scored, th, budget, enabled);
  }

  lemma {:induction false} FramedSize(picks: seq<Pick>)
    requires picks != []
    ensures ByteLength(Render(picks)) == 78 + ByteLength(Concat(picks))
  {
    FrameSizes();
    ByteLengthConcat(HEADER, Concat(picks));
    ByteLengthConcat(HEADER + Concat(picks), FOOTER);
  }
}
