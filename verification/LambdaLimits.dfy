/** Exactly when the documented promises of the λ-memory hold: that explicit saves are always included, and that
    the λ section never makes the request larger than the skull. */
module LambdaLimits {
  import opened Decimals
  import opened LambdaMemory
  import opened Messages

  // ---------------------------------------------------------------------
  // The formatted texts
  // ---------------------------------------------------------------------

  /** A stored memory. The creation time and the importance are given as the texts they are formatted to. */
  datatype Memory = Memory(
    explicitSave: bool, fullText: string, summaryText: string, essenceText: string,
    hash: string, created: string, importance: string, accessCount: nat)

  function ShortHash(m: Memory): string {
    if |m.hash| <= 7 then m.hash else m.hash[..7]
  }

  function FormatHot(m: Memory): string {
    "[hot] " + m.fullText + "\n      (#" + ShortHash(m) + " | " + m.created + " | importance: " + m.importance
    + (if m.accessCount > 0 then " | accessed: " + Print(m.accessCount) + "x" else "")
    + (if m.explicitSave then " | explicit save" else "")
    + ")\n\n"
  }

  function FormatWarm(m: Memory): string {
    "[warm] " + m.summaryText + "\n       (#" + ShortHash(m) + " | " + m.created + ")\n\n"
  }

  function FormatCool(m: Memory): string {
    "[cool] " + m.essenceText + " (#" + ShortHash(m) + " | " + m.created + ")\n"
  }

  function FormatFaded(m: Memory): string {
    "[faded] #" + ShortHash(m) + " | " + m.created + " | " + m.essenceText + "\n"
  }

  function Formatted(m: Memory): Entry {
    Entry(m.explicitSave, FormatHot(m), FormatWarm(m), FormatCool(m), FormatFaded(m))
  }

  ghost predicate IsFormatted(e: Entry) {
    exists m :: e == Formatted(m)
  }

  ghost predicate AllFormatted(scored: seq<Scored>) {
    forall k :: 0 <= k < |scored| ==> IsFormatted(scored[k].entry)
  }

  lemma {:induction false} BytesAtLeastChars(s: string)
    ensures ByteLength(s) >= |s|
  {
    if s != "" {
      BytesAtLeastChars(s[1..]);
    }
  }

  lemma LongEnough(s: string, n: nat)
    requires |s| >= 4 * n
    ensures EstimateTokens(s) >= n
  {
    BytesAtLeastChars(s);
  }

  /** Every text costs at least `n` tokens. */
  predicate CostsAtLeast(e: Entry, n: nat) {
    && EstimateTokens(e.hot) >= n && EstimateTokens(e.warm) >= n
    && EstimateTokens(e.cool) >= n && EstimateTokens(e.faded) >= n
  }

  predicate Costly(e: Entry) {
    CostsAtLeast(e, 1)
  }

  predicate AllCost(scored: seq<Scored>, n: nat) {
    forall k :: 0 <= k < |scored| ==> CostsAtLeast(scored[k].entry, n)
  }

  predicate AllCostly(scored: seq<Scored>) {
    AllCost(scored, 1)
  }

  /** The formatted texts do. */
  lemma FormattedIsCostly(m: Memory)
    ensures Costly(Formatted(m))
  {
    LongEnough(FormatHot(m), 1);
    LongEnough(FormatWarm(m), 1);
    LongEnough(FormatCool(m), 1);
    LongEnough(FormatFaded(m), 1);
  }

  /** As they are stored: a hash of 12 digits, of which 7 are shown, and a creation time of at least 16 characters. */
  predicate Dated(m: Memory) {
    |m.hash| >= 7 && |m.created| >= 16
  }

  ghost predicate IsDated(e: Entry) {
    exists m :: Dated(m) && e == Formatted(m)
  }

  ghost predicate AllDated(scored: seq<Scored>) {
    forall k :: 0 <= k < |scored| ==> IsDated(scored[k].entry)
  }

  const MIN_TEXT_TOKENS: nat := 9

  /** Then every text costs at least 9 tokens. */
  lemma DatedCost(m: Memory)
    requires Dated(m)
    ensures CostsAtLeast(Formatted(m), MIN_TEXT_TOKENS)
  {
    LongEnough(FormatHot(m), MIN_TEXT_TOKENS);
    LongEnough(FormatWarm(m), MIN_TEXT_TOKENS);
    LongEnough(FormatCool(m), MIN_TEXT_TOKENS);
    LongEnough(FormatFaded(m), MIN_TEXT_TOKENS);
  }

  lemma AllDatedCost(scored: seq<Scored>)
    requires AllDated(scored)
    ensures AllCost(scored, MIN_TEXT_TOKENS)
  {
    forall k | 0 <= k < |scored| ensures CostsAtLeast(scored[k].entry, MIN_TEXT_TOKENS) {
      assert IsDated(scored[k].entry);
      var m :| Dated(m) && scored[k].entry == Formatted(m);
      DatedCost(m);
    }
  }

  // ---------------------------------------------------------------------
  // Explicit saves
  // ---------------------------------------------------------------------

  lemma FrameCost(budget: nat)
    ensures PackBudget(budget) == SaturatingSub(budget, 18)
  {
    FrameSizes();
  }

  predicate Tiered(th: Thresholds) {
    th.hot >= th.warm >= th.cool >= GONE_THRESHOLD
  }

  ghost predicate Packed(picks: seq<Pick>, c: nat) {
    exists pick :: pick in picks && pick.index == c
  }

  /** What is left when the pass that starts at `i` comes to candidate `c`. */
  function RoomAt(scored: seq<Scored>, th: Thresholds, explicitSave: bool, i: nat, remaining: nat, c: nat): (room: nat)
    requires i <= c < |scored|
    decreases c - i
  {
    if i == c || remaining < MIN_ENTRY_TOKENS then remaining
    else if scored[i].entry.explicitSave != explicitSave then RoomAt(scored, th, explicitSave, i + 1, remaining, c)
    else
      var cost := EstimateTokens(BestRepresentation(scored[i].entry, remaining, scored[i].score, th));
      RoomAt(scored, th, explicitSave, i + 1, SaturatingSub(remaining, cost), c)
  }

  lemma {:induction false} TooLittleRoom(scored: seq<Scored>, th: Thresholds, explicitSave: bool, i: nat,
                                         remaining: nat)
    requires i <= |scored| && remaining < MIN_ENTRY_TOKENS
    ensures Pass(scored, th, explicitSave, i, remaining) == []
    decreases |scored| - i
  {
    if i < |scored| {
      TooLittleRoom(scored, th, explicitSave, i + 1, remaining);
    }
  }

  lemma {:induction false} LaterPicksOnly(scored: seq<Scored>, th: Thresholds, explicitSave: bool, i: nat,
                                          remaining: nat, c: nat)
    requires c < i <= |scored|
    ensures !Packed(Pass(scored, th, explicitSave, i, remaining), c)
  {
    PassInOrder(scored, th, explicitSave, i, remaining);
  }

  lemma PackedLater(pick: Pick, picks: seq<Pick>, c: nat)
    ensures Packed([pick] + picks, c) <==> pick.index == c || Packed(picks, c)
  {
    assert pick in [pick] + picks;
    forall other | other in picks ensures other in [pick] + picks {
    }
  }

  /** For every list, budget and candidate: it is packed exactly if, when its turn comes, there is the minimal room
      for a memory and one of the representations it is entitled to fits. */
  lemma {:induction false} PackedIff(scored: seq<Scored>, th: Thresholds, explicitSave: bool, i: nat,
                                     remaining: nat, c: nat)
    requires i <= c < |scored| && scored[c].entry.explicitSave == explicitSave
    ensures var room := RoomAt(scored, th, explicitSave, i, remaining, c);
            Packed(Pass(scored, th, explicitSave, i, remaining), c) <==>
              room >= 15
              && EstimateTokens(BestRepresentation(scored[c].entry, room, scored[c].score, th)) > 0
    decreases c - i
  {
    if remaining < MIN_ENTRY_TOKENS {
      TooLittleRoom(scored, th, explicitSave, i, remaining);
    } else if scored[i].entry.explicitSave != explicitSave {
      PackedIff(scored, th, explicitSave, i + 1, remaining, c);
    } else {
      var text := BestRepresentation(scored[i].entry, remaining, scored[i].score, th);
      RepresentationFits(scored[i].entry, remaining, scored[i].score, th);
      var rest := remaining - EstimateTokens(text);
      if i == c {
        LaterPicksOnly(scored, th, explicitSave, i + 1, rest, c);
      } else {
        PackedIff(scored, th, explicitSave, i + 1, rest, c);
      }
      PackedLater(Pick(i, text), Pass(scored, th, explicitSave, i + 1, rest), c);
    }
  }

  function Larger(a: nat, b: nat): nat { if a >= b then a else b }

  function LargestCost(e: Entry): nat {
    Larger(Larger(EstimateTokens(e.hot), EstimateTokens(e.warm)),
           Larger(EstimateTokens(e.cool), EstimateTokens(e.faded)))
  }

  /** The explicit saves from `i` on, each with its largest text. */
  function SavesCost(scored: seq<Scored>, i: nat): nat
    requires i <= |scored|
    decreases |scored| - i
  {
    if i == |scored| then 0
    else (if scored[i].entry.explicitSave then LargestCost(scored[i].entry) else 0) + SavesCost(scored, i + 1)
  }

  lemma {:induction false} EnoughRoom(scored: seq<Scored>, th: Thresholds, i: nat, remaining: nat, c: nat)
    requires i <= c < |scored| && remaining >= MIN_ENTRY_TOKENS + SavesCost(scored, i)
    ensures RoomAt(scored, th, true, i, remaining, c) >= MIN_ENTRY_TOKENS + SavesCost(scored, c)
    decreases c - i
  {
    if i < c {
      var cost := EstimateTokens(BestRepresentation(scored[i].entry, remaining, scored[i].score, th));
      assert EstimateTokens("") == 0;
      EnoughRoom(scored, th, i + 1, if scored[i].entry.explicitSave then remaining - cost else remaining, c);
    }
  }

  /** With room for a save's largest text, it is represented exactly if it is not gone. */
  lemma RepresentedIffNotGone(e: Entry, room: nat, score: real, th: Thresholds)
    requires Tiered(th) && Costly(e) && room >= LargestCost(e)
    ensures EstimateTokens(BestRepresentation(e, room, score, th)) > 0 <==> score > GONE_THRESHOLD
  {
    assert EstimateTokens("") == 0;
  }

  /** Explicit saves are documented as always included. Among any candidates, and with room for the largest texts
      of all explicit saves and one minimal memory more, a save is included exactly if its score is above the gone
      threshold. */
  lemma {:induction false} SavePackedIffNotGone(scored: seq<Scored>, th: Thresholds, budget: nat, c: nat)
    requires Tiered(th) && AllCostly(scored) && c < |scored| && scored[c].entry.explicitSave
    requires PackBudget(budget) >= 15 + SavesCost(scored, 0)
    ensures Packed(Sections(scored, th, budget, true), c) <==> scored[c].score > 0.01
  {
    var room := RoomAt(scored, th, true, 0, PackBudget(budget), c);
    EnoughRoom(scored, th, 0, PackBudget(budget), c);
    PackedIff(scored, th, true, 0, PackBudget(budget), c);
    RepresentedIffNotGone(scored[c].entry, room, scored[c].score, th);
    SavesArePackedFirst(scored, th, PackBudget(budget), c);
  }

  /** Whether a save is packed is decided by the first pass. */
  lemma {:induction false} SavesArePackedFirst(scored: seq<Scored>, th: Thresholds, remaining: nat, c: nat)
    requires c < |scored| && scored[c].entry.explicitSave
    ensures Packed(Packing(scored, th, remaining), c) <==> Packed(Pass(scored, th, true, 0, remaining), c)
  {
    var explicits := Pass(scored, th, true, 0, remaining);
    var left := SaturatingSub(remaining, Cost(explicits));
    PassInOrder(scored, th, false, 0, left);
    assert forall pick :: pick in Packing(scored, th, remaining) <==>
             pick in explicits || pick in Pass(scored, th, false, 0, left);
  }

  /** Whatever the budget: a save that is not gone is left out exactly if, at its turn, there is less than the
      minimal room or none of its entitled representations fits. */
  lemma {:induction false} SaveLeftOutIff(scored: seq<Scored>, th: Thresholds, budget: nat, c: nat)
    requires Tiered(th) && AllCostly(scored) && c < |scored| && scored[c].entry.explicitSave
    requires scored[c].score > 0.01
    ensures var e, room := scored[c].entry, RoomAt(scored, th, true, 0, PackBudget(budget), c);
            !Packed(Sections(scored, th, budget, true), c) <==>
              room < 15 || forall tier :: 1 <= tier <= 4 ==> !TierFits(e, room, scored[c].score, th, tier)
  {
    var e, room := scored[c].entry, RoomAt(scored, th, true, 0, PackBudget(budget), c);
    FrameCost(budget);
    PackedIff(scored, th, true, 0, PackBudget(budget), c);
    SavesArePackedFirst(scored, th, PackBudget(budget), c);
    RepresentationIsBest(e, room, scored[c].score, th);
    assert EstimateTokens("") == 0;
    forall tier | 1 <= tier <= 4 ensures EstimateTokens(TierText(e, tier)) >= 1 {
    }
  }

  // ---------------------------------------------------------------------
  // The skull
  // ---------------------------------------------------------------------

  /** The tokens of the λ section. */
  function SectionCost(scored: seq<Scored>, th: Thresholds, budget: nat): nat {
    EstimateTokens(Render(Sections(scored, th, budget, true)))
  }

  lemma NoSection(scored: seq<Scored>, th: Thresholds, budget: nat)
    requires PackBudget(budget) < MIN_ENTRY_TOKENS
    ensures Sections(scored, th, budget, true) == [] && SectionCost(scored, th, budget) == 0
  {
    TooLittleRoom(scored, th, true, 0, PackBudget(budget));
    assert Cost([]) == 0;
    TooLittleRoom(scored, th, false, 0, PackBudget(budget));
    assert ByteLength("") == 0;
  }

  // ---------------------------------------------------------------------
  // How many memories can be packed
  // ---------------------------------------------------------------------

  function Smaller(a: nat, b: nat): nat { if a <= b then a else b }

  /** The most memories that are ever packed, of at most `n` candidates. */
  function MostPicks(budget: nat, n: nat): nat {
    if budget < 33 then 0 else Smaller(n, 1 + (budget - 33) / MIN_TEXT_TOKENS)
  }

  /** The largest λ section. */
  function LargestSection(budget: nat, n: nat): nat {
    var k := MostPicks(budget, n);
    if k == 0 then 0 else budget + 3 * (k + 2) / 4
  }

  /** All picks take at least 9 tokens, and the last one finds at least 15. */
  predicate RoomFor(picks: seq<Pick>, remaining: nat) {
    && MIN_TEXT_TOKENS * |picks| <= Cost(picks)
    && (picks != [] ==> remaining >= MIN_ENTRY_TOKENS + MIN_TEXT_TOKENS * (|picks| - 1))
  }

  lemma RepresentationCost(e: Entry, remaining: nat, score: real, th: Thresholds, n: nat)
    requires CostsAtLeast(e, n)
    ensures var cost := EstimateTokens(BestRepresentation(e, remaining, score, th)); cost == 0 || cost >= n
  {
    assert EstimateTokens("") == 0;
  }

  lemma {:induction false} RoomForOneMore(pick: Pick, picks: seq<Pick>, remaining: nat)
    requires remaining >= MIN_ENTRY_TOKENS && MIN_TEXT_TOKENS <= EstimateTokens(pick.text) <= remaining
    requires RoomFor(picks, remaining - EstimateTokens(pick.text))
    ensures RoomFor([pick] + picks, remaining)
  {
    assert ([pick] + picks)[1..] == picks;
  }

  lemma {:induction false} PassRoom(scored: seq<Scored>, th: Thresholds, explicitSave: bool, i: nat, remaining: nat)
    requires i <= |scored| && AllCost(scored, MIN_TEXT_TOKENS)
    ensures RoomFor(Pass(scored, th, explicitSave, i, remaining), remaining)
    decreases |scored| - i
  {
    if i < |scored| {
      var text := BestRepresentation(scored[i].entry, remaining, scored[i].score, th);
      RepresentationCost(scored[i].entry, remaining, scored[i].score, th, MIN_TEXT_TOKENS);
      RepresentationFits(scored[i].entry, remaining, scored[i].score, th);
      if scored[i].entry.explicitSave != explicitSave || EstimateTokens(text) == 0 {
        PassRoom(scored, th, explicitSave, i + 1, remaining);
      } else {
        var rest := remaining - EstimateTokens(text);
        PassRoom(scored, th, explicitSave, i + 1, rest);
        if remaining >= MIN_ENTRY_TOKENS {
          RoomForOneMore(Pick(i, text), Pass(scored, th, explicitSave, i + 1, rest), remaining);
        }
      }
    }
  }

  /** The candidates of one kind from `i` on. */
  function KindCount(scored: seq<Scored>, explicitSave: bool, i: nat): nat
    requires i <= |scored|
    decreases |scored| - i
  {
    if i == |scored| then 0
    else (if scored[i].entry.explicitSave == explicitSave then 1 else 0) + KindCount(scored, explicitSave, i + 1)
  }

  lemma {:induction false} BothKinds(scored: seq<Scored>, i: nat)
    requires i <= |scored|
    ensures KindCount(scored, true, i) + KindCount(scored, false, i) == |scored| - i
    decreases |scored| - i
  {
    if i < |scored| {
      BothKinds(scored, i + 1);
    }
  }

  lemma {:induction false} PassCount(scored: seq<Scored>, th: Thresholds, explicitSave: bool, i: nat, remaining: nat)
    requires i <= |scored|
    ensures |Pass(scored, th, explicitSave, i, remaining)| <= KindCount(scored, explicitSave, i)
    decreases |scored| - i
  {
    if i < |scored| {
      var cost := EstimateTokens(BestRepresentation(scored[i].entry, remaining, scored[i].score, th));
      PassCount(scored, th, explicitSave, i + 1, remaining);
      PassCount(scored, th, explicitSave, i + 1, SaturatingSub(remaining, cost));
    }
  }

  lemma PackingCount(scored: seq<Scored>, th: Thresholds, room: nat)
    requires AllCost(scored, MIN_TEXT_TOKENS)
    ensures var picks := Packing(scored, th, room);
            && |picks| <= |scored|
            && (picks != [] ==> room >= MIN_ENTRY_TOKENS + MIN_TEXT_TOKENS * (|picks| - 1))
  {
    var start: nat := 0;
    var left := SaturatingSub(room, Cost(Pass(scored, th, true, start, room)));
    PassRoom(scored, th, true, start, room);
    PassRoom(scored, th, false, start, left);
    PassCost(scored, th, true, start, room);
    PassCount(scored, th, true, start, room);
    PassCount(scored, th, false, start, left);
    BothKinds(scored, start);
  }

  lemma RoomLimitsPicks(k: nat, room: nat, budget: nat, n: nat)
    requires k <= n && room == SaturatingSub(budget, 18)
    requires k > 0 ==> room >= MIN_ENTRY_TOKENS + MIN_TEXT_TOKENS * (k - 1)
    ensures k <= MostPicks(budget, n)
  {
  }

  lemma SectionsCount(scored: seq<Scored>, th: Thresholds, budget: nat, n: nat)
    requires AllDated(scored) && |scored| <= n
    ensures |Sections(scored, th, budget, true)| <= MostPicks(budget, n)
  {
    var room := PackBudget(budget);
    FrameCost(budget);
    AllDatedCost(scored);
    PackingCount(scored, th, room);
    RoomLimitsPicks(|Packing(scored, th, room)|, room, budget, n);
  }

  /** No λ section is larger. */
  lemma SectionIsBounded(scored: seq<Scored>, th: Thresholds, budget: nat, n: nat)
    requires AllDated(scored) && |scored| <= n
    ensures SectionCost(scored, th, budget) <= LargestSection(budget, n)
  {
    SectionsCount(scored, th, budget, n);
    CostWithinSlack(scored, th, budget, true);
  }

  // ---------------------------------------------------------------------
  // Memories that fill the room
  // ---------------------------------------------------------------------

  function Letters(n: nat): string {
    seq(n, _ => 'a')
  }

  const HASH: string := "0123456789ab"
  const CREATED: string := "2026-01-01 00:00"

  /** A memory whose faded text has `bytes` bytes. */
  function Plain(bytes: nat): Memory
    requires bytes >= 39
  {
    Memory(false, "", "", Letters(bytes - 39), HASH, CREATED, "1.0", 0)
  }

  lemma PlainBytes(bytes: nat)
    requires bytes >= 39
    ensures ByteLength(FormatFaded(Plain(bytes))) == bytes
  {
    AsciiBytes(FormatFaded(Plain(bytes)));
  }

  lemma PlainIsFaded(bytes: nat, remaining: nat, th: Thresholds)
    requires bytes >= 39 && Tiered(th) && th.cool > GONE_THRESHOLD
    ensures BestRepresentation(Formatted(Plain(bytes)), remaining, th.cool, th) ==
            if bytes / 4 <= remaining then FormatFaded(Plain(bytes)) else ""
  {
    PlainBytes(bytes);
  }

  /** The largest remainders: one text of `4 * cost + 3` bytes for each cost. */
  function Size(cost: nat): nat { 4 * cost + 3 }

  ghost predicate Weighty(costs: seq<nat>) {
    forall i :: 0 <= i < |costs| ==> costs[i] >= MIN_TEXT_TOKENS
  }

  /** A memory for each cost, with a score that shows it faded. */
  function PlainList(costs: seq<nat>, th: Thresholds): (scored: seq<Scored>)
    requires Weighty(costs)
  {
    seq(|costs|, i requires 0 <= i < |costs| => Scored(th.cool, Formatted(Plain(Size(costs[i])))))
  }

  lemma PlainListIsDated(costs: seq<nat>, th: Thresholds)
    requires Weighty(costs)
    ensures AllDated(PlainList(costs, th)) && AllFormatted(PlainList(costs, th))
  {
    var scored := PlainList(costs, th);
    forall k | 0 <= k < |scored| ensures IsDated(scored[k].entry) && IsFormatted(scored[k].entry) {
      var m := Plain(Size(costs[k]));
      assert Dated(m) && scored[k].entry == Formatted(m);
    }
  }

  function TotalFrom(costs: seq<nat>, i: nat): nat
    requires i <= |costs|
    decreases |costs| - i
  {
    if i == |costs| then 0 else costs[i] + TotalFrom(costs, i + 1)
  }

  /** The minimal room is there for each memory if the costs fill the room. */
  ghost predicate Fills(costs: seq<nat>) {
    forall i :: 0 <= i < |costs| ==> FillsFrom(costs, i)
  }

  ghost predicate FillsFrom(costs: seq<nat>, i: nat)
    requires i < |costs|
  {
    costs[i] >= MIN_TEXT_TOKENS && TotalFrom(costs, i) >= MIN_ENTRY_TOKENS
  }

  lemma FillingIsWeighty(costs: seq<nat>)
    requires Fills(costs)
    ensures Weighty(costs)
  {
    forall i | 0 <= i < |costs| ensures costs[i] >= MIN_TEXT_TOKENS {
      assert FillsFrom(costs, i);
    }
  }

  lemma {:induction false} PlainSaves(costs: seq<nat>, th: Thresholds, i: nat, remaining: nat)
    requires Weighty(costs) && i <= |costs|
    ensures Pass(PlainList(costs, th), th, true, i, remaining) == []
    decreases |costs| - i
  {
    if i < |costs| {
      PlainSaves(costs, th, i + 1, remaining);
    }
  }

  /** What is packed of the memories from `i` on in the room that their costs fill. */
  function PlainPicks(costs: seq<nat>, th: Thresholds, i: nat): (picks: seq<Pick>)
    requires Weighty(costs) && i <= |costs|
  {
    Pass(PlainList(costs, th), th, false, i, TotalFrom(costs, i))
  }

  /** The first of them is packed. */
  lemma {:induction false} PlainPicksStep(costs: seq<nat>, th: Thresholds, i: nat)
    requires Weighty(costs) && i < |costs| && FillsFrom(costs, i) && Tiered(th) && th.cool > GONE_THRESHOLD
    ensures PlainPicks(costs, th, i) ==
            [Pick(i, FormatFaded(Plain(Size(costs[i]))))] + PlainPicks(costs, th, i + 1)
  {
    PlainIsFaded(Size(costs[i]), TotalFrom(costs, i), th);
    PlainBytes(Size(costs[i]));
  }

  ghost predicate AllPacked(picks: seq<Pick>, count: nat, cost: nat) {
    |picks| == count && ByteLength(Concat(picks)) == 4 * cost + 3 * count
  }

  lemma {:induction false} AllPackedStep(picks: seq<Pick>, count: nat, total: nat, i: nat, cost: nat)
    requires cost >= MIN_TEXT_TOKENS && AllPacked(picks, count, total)
    ensures AllPacked([Pick(i, FormatFaded(Plain(Size(cost))))] + picks, count + 1, cost + total)
  {
    var text := FormatFaded(Plain(Size(cost)));
    ConcatCons(Pick(i, text), picks);
    ByteLengthConcat(text, Concat(picks));
    PlainBytes(Size(cost));
  }

  /** All of them are. */
  lemma {:induction false} PlainPass(costs: seq<nat>, th: Thresholds, i: nat)
    requires Weighty(costs) && Fills(costs) && i <= |costs| && Tiered(th) && th.cool > GONE_THRESHOLD
    ensures AllPacked(PlainPicks(costs, th, i), |costs| - i, TotalFrom(costs, i))
    decreases |costs| - i
  {
    if i < |costs| {
      assert FillsFrom(costs, i);
      PlainPass(costs, th, i + 1);
      PlainPicksStep(costs, th, i);
      AllPackedStep(PlainPicks(costs, th, i + 1), |costs| - i - 1, TotalFrom(costs, i + 1), i, costs[i]);
    } else {
      assert ByteLength(Concat([])) == 0;
    }
  }

  lemma {:induction false} PlainPacking(costs: seq<nat>, th: Thresholds, room: nat)
    requires Weighty(costs) && Fills(costs) && room == TotalFrom(costs, 0) && Tiered(th) && th.cool > GONE_THRESHOLD
    ensures AllPacked(Packing(PlainList(costs, th), th, room), |costs|, room)
  {
    PlainSaves(costs, th, 0, room);
    NoSaves(PlainList(costs, th), th, room);
    PlainPass(costs, th, 0);
  }

  lemma {:induction false} NoSaves(scored: seq<Scored>, th: Thresholds, room: nat)
    requires Pass(scored, th, true, 0, room) == []
    ensures Packing(scored, th, room) == Pass(scored, th, false, 0, room)
  {
    assert Cost([]) == 0;
    assert [] + Pass(scored, th, false, 0, room) == Pass(scored, th, false, 0, room);
  }

  /** Filled by `k` memories, the section exceeds its budget by the whole slack. */
  lemma {:induction false} PlainSection(costs: seq<nat>, th: Thresholds, budget: nat)
    requires Weighty(costs) && Fills(costs) && costs != [] && budget == 18 + TotalFrom(costs, 0)
    requires Tiered(th) && th.cool > GONE_THRESHOLD
    ensures |Sections(PlainList(costs, th), th, budget, true)| == |costs|
    ensures SectionCost(PlainList(costs, th), th, budget) == budget + 3 * (|costs| + 2) / 4
  {
    var scored, room := PlainList(costs, th), TotalFrom(costs, 0);
    assert FillsFrom(costs, 0);
    PlainPacking(costs, th, room);
    SectionIsPacking(scored, th, budget, room);
    PackedSize(Packing(scored, th, room), |costs|, room);
  }

  lemma SectionIsPacking(scored: seq<Scored>, th: Thresholds, budget: nat, room: nat)
    requires scored != [] && room >= MIN_ENTRY_TOKENS && budget == 18 + room
    ensures Sections(scored, th, budget, true) == Packing(scored, th, room)
  {
    FrameCost(budget);
  }

  lemma {:induction false} PackedSize(picks: seq<Pick>, count: nat, cost: nat)
    requires AllPacked(picks, count, cost) && count > 0
    ensures EstimateTokens(Render(picks)) == 18 + cost + 3 * (count + 2) / 4
  {
    FramedSize(picks);
  }

  /** `k - 1` memories of the least cost, and a last one that takes the rest. */
  function LastTakesRest(k: nat, rest: nat): (costs: seq<nat>)
    requires k > 0
  {
    seq(k, i => if i < k - 1 then MIN_TEXT_TOKENS else rest)
  }

  lemma {:induction false} TotalOfRest(k: nat, rest: nat, i: nat)
    requires i < k
    ensures TotalFrom(LastTakesRest(k, rest), i) == MIN_TEXT_TOKENS * (k - 1 - i) + rest
    decreases k - i
  {
    if i < k - 1 {
      TotalOfRest(k, rest, i + 1);
    } else {
      assert TotalFrom(LastTakesRest(k, rest), k) == 0;
    }
  }

  lemma RestFills(k: nat, rest: nat)
    requires k > 0 && rest >= MIN_ENTRY_TOKENS
    ensures Fills(LastTakesRest(k, rest))
  {
    var costs := LastTakesRest(k, rest);
    forall i | 0 <= i < |costs| ensures FillsFrom(costs, i) {
      TotalOfRest(k, rest, i);
    }
  }

  /** And one is as large: the worst case, of as many memories as can be packed. */
  lemma WorstCase(th: Thresholds, budget: nat, n: nat) returns (scored: seq<Scored>)
    requires Tiered(th) && th.cool > GONE_THRESHOLD && budget >= 33 && n > 0
    ensures AllDated(scored) && AllFormatted(scored)
    ensures |scored| == |Sections(scored, th, budget, true)| == MostPicks(budget, n) <= n
    ensures SectionCost(scored, th, budget) == LargestSection(budget, n)
  {
    var k, room := MostPicks(budget, n), budget - 18;
    var rest := room - MIN_TEXT_TOKENS * (k - 1);
    var costs := LastTakesRest(k, rest);
    RestFills(k, rest);
    FillingIsWeighty(costs);
    TotalOfRest(k, rest, 0);
    PlainSection(costs, th, budget);
    PlainListIsDated(costs, th);
    scored := PlainList(costs, th);
  }

  /** The λ section stays within its budget for all memories if and only if the budget, less the frame, is below
      the minimum for one memory (that is, below 33 tokens): then there is no section. */
  lemma SectionFitsIff(th: Thresholds, budget: nat)
    requires Tiered(th) && th.cool > GONE_THRESHOLD
    ensures (forall scored :: AllFormatted(scored) ==> SectionCost(scored, th, budget) <= budget) <==>
              PackBudget(budget) < MIN_ENTRY_TOKENS
    ensures PackBudget(budget) < MIN_ENTRY_TOKENS <==> budget < 33
  {
    FrameCost(budget);
    if PackBudget(budget) < MIN_ENTRY_TOKENS {
      forall scored | AllFormatted(scored) ensures SectionCost(scored, th, budget) <= budget {
        NoSection(scored, th, budget);
      }
    } else {
      var scored := WorstCase(th, budget, 1);
      assert SectionCost(scored, th, budget) > budget;
    }
  }

  /** An explicit save with such a faded text. */
  function PlainSave(bytes: nat, th: Thresholds): Scored
    requires bytes >= 39
  {
    Scored(th.cool, Formatted(Plain(bytes).(explicitSave := true)))
  }

  lemma PlainSaveIsFaded(bytes: nat, th: Thresholds)
    requires bytes >= 39 && Tiered(th) && th.cool > GONE_THRESHOLD
    ensures EstimateTokens(BestRepresentation(PlainSave(bytes, th).entry, bytes / 4, th.cool, th)) == bytes / 4
  {
    PlainBytes(bytes);
  }

  lemma {:induction false} NoRoomForSecond(scored: seq<Scored>, th: Thresholds, room: nat)
    requires |scored| == 2 && scored[0].entry.explicitSave && room >= MIN_ENTRY_TOKENS
    requires EstimateTokens(BestRepresentation(scored[0].entry, room, scored[0].score, th)) == room
    ensures RoomAt(scored, th, true, 0, room, 1) == 0
  {
  }

  /** Room can run out among the saves alone: if the budget is just enough for one of two equal saves, the second
      is left out, although it is not gone. */
  lemma SecondSaveLeftOut(bytes: nat, th: Thresholds, budget: nat)
    requires bytes / 4 >= MIN_ENTRY_TOKENS && Tiered(th) && th.cool > GONE_THRESHOLD && budget == 18 + bytes / 4
    ensures var scored := [PlainSave(bytes, th), PlainSave(bytes, th)];
            && AllFormatted(scored) && scored[1].entry.explicitSave && scored[1].score > GONE_THRESHOLD
            && !Packed(Sections(scored, th, budget, true), 1)
  {
    var scored := [PlainSave(bytes, th), PlainSave(bytes, th)];
    FormattedIsCostly(Plain(bytes).(explicitSave := true));
    FrameCost(budget);
    PlainSaveIsFaded(bytes, th);
    NoRoomForSecond(scored, th, bytes / 4);
    SaveLeftOutIff(scored, th, budget, 1);
  }

  /** The memories that a query with limit `n` can return. */
  ghost predicate Stored(scored: seq<Scored>, n: nat) {
    AllDated(scored) && |scored| <= n
  }

  /** The documented invariant, bone + active + reserve + guard + λ within the skull, for any budget of the λ section
      and up to `n` memories: it holds for all of them if and only if it does in the worst case. */
  lemma SkullInvariantIff(th: Thresholds, skull: nat, maxOutput: nat, bone: nat, active: nat, budget: nat, n: nat)
    requires Tiered(th) && th.cool > GONE_THRESHOLD
    ensures var occupied := Occupied(skull, maxOutput, bone, active);
            (forall scored :: Stored(scored, n) ==> occupied + SectionCost(scored, th, budget) <= skull) <==>
              occupied + LargestSection(budget, n) <= skull
  {
    var occupied := Occupied(skull, maxOutput, bone, active);
    if occupied + LargestSection(budget, n) <= skull {
      forall scored | Stored(scored, n) ensures occupied + SectionCost(scored, th, budget) <= skull {
        SectionIsBounded(scored, th, budget, n);
      }
    } else if MostPicks(budget, n) > 0 {
      var scored := WorstCase(th, budget, n);
      assert Stored(scored, n) && occupied + SectionCost(scored, th, budget) > skull;
    } else {
      assert Stored([], n) && occupied + SectionCost([], th, budget) > skull;
    }
  }

  /** Given the whole λ budget, the section breaks the invariant as soon as one memory can be packed. */
  lemma WholeBudgetIff(th: Thresholds, skull: nat, maxOutput: nat, bone: nat, active: nat, n: nat)
    requires Tiered(th) && th.cool > GONE_THRESHOLD && n > 0
    ensures var occupied := Occupied(skull, maxOutput, bone, active);
            var budget := LambdaBudget(skull, maxOutput, bone, active);
            (forall scored :: Stored(scored, n) ==> occupied + SectionCost(scored, th, budget) <= skull) <==>
              occupied <= skull && budget < 33
  {
    SkullInvariantIff(th, skull, maxOutput, bone, active, LambdaBudget(skull, maxOutput, bone, active), n);
  }

  /** A skull with the usual reserve and guard in which exactly `budget` tokens are left. */
  lemma SkullFor(budget: nat, maxOutput: nat) returns (skull: nat, active: nat)
    ensures Occupied(skull, maxOutput, 0, active) + budget == skull
    ensures LambdaBudget(skull, maxOutput, 0, active) == budget
  {
    skull := 50 * budget;
    active := 48 * budget - (if maxOutput <= 5 * budget then maxOutput else 5 * budget);
    assert skull / 50 == budget && skull / 10 == 5 * budget;
  }

  /** The slack is attained for every number of packed memories: `k` memories exceed such a skull by exactly it. */
  lemma SlackIsAttained(k: nat, maxOutput: nat, th: Thresholds)
    returns (scored: seq<Scored>, skull: nat, active: nat)
    requires k > 0 && Tiered(th) && th.cool > GONE_THRESHOLD
    ensures AllDated(scored)
    ensures var occupied, budget := Occupied(skull, maxOutput, 0, active), LambdaBudget(skull, maxOutput, 0, active);
            && occupied <= skull
            && |Sections(scored, th, budget, true)| == k
            && occupied + SectionCost(scored, th, budget) == skull + 3 * (k + 2) / 4 > skull
  {
    var budget := 33 + MIN_TEXT_TOKENS * (k - 1);
    skull, active := SkullFor(budget, maxOutput);
    scored := WorstCase(th, budget, k);
  }
}
