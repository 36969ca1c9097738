/** Assembling the messages of a completion request within a token budget. */
module Context {
  import opened Wrappers
  import opened Messages
  import opened Turns
  import opened HistoryPruning
  import opened LambdaMemory
  import opened LambdaLimits
  import opened Stripping

  const MAX_RECENT_MESSAGES: nat := 60
  const OVERHEAD: nat := 500
  const KNOWLEDGE_CAP: nat := 2000
  const FRAMING: nat := 10

  /** What goes into one request. Texts built elsewhere and the results of memory searches are inputs: a
      text is `None` when there is nothing to add, and a frame puts its title around it. `memoryShare` and
      `learningShare` are whatever the floating-point fractions of the budget round to. */
  datatype Request = Request(
    budget: nat,
    systemTokens: nat,
    toolTokens: nat,
    blueprints: seq<string>,
    history: seq<Message>,
    maxTurns: nat,
    skull: nat,
    maxOutput: nat,
    candidates: seq<Scored>,
    baseThresholds: Thresholds,
    lambdaEnabled: bool,
    memoryShare: nat,
    memoryText: Option<string>,
    memoryFrame: string -> string,
    knowledgeText: Option<string>,
    knowledgeFrame: string -> string,
    learningShare: nat,
    learningText: Option<string>,
    summary: string,
    digest: Option<string>,
    supportsVision: bool)

  /** Tokens charged per category. */
  datatype Tally = Tally(
    fixed: nat, recent: nat, blueprint: nat,
    lambda: nat, memory: nat, knowledge: nat, learning: nat,
    older: nat)

  function Unavoidable(t: Tally): nat { t.fixed + t.recent + t.blueprint }

  function Charged(t: Tally): nat {
    Unavoidable(t) + t.lambda + t.memory + t.knowledge + t.learning + t.older
  }

  function Min(a: nat, b: nat): nat { if a <= b then a else b }

  function Max(a: nat, b: nat): nat { if a >= b then a else b }

  function SystemMessage(text: string): Message { Message(System, Text(text)) }

  // ---------------------------------------------------------------------
  // Older history: the newest whole turns that fit
  // ---------------------------------------------------------------------

  function RecentStart(history: seq<Message>): (start: nat)
    ensures start <= |history|
  {
    |history| - Min(|history|, MAX_RECENT_MESSAGES)
  }

  /** What lies before the recent messages, cut to the last `2 * maxTurns` messages unless that is 0. */
  function OlderHistory(history: seq<Message>, maxTurns: nat): (older: seq<Message>) {
    var end := RecentStart(history);
    if maxTurns > 0 && end > maxTurns * 2 then history[end - maxTurns * 2..end] else history[..end]
  }

  /** A position where a turn begins, or the end. */
  ghost predicate Boundary(older: seq<Message>, p: nat) {
    p == |older| || exists t :: 0 <= t < |AllTurns(older)| && AllTurns(older)[t].start == p
  }

  /** From `p` on is the longest suffix of whole turns that costs at most `budget`. */
  ghost predicate LongestFit(older: seq<Message>, budget: nat, p: nat) {
    && p <= |older| && Boundary(older, p)
    && TotalTokens(older[p..]) <= budget
    && forall q: nat :: q < p && Boundary(older, q) ==> TotalTokens(older[q..]) > budget
  }

  lemma SuffixTokens(older: seq<Message>, q: nat, p: nat)
    requires q <= p <= |older|
    ensures TotalTokens(older[q..]) == TotalTokens(older[q..p]) + TotalTokens(older[p..])
  {
    assert older[q..] == older[q..p] + older[p..];
    TotalTokensConcat(older[q..p], older[p..]);
  }

  /** Where the walk stands when it has kept the turns from `k` on. */
  function KeptFrom(older: seq<Message>, turns: seq<Turn>, k: nat): (p: nat)
    requires k <= |turns|
  {
    if k < |turns| then turns[k].start else |older|
  }

  /** The walk ends with the longest fit: at the first turn, or before one that would not fit. */
  lemma {:induction false} WalkEndsRight(older: seq<Message>, turns: seq<Turn>, budget: nat, k: nat)
    requires turns == AllTurns(older) && Grouped(older, turns) && k <= |turns|
    requires var p := KeptFrom(older, turns, k); p <= |older| && TotalTokens(older[p..]) <= budget
    requires k > 0 ==> TotalTokens(older[turns[k - 1].start..]) > budget
    ensures LongestFit(older, budget, KeptFrom(older, turns, k))
  {
    var p := KeptFrom(older, turns, k);
    TilingMeaning(turns, 0, |older|);
    if k > 0 {
      forall q: nat | q < p && Boundary(older, q)
        ensures TotalTokens(older[q..]) > budget
      {
        var t :| 0 <= t < |turns| && turns[t].start == q;
        SuffixTokens(older, q, turns[k - 1].start);
      }
    }
  }

  lemma OneTurnMore(older: seq<Message>, turns: seq<Turn>, k: nat)
    requires Grouped(older, turns) && 0 < k <= |turns|
    ensures turns[k - 1].end == KeptFrom(older, turns, k) <= |older|
    ensures KeptFrom(older, turns, k - 1) == turns[k - 1].start
    ensures TotalTokens(older[turns[k - 1].start..]) ==
            TotalTokens(older[turns[k - 1].start..turns[k - 1].end]) + TotalTokens(older[turns[k - 1].end..])
  {
    TurnsAreAdjacent(turns, 0, |older|, k);
    SuffixTokens(older, turns[k - 1].start, turns[k - 1].end);
  }

  /** Walks from the newest turn back until the budget would be exceeded. */
  method KeepOlder(older: seq<Message>, budget: nat) returns (p: nat, tokens: nat)
    ensures LongestFit(older, budget, p)
    ensures tokens == TotalTokens(older[p..]) <= budget
  {
    var turns := GroupIntoTurns(older);
    TurnsAreGrouped(older);
    var k: nat := |turns|;
    p, tokens := |older|, 0;
    while k > 0
      invariant k <= |turns| && p == KeptFrom(older, turns, k) <= |older|
      invariant tokens == TotalTokens(older[p..]) <= budget
    {
      var turn := turns[k - 1];
      OneTurnMore(older, turns, k);
      var turnTokens := TotalTokens(older[turn.start..turn.end]);
      if tokens + turnTokens > budget {
        break;
      }
      tokens, p, k := tokens + turnTokens, turn.start, k - 1;
    }
    WalkEndsRight(older, turns, budget, k);
  }

  // ---------------------------------------------------------------------
  // Charging the budget
  // ---------------------------------------------------------------------

  /** The candidates, best score first. */
  ghost predicate IsRanking(r: Request, ranked: seq<Scored>) {
    Descending(ranked) && multiset(ranked) == multiset(r.candidates) && StablyOrdered(ranked, r.candidates)
  }

  /** What the λ section may cost: what the model's window leaves, or what is left of the request's budget if that is
      less. */
  function CurrentBudget(r: Request, fixed: nat, recent: nat, blueprint: nat): nat {
    Min(LambdaBudget(r.skull, r.maxOutput, fixed + blueprint, recent),
        SaturatingSub(r.budget, fixed + recent + blueprint))
  }

  /** The memories a request packs, given the ranking of its candidates and what is charged before them. */
  function Picks(r: Request, ranked: seq<Scored>, fixed: nat, recent: nat, blueprint: nat): (picks: seq<Pick>) {
    var lambdaMax := LambdaBudget(r.skull, r.maxOutput, fixed + blueprint, recent);
    var current := CurrentBudget(r, fixed, recent, blueprint);
    Sections(ranked, EffectiveThresholds(current, lambdaMax, r.baseThresholds), current, r.lambdaEnabled)
  }

  /** The rounding slack of the λ section. */
  function Slack(picks: nat): nat {
    if picks == 0 then 0 else 3 * (picks + 2) / 4
  }

  /** A legacy section is added if there is a text and it fits its share of what is available. */
  function MemoryCost(r: Request, available: nat): Option<nat> {
    if r.memoryText.Some? && EstimateTokens(r.memoryText.value) + FRAMING <= Min(r.memoryShare, available)
    then Some(EstimateTokens(r.memoryText.value) + FRAMING) else None
  }

  function KnowledgeCost(r: Request, available: nat, memory: nat): Option<nat> {
    if r.knowledgeText.Some? && r.knowledgeText.value != ""
       && EstimateTokens(r.knowledgeText.value) + FRAMING <=
          Min(SaturatingSub(Min(r.memoryShare, available), memory), KNOWLEDGE_CAP)
    then Some(EstimateTokens(r.knowledgeText.value) + FRAMING) else None
  }

  function LearningCost(r: Request, available: nat, spent: nat): Option<nat> {
    if r.learningText.Some? && r.learningText.value != ""
       && EstimateTokens(r.learningText.value) <= Min(r.learningShare, SaturatingSub(available, spent))
    then Some(EstimateTokens(r.learningText.value)) else None
  }

  function LegacyMessages(r: Request, available: nat): (messages: seq<Message>)
    ensures AllText(messages)
  {
    var memory := MemoryCost(r, available);
    var knowledge := KnowledgeCost(r, available, memory.GetOr(0));
    var learning := LearningCost(r, available, memory.GetOr(0) + knowledge.GetOr(0));
    (if memory.Some? then [SystemMessage(r.memoryFrame(r.memoryText.value))] else [])
    + (if knowledge.Some? then [SystemMessage(r.knowledgeFrame(r.knowledgeText.value))] else [])
    + (if learning.Some? then [SystemMessage(r.learningText.value)] else [])
  }

  /** There is a text, and with `extra` tokens it is within both limits. */
  predicate Fits(text: Option<string>, extra: nat, share: nat, available: nat) {
    text.Some? && EstimateTokens(text.value) + extra <= share && EstimateTokens(text.value) + extra <= available
  }

  /** Each legacy section is charged exactly if it fits what its share and those before it leave, and together they
      stay within what is available. */
  method LegacySections(r: Request, available: nat)
    returns (messages: seq<Message>, memory: nat, knowledge: nat, learning: nat)
    ensures memory + knowledge + learning <= available
    ensures memory + knowledge <= r.memoryShare && knowledge <= KNOWLEDGE_CAP && learning <= r.learningShare
    ensures memory == MemoryCost(r, available).GetOr(0)
    ensures knowledge == KnowledgeCost(r, available, memory).GetOr(0)
    ensures learning == LearningCost(r, available, memory + knowledge).GetOr(0)
    ensures messages == LegacyMessages(r, available)
    ensures messages ==
            (if memory > 0 then [Message(System, Text(r.memoryFrame(r.memoryText.value)))] else [])
            + (if knowledge > 0 then [Message(System, Text(r.knowledgeFrame(r.knowledgeText.value)))] else [])
            + (if Fits(r.learningText, 0, r.learningShare, r.learningShare) && r.learningText.value != ""
                  && EstimateTokens(r.learningText.value) + memory + knowledge <= available
               then [Message(System, Text(r.learningText.value))] else [])
    ensures memory == if Fits(r.memoryText, 10, r.memoryShare, available) then EstimateTokens(r.memoryText.value) + 10
                      else 0
    ensures knowledge == if Fits(r.knowledgeText, 10 + memory, r.memoryShare, available) && r.knowledgeText.value != ""
                            && EstimateTokens(r.knowledgeText.value) + 10 <= 2000
                         then EstimateTokens(r.knowledgeText.value) + 10 else 0
    ensures learning == if Fits(r.learningText, 0, r.learningShare, r.learningShare) && r.learningText.value != ""
                           && EstimateTokens(r.learningText.value) + memory + knowledge <= available
                        then EstimateTokens(r.learningText.value) else 0
  {
    messages, memory, knowledge, learning := [], 0, 0, 0;
    var memoryBudget := Min(r.memoryShare, available);
    if r.memoryText.Some? && EstimateTokens(r.memoryText.value) + FRAMING <= memoryBudget {
      messages := messages + [SystemMessage(r.memoryFrame(r.memoryText.value))];
      memory := EstimateTokens(r.memoryText.value) + FRAMING;
    }
    var knowledgeBudget := Min(SaturatingSub(memoryBudget, memory), KNOWLEDGE_CAP);
    if r.knowledgeText.Some? {
      var tokens := EstimateTokens(r.knowledgeText.value) + FRAMING;
      if tokens <= knowledgeBudget && r.knowledgeText.value != "" {
        messages := messages + [SystemMessage(r.knowledgeFrame(r.knowledgeText.value))];
        knowledge := tokens;
      }
    }
    if r.learningText.Some? {
      var learningBudget := Min(r.learningShare, SaturatingSub(available, memory + knowledge));
      var tokens := EstimateTokens(r.learningText.value);
      if tokens <= learningBudget && r.learningText.value != "" {
        messages := messages + [SystemMessage(r.learningText.value)];
        learning := tokens;
      }
    }
  }

  /** The memory messages: the λ section, or the legacy sections when it is empty. */
  function MemoryMessages(r: Request, available: nat, picks: seq<Pick>): (messages: seq<Message>)
    ensures AllText(messages)
  {
    if picks != [] then [SystemMessage(Render(picks))] else LegacyMessages(r, available)
  }

  ghost predicate ChargesLegacy(r: Request, t: Tally, available: nat) {
    && t.memory == MemoryCost(r, available).GetOr(0)
    && t.knowledge == KnowledgeCost(r, available, t.memory).GetOr(0)
    && t.learning == LearningCost(r, available, t.memory + t.knowledge).GetOr(0)
  }

  /** What the tally says about the memories: they are packed within what is left, up to the rounding slack. */
  ghost predicate ChargesMemories(r: Request, t: Tally, ranked: seq<Scored>) {
    && IsRanking(r, ranked)
    && var picks := Picks(r, ranked, t.fixed, t.recent, t.blueprint);
       && t.lambda == EstimateTokens(Render(picks))
       && (picks != [] ==> t.memory == t.knowledge == t.learning == 0)
       && (picks == [] ==> ChargesLegacy(r, t, SaturatingSub(r.budget, Unavoidable(t))))
       && t.lambda + t.memory + t.knowledge + t.learning <= SaturatingSub(r.budget, Unavoidable(t)) + Slack(|picks|)
  }

  function Memories(r: Request, t: Tally, ranked: seq<Scored>): (messages: seq<Message>) {
    MemoryMessages(r, SaturatingSub(r.budget, Unavoidable(t)), Picks(r, ranked, t.fixed, t.recent, t.blueprint))
  }

  /** Ranks the candidates and packs them. */
  method LambdaSection(r: Request, fixed: nat, recent: nat, blueprint: nat)
    returns (text: string, tokens: nat, ghost ranked: seq<Scored>)
    ensures IsRanking(r, ranked) && text == Render(Picks(r, ranked, fixed, recent, blueprint))
    ensures tokens == EstimateTokens(text)
  {
    var lambdaMax := LambdaBudget(r.skull, r.maxOutput, fixed + blueprint, recent);
    var current := CurrentBudget(r, fixed, recent, blueprint);
    var scored := RankCandidates(r.candidates);
    ranked := scored;
    text, tokens := AssembleLambdaContext(scored, EffectiveThresholds(current, lambdaMax, r.baseThresholds), current,
                                          r.lambdaEnabled);
  }

  lemma RenderedCosts(picks: seq<Pick>)
    ensures EstimateTokens(Render(picks)) > 0 <==> picks != []
    ensures Render(picks) == "" <==> picks == []
  {
    if picks != [] {
      FrameSizes();
      ByteLengthConcat(HEADER, Concat(picks));
      ByteLengthConcat(HEADER + Concat(picks), FOOTER);
    } else {
      assert ByteLength("") == 0;
    }
  }

  lemma LambdaIsCharged(r: Request, t: Tally, ranked: seq<Scored>)
    requires IsRanking(r, ranked) && t.memory == t.knowledge == t.learning == 0
    requires var picks := Picks(r, ranked, t.fixed, t.recent, t.blueprint);
             picks != [] && t.lambda == EstimateTokens(Render(picks))
    ensures ChargesMemories(r, t, ranked)
    ensures Memories(r, t, ranked) == [SystemMessage(Render(Picks(r, ranked, t.fixed, t.recent, t.blueprint)))]
  {
    var lambdaMax := LambdaBudget(r.skull, r.maxOutput, t.fixed + t.blueprint, t.recent);
    var current := CurrentBudget(r, t.fixed, t.recent, t.blueprint);
    CostWithinSlack(ranked, EffectiveThresholds(current, lambdaMax, r.baseThresholds), current, r.lambdaEnabled);
  }

  lemma LegacyIsCharged(r: Request, t: Tally, ranked: seq<Scored>)
    requires IsRanking(r, ranked) && t.lambda == 0 && Picks(r, ranked, t.fixed, t.recent, t.blueprint) == []
    requires var available := SaturatingSub(r.budget, Unavoidable(t));
             ChargesLegacy(r, t, available) && t.memory + t.knowledge + t.learning <= available
    ensures ChargesMemories(r, t, ranked)
    ensures Memories(r, t, ranked) == LegacyMessages(r, SaturatingSub(r.budget, Unavoidable(t)))
  {
    RenderedCosts([]);
  }

  /** The legacy sections, when nothing was packed. */
  method LegacyFallback(r: Request, fixed: nat, recent: nat, blueprint: nat, ghost ranked: seq<Scored>)
    returns (messages: seq<Message>, t: Tally)
    requires IsRanking(r, ranked) && Picks(r, ranked, fixed, recent, blueprint) == []
    ensures t == Tally(fixed, recent, blueprint, 0, t.memory, t.knowledge, t.learning, 0)
    ensures ChargesMemories(r, t, ranked) && messages == Memories(r, t, ranked)
  {
    var available := SaturatingSub(r.budget, fixed + recent + blueprint);
    var memory, knowledge, learning;
    messages, memory, knowledge, learning := LegacySections(r, available);
    t := Tally(fixed, recent, blueprint, 0, memory, knowledge, learning, 0);
    assert Unavoidable(t) == fixed + recent + blueprint;
    LegacyIsCharged(r, t, ranked);
  }

  /** The λ section, or the legacy sections if it costs nothing. */
  method MemorySections(r: Request, fixed: nat, recent: nat, blueprint: nat)
    returns (messages: seq<Message>, t: Tally, ghost ranked: seq<Scored>)
    ensures t == Tally(fixed, recent, blueprint, t.lambda, t.memory, t.knowledge, t.learning, 0)
    ensures ChargesMemories(r, t, ranked) && messages == Memories(r, t, ranked)
  {
    var text, tokens;
    text, tokens, ranked := LambdaSection(r, fixed, recent, blueprint);
    RenderedCosts(Picks(r, ranked, fixed, recent, blueprint));
    if text != "" {
      messages, t := [SystemMessage(text)], Tally(fixed, recent, blueprint, tokens, 0, 0, 0, 0);
      LambdaIsCharged(r, t, ranked);
    }
    if tokens == 0 {
      messages, t := LegacyFallback(r, fixed, recent, blueprint, ranked);
    }
  }

  function SystemMessages(texts: seq<string>): (messages: seq<Message>)
    ensures |messages| == |texts| && AllText(messages)
  {
    seq(|texts|, i requires 0 <= i < |texts| => SystemMessage(texts[i]))
  }

  /** Summary, digest, blueprints and memories, in this order. */
  function Injected(r: Request, dropped: bool, memories: seq<Message>): (injected: seq<Message>)
    requires AllText(memories)
    ensures AllText(injected)
  {
    (if dropped then [SystemMessage(r.summary)] else [])
    + (if r.digest.Some? then [SystemMessage(r.digest.value)] else [])
    + SystemMessages(r.blueprints) + memories
  }

  ghost function Recent(history: seq<Message>): seq<Message> {
    history[RecentStart(history)..]
  }

  /** The part that is always kept: the system prompt, the tools, the recent messages and the blueprints. */
  ghost predicate ChargesUnavoidable(r: Request, t: Tally) {
    && t.fixed == r.systemTokens + r.toolTokens + OVERHEAD
    && t.recent == TotalTokens(Recent(r.history))
    && t.blueprint == TotalTokens(SystemMessages(r.blueprints))
  }

  function Older(r: Request): seq<Message> {
    OlderHistory(r.history, r.maxTurns)
  }

  /** Older and recent messages are a suffix of the history: the last 60, and in front of them all others, or the last
      `2 * maxTurns` if that is set. */
  lemma HistoryIsSplit(r: Request)
    ensures |Recent(r.history)| == Min(60, |r.history|)
    ensures |Older(r)| == if r.maxTurns == 0 then |r.history| - |Recent(r.history)|
                          else Min(2 * r.maxTurns, |r.history| - |Recent(r.history)|)
    ensures Older(r) + Recent(r.history) == r.history[|r.history| - |Recent(r.history)| - |Older(r)|..]
  {
    OlderIsSlice(r.history, r.maxTurns);
    SlicesJoin(r.history, RecentStart(r.history) - |Older(r)|, RecentStart(r.history));
  }

  lemma OlderIsSlice(history: seq<Message>, maxTurns: nat)
    ensures var end, older := RecentStart(history), OlderHistory(history, maxTurns);
            && |older| == (if maxTurns == 0 then end else Min(2 * maxTurns, end))
            && older == history[end - |older|..end]
  {
  }

  lemma SlicesJoin<T>(s: seq<T>, a: nat, b: nat)
    requires a <= b <= |s|
    ensures s[a..b] + s[b..] == s[a..]
  {
  }

  /** What is left for the older history. */
  function HistoryBudget(r: Request, t: Tally): nat {
    SaturatingSub(r.budget, Unavoidable(t) + t.lambda + t.memory + t.knowledge + t.learning)
  }

  /** The kept older history is the longest suffix of whole turns that fits what is left. */
  ghost predicate ChargesOlder(r: Request, t: Tally, p: nat) {
    LongestFit(Older(r), HistoryBudget(r, t), p) && t.older == TotalTokens(Older(r)[p..])
  }

  /** Without a λ section the charged tokens stay within the budget, unless the part that is always kept is
      larger already; with one they exceed it by at most the rounding slack. */
  lemma ChargedWithinSlack(r: Request, t: Tally, ranked: seq<Scored>)
    requires ChargesMemories(r, t, ranked) && t.older <= HistoryBudget(r, t)
    ensures Charged(t) <= Max(r.budget, Unavoidable(t)) + Slack(|Picks(r, ranked, t.fixed, t.recent, t.blueprint)|)
  {
  }

  /** Charges the categories in the order of their priority; `p` is where the kept older history begins. */
  method ChargeBudget(r: Request) returns (memories: seq<Message>, t: Tally, p: nat, ghost ranked: seq<Scored>)
    ensures ChargesUnavoidable(r, t) && ChargesMemories(r, t, ranked) && ChargesOlder(r, t, p)
    ensures memories == Memories(r, t, ranked)
  {
    var recentTokens := TotalTokens(r.history[RecentStart(r.history)..]);
    var blueprintTokens := TotalTokens(SystemMessages(r.blueprints));
    var charged;
    memories, charged, ranked :=
      MemorySections(r, r.systemTokens + r.toolTokens + OVERHEAD, recentTokens, blueprintTokens);
    var olderTokens;
    p, olderTokens := KeepOlder(Older(r), HistoryBudget(r, charged));
    assert ChargesUnavoidable(r, charged);
    OlderIsExtra(r, charged, ranked, olderTokens);
    t := charged.(older := olderTokens);
  }

  lemma OlderIsExtra(r: Request, t: Tally, ranked: seq<Scored>, older: nat)
    ensures ChargesUnavoidable(r, t.(older := older)) == ChargesUnavoidable(r, t)
    ensures ChargesMemories(r, t.(older := older), ranked) == ChargesMemories(r, t, ranked)
    ensures Memories(r, t.(older := older), ranked) == Memories(r, t, ranked)
    ensures HistoryBudget(r, t.(older := older)) == HistoryBudget(r, t)
  {
    OlderIsNoMemory(r, t, ranked, older);
    OlderIsNotInjected(r, t, ranked, older);
  }

  lemma OlderIsNotInjected(r: Request, t: Tally, ranked: seq<Scored>, older: nat)
    ensures Memories(r, t.(older := older), ranked) == Memories(r, t, ranked)
  {
  }

  lemma OlderIsNoMemory(r: Request, t: Tally, ranked: seq<Scored>, older: nat)
    ensures ChargesMemories(r, t.(older := older), ranked) == ChargesMemories(r, t, ranked)
  {
    var t' := t.(older := older);
    var available := SaturatingSub(r.budget, Unavoidable(t));
    assert Unavoidable(t') == Unavoidable(t);
    assert ChargesLegacy(r, t', available) == ChargesLegacy(r, t, available);
  }

  // ---------------------------------------------------------------------
  // The tokens of the request
  // ---------------------------------------------------------------------

  function TextTokens(text: Option<string>): nat {
    if text.Some? then EstimateTokens(text.value) else 0
  }

  /** What the frames of the legacy sections cost beyond the 10 tokens that are charged for each. */
  function FrameExcess(r: Request, available: nat): nat {
    var memory := MemoryCost(r, available);
    var knowledge := KnowledgeCost(r, available, memory.GetOr(0));
    (if memory.Some? then SaturatingSub(EstimateTokens(r.memoryFrame(r.memoryText.value)), memory.value) else 0)
    + (if knowledge.Some?
       then SaturatingSub(EstimateTokens(r.knowledgeFrame(r.knowledgeText.value)), knowledge.value) else 0)
  }

  /** What is sent without being charged: the summary of what was dropped, the digest, and the frames. */
  function Uncharged(r: Request, dropped: bool, available: nat, picks: seq<Pick>): nat {
    (if dropped then EstimateTokens(r.summary) else 0) + TextTokens(r.digest)
    + (if picks == [] then FrameExcess(r, available) else 0)
  }

  lemma {:induction false} OneMessageTokens(text: string)
    ensures TotalTokens([SystemMessage(text)]) == EstimateTokens(text)
  {
    assert [SystemMessage(text)][1..] == [];
  }

  /** A message that is there or not. */
  lemma {:induction false} OptionalTokens(there: bool, text: string, messages: seq<Message>)
    ensures TotalTokens(messages + (if there then [SystemMessage(text)] else [])) ==
            TotalTokens(messages) + (if there then EstimateTokens(text) else 0)
  {
    if there {
      TotalTokensConcat(messages, [SystemMessage(text)]);
      OneMessageTokens(text);
    } else {
      assert messages + [] == messages;
    }
  }

  lemma LegacyTokens(r: Request, t: Tally, available: nat)
    requires ChargesLegacy(r, t, available)
    ensures TotalTokens(LegacyMessages(r, available)) <= t.memory + t.knowledge + t.learning + FrameExcess(r, available)
  {
    var memory := MemoryCost(r, available);
    var knowledge := KnowledgeCost(r, available, memory.GetOr(0));
    var learning := LearningCost(r, available, memory.GetOr(0) + knowledge.GetOr(0));
    var first := if memory.Some? then [SystemMessage(r.memoryFrame(r.memoryText.value))] else [];
    var second := if knowledge.Some? then [SystemMessage(r.knowledgeFrame(r.knowledgeText.value))] else [];
    var third := if learning.Some? then [SystemMessage(r.learningText.value)] else [];
    TotalTokensConcat(first + second, third);
    TotalTokensConcat(first, second);
    if memory.Some? {
      OneMessageTokens(r.memoryFrame(r.memoryText.value));
    }
    if knowledge.Some? {
      OneMessageTokens(r.knowledgeFrame(r.knowledgeText.value));
    }
    if learning.Some? {
      OneMessageTokens(r.learningText.value);
    }
  }

  lemma MemoriesTokens(r: Request, t: Tally, ranked: seq<Scored>)
    requires ChargesMemories(r, t, ranked)
    ensures var picks := Picks(r, ranked, t.fixed, t.recent, t.blueprint);
            TotalTokens(Memories(r, t, ranked)) <= t.lambda + t.memory + t.knowledge + t.learning
              + (if picks == [] then FrameExcess(r, SaturatingSub(r.budget, Unavoidable(t))) else 0)
  {
    var picks := Picks(r, ranked, t.fixed, t.recent, t.blueprint);
    if picks == [] {
      LegacyTokens(r, t, SaturatingSub(r.budget, Unavoidable(t)));
    } else {
      OneMessageTokens(Render(picks));
    }
  }

  lemma {:induction false} InjectedTokens(r: Request, dropped: bool, memories: seq<Message>)
    requires AllText(memories)
    ensures TotalTokens(Injected(r, dropped, memories)) ==
            (if dropped then EstimateTokens(r.summary) else 0) + TextTokens(r.digest)
            + TotalTokens(SystemMessages(r.blueprints)) + TotalTokens(memories)
  {
    var summary := if dropped then [SystemMessage(r.summary)] else [];
    var digest := if r.digest.Some? then [SystemMessage(r.digest.value)] else [];
    TotalTokensConcat(summary + digest + SystemMessages(r.blueprints), memories);
    TotalTokensConcat(summary + digest, SystemMessages(r.blueprints));
    TotalTokensConcat(summary, digest);
    OneMessageTokens(r.summary);
    if r.digest.Some? {
      OneMessageTokens(r.digest.value);
    }
  }

  /** The prompt, the tools, the overhead and the messages that are sent cost at most what is charged, and what is
      sent without being charged. */
  lemma SentTokens(r: Request, t: Tally, p: nat, ranked: seq<Scored>)
    requires ChargesUnavoidable(r, t) && ChargesMemories(r, t, ranked) && ChargesOlder(r, t, p)
    ensures var injected := Injected(r, p > 0, Memories(r, t, ranked));
            var final := FinalMessages(injected, Older(r)[p..], Recent(r.history), r.supportsVision);
            var picks := Picks(r, ranked, t.fixed, t.recent, t.blueprint);
            t.fixed + TotalTokens(final) <=
            Charged(t) + Uncharged(r, p > 0, SaturatingSub(r.budget, Unavoidable(t)), picks)
  {
    var memories := Memories(r, t, ranked);
    FinalTokens(Injected(r, p > 0, memories), Older(r)[p..], Recent(r.history), r.supportsVision);
    InjectedTokens(r, p > 0, memories);
    MemoriesTokens(r, t, ranked);
  }

  // ---------------------------------------------------------------------
  // The skull
  // ---------------------------------------------------------------------

  const CANDIDATE_LIMIT: nat := 500

  /** What is in front of the λ section, with the reserve and the guard. */
  function InFront(r: Request, fixed: nat, recent: nat, blueprint: nat): nat {
    Occupied(r.skull, r.maxOutput, fixed + blueprint, recent)
  }

  predicate AboveGone(th: Thresholds) {
    Tiered(th) && th.cool > GONE_THRESHOLD
  }

  lemma PressureKeepsTiers(budget: nat, maxBudget: nat, base: Thresholds)
    requires AboveGone(base)
    ensures AboveGone(EffectiveThresholds(budget, maxBudget, base))
  {
    var whole := (if maxBudget == 0 then 1 else maxBudget) as real;
    DivMonotone(0.0, budget as real, whole);
  }

  /** The λ section may use exactly what is left, of the window beside a reserve for the answer and a guard of 2%, and
      of the request's budget, whichever is less, and nothing if something is exceeded already. */
  lemma LambdaTakesWhatIsLeft(r: Request, fixed: nat, recent: nat, blueprint: nat)
    ensures var current := CurrentBudget(r, fixed, recent, blueprint);
            var reserve, guard := Min(r.maxOutput, r.skull / 10), r.skull / 50;
            var inRequest := fixed + recent + blueprint + current;
            var inWindow := inRequest + reserve + guard;
            if inWindow <= r.skull && inRequest <= r.budget then inWindow == r.skull || inRequest == r.budget
            else current == 0
  {
  }

  /** The documented invariant for the section that a request gets: it holds for all memories that the query can
      return if and only if it does in the worst case for that budget. */
  lemma RequestFitsSkullIff(r: Request, fixed: nat, recent: nat, blueprint: nat)
    requires r.lambdaEnabled && AboveGone(r.baseThresholds)
    ensures (forall ranked :: Stored(ranked, 500) ==>
               InFront(r, fixed, recent, blueprint) + EstimateTokens(Render(Picks(r, ranked, fixed, recent, blueprint)))
               <= r.skull)
            <==> InFront(r, fixed, recent, blueprint)
                 + LargestSection(CurrentBudget(r, fixed, recent, blueprint), 500) <= r.skull
  {
    var lambdaMax := LambdaBudget(r.skull, r.maxOutput, fixed + blueprint, recent);
    var current := CurrentBudget(r, fixed, recent, blueprint);
    var th := EffectiveThresholds(current, lambdaMax, r.baseThresholds);
    PressureKeepsTiers(current, lambdaMax, r.baseThresholds);
    SkullInvariantIff(th, r.skull, r.maxOutput, fixed + blueprint, recent, current, CANDIDATE_LIMIT);
    forall ranked
      ensures EstimateTokens(Render(Picks(r, ranked, fixed, recent, blueprint))) == SectionCost(ranked, th, current)
    {
    }
  }

  /** It does if the budget of the request, with the reserve and the guard, leaves 376 tokens of the window free. */
  lemma SmallBudgetFits(r: Request, fixed: nat, recent: nat, blueprint: nat)
    requires fixed + recent + blueprint <= r.budget
    requires r.budget + 376 + Occupied(r.skull, r.maxOutput, 0, 0) <= r.skull
    ensures InFront(r, fixed, recent, blueprint)
            + LargestSection(CurrentBudget(r, fixed, recent, blueprint), CANDIDATE_LIMIT) <= r.skull
  {
  }

  /** As with 30,000 tokens for a request and a window of 200,000. */
  lemma DefaultFits(r: Request, fixed: nat, recent: nat, blueprint: nat)
    requires r.budget == 30000 && r.skull == 200000 && fixed + recent + blueprint <= r.budget
    ensures InFront(r, fixed, recent, blueprint)
            + LargestSection(CurrentBudget(r, fixed, recent, blueprint), CANDIDATE_LIMIT) <= r.skull
  {
    SmallBudgetFits(r, fixed, recent, blueprint);
  }

  /** It does not if the request may use all the window leaves, and a memory fits in there. */
  lemma LargeBudgetBreaks(r: Request, fixed: nat, recent: nat, blueprint: nat)
    requires InFront(r, fixed, recent, blueprint) + 33 <= r.skull <= r.budget
    ensures InFront(r, fixed, recent, blueprint)
            + LargestSection(CurrentBudget(r, fixed, recent, blueprint), CANDIDATE_LIMIT) > r.skull
  {
  }

  // ---------------------------------------------------------------------
  // The builder
  // ---------------------------------------------------------------------

  /** Builds the message list. */
  method BuildContext(r: Request)
    returns (messages: seq<Message>, t: Tally, p: nat, ghost memories: seq<Message>, ghost ranked: seq<Scored>)
    ensures ChargesUnavoidable(r, t) && ChargesMemories(r, t, ranked) && ChargesOlder(r, t, p)
    ensures memories == Memories(r, t, ranked)
    ensures messages == FinalMessages(Injected(r, p > 0, memories), Older(r)[p..], Recent(r.history), r.supportsVision)
    ensures Unmixed(Recent(r.history)) ==> NoOrphans(messages)
    ensures t.fixed == r.systemTokens + r.toolTokens + 500 && t.recent == TotalTokens(Recent(r.history))
    ensures t.older == TotalTokens(Older(r)[p..]) && LongestFit(Older(r), HistoryBudget(r, t), p)
    ensures var sent := (if p > 0 then [Message(System, Text(r.summary))] else [])
                        + (if r.digest.Some? then [Message(System, Text(r.digest.value))] else [])
                        + SystemMessages(r.blueprints) + memories
                        + StrippedOlder(Older(r)[p..]) + Survivors(Recent(r.history));
            SentAs(messages, sent, r.supportsVision)
    ensures var picks := Picks(r, ranked, t.fixed, t.recent, t.blueprint);
            && Charged(t) <= Max(r.budget, Unavoidable(t)) + (if picks == [] then 0 else 3 * (|picks| + 2) / 4)
            && t.fixed + TotalTokens(messages) <=
               Charged(t) + Uncharged(r, p > 0, SaturatingSub(r.budget, Unavoidable(t)), picks)
  {
    var found;
    found, t, p, ranked := ChargeBudget(r);
    memories := found;
    messages := AssembleMessages(Injected(r, p > 0, found), Older(r)[p..], r.history[RecentStart(r.history)..],
                                 r.supportsVision);
    ChargedWithinSlack(r, t, ranked);
    SentTokens(r, t, p, ranked);
    SentIs(Injected(r, p > 0, found), Older(r)[p..], Recent(r.history), r.supportsVision);
    if Unmixed(Recent(r.history)) {
      FinalListIsPaired(Injected(r, p > 0, found), Older(r)[p..], Recent(r.history), r.supportsVision);
    }
  }
}
