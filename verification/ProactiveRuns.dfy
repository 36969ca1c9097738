/** What the proactive rules guarantee over whole runs. */
module ProactiveRuns {
  import opened Wrappers
  import opened Proactive

  datatype Call = Call(event: Event, at: nat)

  /** A run: calls with a clock that never goes back. */
  ghost predicate IsRun(run: seq<Call>) {
    forall i, j :: 0 <= i <= j < |run| ==> run[i].at <= run[j].at
  }

  /** The fields before call `k` of a manager created at `start`. */
  ghost function Before(start: nat, run: seq<Call>, k: nat): Fields
    requires k <= |run|
  {
    if k == 0 then Fields([], false, 10, 0, start)
    else After(Before(start, run, k - 1), run[k - 1].event, run[k - 1].at)
  }

  ghost function ActionsAt(start: nat, run: seq<Call>, k: nat): (actions: seq<Action>)
    requires k < |run|
  {
    Actions(Before(start, run, k), run[k].event, run[k].at)
  }

  // ---------------------------------------------------------------------
  // One evaluation
  // ---------------------------------------------------------------------

  /** What a report has in common with the trigger of a rule that it fires. */
  ghost predicate Fires(report: Trigger, trigger: Trigger) {
    match report
    case FileChanged(path, event) => trigger == FileChanged(path, event)
    case CronSchedule(_, name) => exists expression :: trigger == CronSchedule(expression, name)
    case Webhook(endpoint, _) => exists payload :: trigger == Webhook(endpoint, payload)
    case Threshold(metric, value, condition) =>
      && (exists v, c :: trigger == Threshold(metric, v, c))
      && (condition == Above ==> value > 0.0) && (condition == Below ==> value < LARGEST_FLOAT)
  }

  lemma MatchesIff(report: Trigger, trigger: Trigger)
    ensures Matches(report, trigger) <==> Fires(report, trigger)
  {
    match trigger
    case FileChanged(_, _) =>
    case CronSchedule(expression, name) => assert trigger == CronSchedule(expression, name);
    case Webhook(endpoint, payload) => assert trigger == Webhook(endpoint, payload);
    case Threshold(metric, v, c) => assert trigger == Threshold(metric, v, c);
  }

  /** Enabled, fired by the report, and never triggered, triggered a cooldown ago, or with a cooldown that the clock
      arithmetic cannot represent. */
  ghost predicate MayAct(rule: Rule, report: Trigger, now: nat) {
    && rule.enabled && Fires(report, rule.trigger)
    && (rule.lastTriggered.None? || now >= rule.lastTriggered.value + rule.cooldown
        || (rule.cooldown > MAX_DURATION && now >= rule.lastTriggered.value))
  }

  lemma EligibleIff(rule: Rule, report: Trigger, now: nat)
    ensures Eligible(rule, report, now) <==> MayAct(rule, report, now)
  {
    MatchesIff(report, rule.trigger);
  }

  /** Wherever a rule is in the list, it acts exactly if it may, in the order of the list, with its own name and prompt
      and the report that fired it. */
  lemma {:induction false} RuleActsIff(above: seq<Rule>, rule: Rule, below: seq<Rule>, report: Trigger, now: nat)
    ensures Fired(above + [rule] + below, report, now) ==
            Fired(above, report, now)
            + (if MayAct(rule, report, now)
               then [Action(rule.id, rule.name, report, rule.actionPrompt, rule.requiresConfirmation, now)] else [])
            + Fired(below, report, now)
  {
    var all := above + [rule] + below;
    EligibleIff(rule, report, now);
    if below == [] {
      assert all[..|all| - 1] == above && all[|all| - 1] == rule;
    } else {
      var front := below[..|below| - 1];
      assert all[..|all| - 1] == above + [rule] + front && all[|all| - 1] == below[|below| - 1];
      RuleActsIff(above, rule, front, report, now);
    }
  }

  /** An evaluation returns these actions unless the manager is disabled or the cap is used up, with the counter back at
      0 if the window is an hour old; and it marks exactly the rules that act. */
  lemma {:induction false} EvaluationIs(f: Fields, report: Trigger, now: nat)
    ensures var used := if now >= f.hourStart + 3_600_000_000_000 then 0 else f.actionsThisHour;
            var actions, f' := Actions(f, Evaluate(report), now), After(f, Evaluate(report), now);
            && actions == (if f.enabled && used < f.max then Fired(f.rules, report, now) else [])
            && |f'.rules| == |f.rules|
            && (forall i :: 0 <= i < |f.rules| ==>
                  f'.rules[i] == if f.enabled && used < f.max && MayAct(f.rules[i], report, now)
                                 then f.rules[i].(lastTriggered := Some(now)) else f.rules[i])
            && f' == f.(rules := f'.rules, hourStart := f'.hourStart, actionsThisHour := f'.actionsThisHour)
  {
    forall i | 0 <= i < |f.rules| ensures Eligible(f.rules[i], report, now) <==> MayAct(f.rules[i], report, now) {
      EligibleIff(f.rules[i], report, now);
    }
  }

  // ---------------------------------------------------------------------
  // Windows
  // ---------------------------------------------------------------------

  /** Call `i` begins a new window: an evaluation an hour or more after the last one began. */
  ghost predicate NewWindow(start: nat, run: seq<Call>, i: nat) {
    && i < |run| && run[i].event.Evaluate? && Before(start, run, i).enabled
    && run[i].at >= Before(start, run, i).hourStart + 3_600_000_000_000
  }

  /** The actions recorded by the calls from `i` up to, not including, `k`. */
  ghost function RecordedSince(run: seq<Call>, i: nat, k: nat): (n: nat)
    requires i <= k <= |run|
  {
    if k == i then 0 else RecordedSince(run, i, k - 1) + (if run[k - 1].event.RecordAction? then 1 else 0)
  }

  /** Within a window the counter is the number of actions recorded since it began. */
  lemma {:induction false} CounterIsRecorded(start: nat, run: seq<Call>, i: nat, k: nat)
    requires i <= k <= |run| && forall j: nat :: i <= j < k ==> !NewWindow(start, run, j)
    ensures Before(start, run, k).hourStart == Before(start, run, i).hourStart
    ensures Before(start, run, k).actionsThisHour == Before(start, run, i).actionsThisHour + RecordedSince(run, i, k)
    decreases k
  {
    if k > i {
      CounterIsRecorded(start, run, i, k - 1);
      assert !NewWindow(start, run, k - 1);
    }
  }

  lemma {:induction false} WindowBegins(start: nat, run: seq<Call>, i: nat)
    requires NewWindow(start, run, i)
    ensures Before(start, run, i + 1).hourStart == run[i].at && Before(start, run, i + 1).actionsThisHour == 0
  {
  }

  lemma {:induction false} WindowMovesOn(start: nat, run: seq<Call>, i: nat, k: nat)
    requires IsRun(run) && i <= k <= |run|
    ensures Before(start, run, i).hourStart <= Before(start, run, k).hourStart
    decreases k
  {
    if k > i {
      WindowMovesOn(start, run, i, k - 1);
    }
  }

  /** Windows begin at least an hour apart. */
  lemma WindowsAreHours(start: nat, run: seq<Call>, i: nat, k: nat)
    requires IsRun(run) && i < k && NewWindow(start, run, i) && NewWindow(start, run, k)
    ensures run[k].at >= run[i].at + 3_600_000_000_000
  {
    WindowBegins(start, run, i);
    WindowMovesOn(start, run, i + 1, k);
  }

  // ---------------------------------------------------------------------
  // Cooldowns
  // ---------------------------------------------------------------------

  /** Call `l` registers a rule with this id. */
  ghost predicate Registers(run: seq<Call>, l: nat, id: string) {
    l < |run| && run[l].event.AddRule? && run[l].event.rule.id == id
  }

  /** Ids are unique: no two calls register the same one. */
  ghost predicate RegisteredOnce(run: seq<Call>) {
    forall l: nat, m: nat, id :: Registers(run, l, id) && Registers(run, m, id) ==> l == m
  }

  /** `rule` was registered, with its cooldown, before call `k`. */
  ghost predicate FromRegistration(run: seq<Call>, k: nat, rule: Rule) {
    exists l: nat :: l < k && Registers(run, l, rule.id) && run[l].event.rule.cooldown == rule.cooldown
  }

  ghost predicate AllRegistered(run: seq<Call>, k: nat, rules: seq<Rule>) {
    forall rule :: rule in rules ==> FromRegistration(run, k, rule)
  }

  /** An id stands for one rule. */
  ghost predicate Coherent(rules: seq<Rule>) {
    forall r, s :: r in rules && s in rules && r.id == s.id ==> r == s
  }

  /** Whoever has this id was last triggered at `at` or later. */
  ghost predicate TriggeredSince(rules: seq<Rule>, id: string, at: nat) {
    forall rule :: rule in rules && rule.id == id ==> rule.lastTriggered.Some? && rule.lastTriggered.value >= at
  }

  lemma {:induction false} WithoutKeeps(rules: seq<Rule>, id: string, rule: Rule)
    ensures rule in Without(rules, id) <==> rule in rules && rule.id != id
  {
    if rules != [] {
      WithoutKeeps(rules[..|rules| - 1], id, rule);
      assert rules == rules[..|rules| - 1] + [rules[|rules| - 1]];
    }
  }

  lemma MarkedFrom(rules: seq<Rule>, trigger: Trigger, now: nat, marked: Rule) returns (rule: Rule)
    requires marked in Marked(rules, trigger, now)
    ensures rule in rules && marked == Mark(rule, trigger, now)
  {
    var i :| 0 <= i < |rules| && Marked(rules, trigger, now)[i] == marked;
    rule := rules[i];
  }

  lemma {:induction false} FiredFrom(rules: seq<Rule>, trigger: Trigger, now: nat, action: Action) returns (rule: Rule)
    requires action in Fired(rules, trigger, now)
    ensures rule in rules && Eligible(rule, trigger, now) && action == ActionFor(rule, trigger, now)
  {
    var n := |rules| - 1;
    if action in Fired(rules[..n], trigger, now) {
      rule := FiredFrom(rules[..n], trigger, now, action);
    } else {
      rule := rules[n];
    }
  }

  /** Where a rule after a call comes from: it was there, was just marked, or was just registered. */
  lemma RuleFrom(f: Fields, event: Event, now: nat, rule: Rule) returns (origin: Rule)
    requires rule in After(f, event, now).rules
    ensures if origin in f.rules then rule == origin || (event.Evaluate? && rule == Mark(origin, event.trigger, now))
            else event == AddRule(rule)
  {
    origin := rule;
    match event
    case RemoveRule(id) => WithoutKeeps(f.rules, id, rule);
    case Evaluate(trigger) =>
      if rule !in f.rules {
        origin := MarkedFrom(f.rules, trigger, now, rule);
      }
    case _ =>
  }

  lemma {:induction false} RulesAreRegistered(start: nat, run: seq<Call>, k: nat)
    requires k <= |run|
    ensures AllRegistered(run, k, Before(start, run, k).rules)
  {
    if k > 0 {
      RulesAreRegistered(start, run, k - 1);
      var f, call := Before(start, run, k - 1), run[k - 1];
      forall rule | rule in After(f, call.event, call.at).rules ensures FromRegistration(run, k, rule) {
        var origin := RuleFrom(f, call.event, call.at, rule);
        if origin in f.rules {
          assert FromRegistration(run, k - 1, origin);
        } else {
          assert Registers(run, k - 1, rule.id);
        }
      }
    }
  }

  lemma CoherentStep(f: Fields, event: Event, now: nat)
    requires Coherent(f.rules)
    requires event.AddRule? ==> forall rule :: rule in f.rules ==> rule.id != event.rule.id
    ensures Coherent(After(f, event, now).rules)
  {
    forall r, s | r in After(f, event, now).rules && s in After(f, event, now).rules && r.id == s.id ensures r == s {
      match event
      case RemoveRule(id) =>
        WithoutKeeps(f.rules, id, r);
        WithoutKeeps(f.rules, id, s);
      case Evaluate(trigger) =>
        if f.enabled && Open(f, now) {
          var r0 := MarkedFrom(f.rules, trigger, now, r);
          var s0 := MarkedFrom(f.rules, trigger, now, s);
        }
      case _ =>
    }
  }

  lemma {:induction false} RulesAreCoherent(start: nat, run: seq<Call>, k: nat)
    requires RegisteredOnce(run) && k <= |run|
    ensures Coherent(Before(start, run, k).rules)
  {
    if k > 0 {
      RulesAreCoherent(start, run, k - 1);
      RulesAreRegistered(start, run, k - 1);
      var f, call := Before(start, run, k - 1), run[k - 1];
      if call.event.AddRule? {
        assert Registers(run, k - 1, call.event.rule.id);
        forall rule | rule in f.rules ensures rule.id != call.event.rule.id {
          assert FromRegistration(run, k - 1, rule);
          var l: nat :| l < k - 1 && Registers(run, l, rule.id);
        }
      }
      CoherentStep(f, call.event, call.at);
    }
  }

  lemma MarkKeepsTriggered(f: Fields, event: Event, now: nat, id: string, at: nat)
    requires TriggeredSince(f.rules, id, at) && at <= now && (event.AddRule? ==> event.rule.id != id)
    ensures TriggeredSince(After(f, event, now).rules, id, at)
  {
    forall rule | rule in After(f, event, now).rules && rule.id == id
      ensures rule.lastTriggered.Some? && rule.lastTriggered.value >= at
    {
      var origin := RuleFrom(f, event, now, rule);
    }
  }

  /** A rule that acts is marked: in coherent rules everyone with its id is. */
  lemma ActingMarks(f: Fields, event: Event, now: nat, action: Action) returns (rule: Rule)
    requires Coherent(f.rules) && action in Actions(f, event, now)
    ensures rule in f.rules && rule.id == action.ruleId && CooledDown(rule, now)
    ensures TriggeredSince(After(f, event, now).rules, rule.id, now)
  {
    rule := FiredFrom(f.rules, event.trigger, now, action);
    forall marked | marked in After(f, event, now).rules && marked.id == rule.id
      ensures marked == Mark(rule, event.trigger, now)
    {
      var origin := MarkedFrom(f.rules, event.trigger, now, marked);
    }
  }

  lemma {:induction false} StaysTriggered(start: nat, run: seq<Call>, i: nat, k: nat, id: string, l: nat)
    requires IsRun(run) && RegisteredOnce(run) && l < i < k <= |run| && Registers(run, l, id)
    requires TriggeredSince(Before(start, run, i + 1).rules, id, run[i].at)
    ensures TriggeredSince(Before(start, run, k).rules, id, run[i].at)
    decreases k
  {
    if k > i + 1 {
      StaysTriggered(start, run, i, k - 1, id, l);
      assert Registers(run, k - 1, id) ==> k - 1 == l;
      MarkKeepsTriggered(Before(start, run, k - 1), run[k - 1].event, run[k - 1].at, id, run[i].at);
    }
  }

  /** Two firings of a rule are at least its cooldown apart. */
  lemma FiringsAreSpacedOut(start: nat, run: seq<Call>, i: nat, j: nat, first: Action, second: Action)
    requires IsRun(run) && RegisteredOnce(run) && i < j < |run|
    requires first in ActionsAt(start, run, i) && second in ActionsAt(start, run, j) && first.ruleId == second.ruleId
    ensures exists l: nat :: l < i && Registers(run, l, first.ruleId)
                        && run[j].at - run[i].at >= EffectiveCooldown(run[l].event.rule.cooldown)
  {
    RulesAreCoherent(start, run, i);
    RulesAreRegistered(start, run, i);
    var rule := ActingMarks(Before(start, run, i), run[i].event, run[i].at, first);
    assert FromRegistration(run, i, rule);
    var l: nat :| l < i && Registers(run, l, rule.id) && run[l].event.rule.cooldown == rule.cooldown;
    StaysTriggered(start, run, i, j, rule.id, l);
    RulesAreCoherent(start, run, j);
    RulesAreRegistered(start, run, j);
    var again := ActingMarks(Before(start, run, j), run[j].event, run[j].at, second);
    assert FromRegistration(run, j, again);
    assert again.cooldown == rule.cooldown;
  }

  /** The cooldown that was set is respected exactly if the clock arithmetic can represent it. */
  lemma CooldownRespectedIff(rule: Rule)
    requires rule.lastTriggered.Some?
    ensures (forall now: nat :: now >= rule.lastTriggered.value && CooledDown(rule, now) ==>
               now - rule.lastTriggered.value >= rule.cooldown) <==> rule.cooldown <= MAX_DURATION
  {
    var last := rule.lastTriggered.value;
    assert rule.cooldown > MAX_DURATION ==> CooledDown(rule, last);
  }

  /** The value is on the side of the threshold that the condition names. */
  predicate Crosses(value: real, threshold: real, condition: ThresholdCondition) {
    match condition
    case Above => value > threshold
    case Below => value < threshold
    case Equals => value == threshold
  }

  /** A metric rule is meant to fire when a value crosses its threshold. For all values of the metric, reported with
      the rule's condition, it does if and only if the threshold is 0 for "above" or the largest float for "below". */
  lemma FiresWhenCrossedIff(metric: string, threshold: real, condition: ThresholdCondition)
    ensures (forall value: real ::
               Matches(Threshold(metric, value, condition), Threshold(metric, threshold, condition)) <==>
                 Crosses(value, threshold, condition))
            <==> (condition.Above? && threshold == 0.0) || (condition.Below? && threshold == LARGEST_FLOAT)
  {
    var rule := Threshold(metric, threshold, condition);
    var limit := if condition.Above? then 0.0 else LARGEST_FLOAT;
    // A value between the threshold and the limit that is looked at, or any other value for "equals".
    var between := if condition.Equals? then threshold + 1.0 else (threshold + limit) / 2.0;
    if !condition.Equals? && threshold == limit {
      forall value: real
        ensures Matches(Threshold(metric, value, condition), rule) <==> Crosses(value, threshold, condition)
      {
      }
    } else {
      assert Matches(Threshold(metric, between, condition), rule) != Crosses(between, threshold, condition);
    }
  }

  /** Over all reports of the metric, whatever condition they carry, no threshold is respected. */
  lemma SomeReportMisfires(metric: string, threshold: real, condition: ThresholdCondition)
    ensures exists value: real, reported: ThresholdCondition ::
              Matches(Threshold(metric, value, reported), Threshold(metric, threshold, condition)) !=
                Crosses(value, threshold, condition)
  {
    var rule := Threshold(metric, threshold, condition);
    // Every report "equals" fires the rule.
    var value := if condition.Above? then threshold - 1.0 else threshold + 1.0;
    assert Matches(Threshold(metric, value, Equals), rule) && !Crosses(value, threshold, condition);
  }

  /** A rule for a load above 90 fires on a load of 5. */
  lemma FiresBelowItsThreshold(metric: string)
    ensures Matches(Threshold(metric, 5.0, Above), Threshold(metric, 90.0, Above)) && !Crosses(5.0, 90.0, Above)
  {
  }

  // ---------------------------------------------------------------------
  // The hourly cap
  // ---------------------------------------------------------------------

  /** Actions returned, less those recorded, before call `k`. */
  ghost function Pending(start: nat, run: seq<Call>, k: nat): int
    requires k <= |run|
  {
    if k == 0 then 0
    else Pending(start, run, k - 1) + |ActionsAt(start, run, k - 1)| - (if run[k - 1].event.RecordAction? then 1 else 0)
  }

  /** Every returned action is recorded before the next evaluation, and nothing else is. */
  ghost predicate Recorded(start: nat, run: seq<Call>) {
    forall k: nat :: k < |run| ==> RecordedAt(start, run, k)
  }

  ghost predicate RecordedAt(start: nat, run: seq<Call>, k: nat)
    requires k < |run|
  {
    && (run[k].event.Evaluate? ==> Pending(start, run, k) == 0)
    && (run[k].event.RecordAction? ==> Pending(start, run, k) > 0)
  }

  /** At every evaluation the cap is at most `max` and there are at most `rules` rules. */
  ghost predicate Within(start: nat, run: seq<Call>, max: nat, rules: nat) {
    forall k: nat :: k < |run| ==> WithinAt(start, run, max, rules, k)
  }

  ghost predicate WithinAt(start: nat, run: seq<Call>, max: nat, rules: nat, k: nat)
    requires k < |run|
  {
    run[k].event.Evaluate? ==> Before(start, run, k).max <= max && |Before(start, run, k).rules| <= rules
  }

  function Bound(max: nat, rules: nat): nat {
    if max == 0 || rules == 0 then 0 else max - 1 + rules
  }

  ghost predicate WithinBound(f: Fields, pending: int, max: nat, rules: nat) {
    pending >= 0 && f.actionsThisHour + pending <= Bound(max, rules)
  }

  lemma CapStep(f: Fields, event: Event, now: nat, pending: int, max: nat, rules: nat)
    requires WithinBound(f, pending, max, rules)
    requires event.Evaluate? ==> pending == 0 && f.max <= max && |f.rules| <= rules
    requires event.RecordAction? ==> pending > 0
    ensures WithinBound(After(f, event, now),
                        pending + |Actions(f, event, now)| - (if event.RecordAction? then 1 else 0), max, rules)
  {
  }

  /** The counter of the window never exceeds `max - 1` plus the number of rules, and stays 0 for a cap of 0. */
  lemma {:induction false} CapHolds(start: nat, run: seq<Call>, max: nat, rules: nat, k: nat)
    requires Recorded(start, run) && Within(start, run, max, rules) && k <= |run|
    ensures WithinBound(Before(start, run, k), Pending(start, run, k), max, rules)
  {
    if k > 0 {
      CapHolds(start, run, max, rules, k - 1);
      assert RecordedAt(start, run, k - 1) && WithinAt(start, run, max, rules, k - 1);
      CapStep(Before(start, run, k - 1), run[k - 1].event, run[k - 1].at, Pending(start, run, k - 1), max, rules);
    }
  }

  /** The places of the rules that would act if there were no cap. */
  ghost function EligibleAt(rules: seq<Rule>, trigger: Trigger, now: nat): (places: set<nat>) {
    set i: nat | i < |rules| && Eligible(rules[i], trigger, now)
  }

  ghost function EligibleCount(rules: seq<Rule>, trigger: Trigger, now: nat): nat {
    |EligibleAt(rules, trigger, now)|
  }

  lemma EligibleAtLast(rules: seq<Rule>, last: nat, trigger: Trigger, now: nat)
    requires |rules| == last + 1
    ensures EligibleCount(rules, trigger, now) ==
            EligibleCount(rules[..last], trigger, now) + (if Eligible(rules[last], trigger, now) then 1 else 0)
  {
    PlacesAtLast(rules, rules[..last], last, trigger, now);
    OnePlaceMore(EligibleAt(rules, trigger, now), EligibleAt(rules[..last], trigger, now), last,
                 Eligible(rules[last], trigger, now));
  }

  lemma PlacesAtLast(rules: seq<Rule>, front: seq<Rule>, last: nat, trigger: Trigger, now: nat)
    requires |rules| == last + 1 && front == rules[..last]
    ensures forall i: nat :: i in EligibleAt(rules, trigger, now) <==>
              i in EligibleAt(front, trigger, now) || (i == last && Eligible(rules[last], trigger, now))
    ensures last !in EligibleAt(front, trigger, now)
  {
  }

  lemma OnePlaceMore(places: set<nat>, before: set<nat>, last: nat, more: bool)
    requires last !in before && forall i: nat :: i in places <==> i in before || (i == last && more)
    ensures |places| == |before| + (if more then 1 else 0)
  {
    assert places == before + (if more then {last} else {});
  }

  lemma {:induction false} FiredAtLast(rules: seq<Rule>, last: nat, trigger: Trigger, now: nat)
    requires |rules| == last + 1
    ensures |Fired(rules, trigger, now)| ==
            |Fired(rules[..last], trigger, now)| + (if Eligible(rules[last], trigger, now) then 1 else 0)
  {
  }

  lemma {:induction false} FiredAreEligible(rules: seq<Rule>, trigger: Trigger, now: nat)
    ensures |Fired(rules, trigger, now)| == EligibleCount(rules, trigger, now)
  {
    if rules == [] {
      assert EligibleAt(rules, trigger, now) == {};
    } else {
      var last := |rules| - 1;
      FiredAreEligible(rules[..last], trigger, now);
      EligibleAtLast(rules, last, trigger, now);
      FiredAtLast(rules, last, trigger, now);
    }
  }

  /** More rules are eligible than are left of the cap, and it is not used up: within an evaluation the counter stands
      still, so all of them act. */
  ghost predicate Overshoots(f: Fields, trigger: Trigger, now: nat) {
    && f.enabled
    && var used := WindowChecked(f, now).actionsThisHour;
       used < f.max && EligibleCount(f.rules, trigger, now) > f.max - used
  }

  /** The cap is exceeded by an evaluation exactly when it was before, or the evaluation overshoots. */
  lemma EvaluationExceedsCapIff(f: Fields, trigger: Trigger, now: nat)
    requires f.enabled
    ensures var used := WindowChecked(f, now).actionsThisHour;
            used + |Actions(f, Evaluate(trigger), now)| > f.max <==> used > f.max || Overshoots(f, trigger, now)
  {
    FiredAreEligible(f.rules, trigger, now);
  }

  /** Counter and pending actions together exceed the cap before call `k`. */
  ghost predicate Over(start: nat, run: seq<Call>, k: nat)
    requires k <= |run|
  {
    Before(start, run, k).actionsThisHour + Pending(start, run, k) > Before(start, run, k).max
  }

  /** Call `i` is an evaluation that overshoots, or sets the cap below what is used. */
  ghost predicate BreaksCap(start: nat, run: seq<Call>, i: nat)
    requires i < |run|
  {
    var f := Before(start, run, i);
    match run[i].event
    case Evaluate(trigger) => Overshoots(f, trigger, run[i].at)
    case SetMax(max) => f.actionsThisHour + Pending(start, run, i) > max
    case _ => false
  }

  lemma BreakingIsOver(start: nat, run: seq<Call>, i: nat)
    requires i < |run| && RecordedAt(start, run, i) && BreaksCap(start, run, i)
    ensures Over(start, run, i + 1)
  {
    if run[i].event.Evaluate? {
      EvaluationExceedsCapIff(Before(start, run, i), run[i].event.trigger, run[i].at);
    }
  }

  lemma NotBrokenNotOver(start: nat, run: seq<Call>, i: nat)
    requires i < |run| && RecordedAt(start, run, i) && !BreaksCap(start, run, i) && !Over(start, run, i)
    ensures !Over(start, run, i + 1)
  {
    var f := Before(start, run, i);
    if run[i].event.Evaluate? && f.enabled {
      EvaluationExceedsCapIff(f, run[i].event.trigger, run[i].at);
    }
  }

  /** Over whole runs in which actions are recorded in time, the cap is ever exceeded if and only if some evaluation
      overshoots, or the cap is set below what is used already. */
  lemma CapExceededIff(start: nat, run: seq<Call>)
    requires Recorded(start, run)
    ensures (exists k: nat :: k <= |run| && Over(start, run, k)) <==>
              exists i: nat :: i < |run| && BreaksCap(start, run, i)
  {
    if i: nat :| i < |run| && BreaksCap(start, run, i) {
      assert RecordedAt(start, run, i);
      BreakingIsOver(start, run, i);
    } else {
      for k := 0 to |run|
        invariant forall j: nat :: j <= k ==> !Over(start, run, j)
      {
        assert RecordedAt(start, run, k) && !BreaksCap(start, run, k);
        NotBrokenNotOver(start, run, k);
      }
    }
  }

  /** It does happen: two rules for one trigger act together under a cap of one. */
  lemma CapCanBeExceeded(trigger: Trigger, start: nat)
    requires trigger.Webhook?
    ensures var rule := Rule("a", "first", trigger, "act", true, false, 0, None);
            var other := rule.(id := "b", name := "second");
            var run := [Call(Enable, start), Call(SetMax(1), start), Call(AddRule(rule), start),
                        Call(AddRule(other), start), Call(Evaluate(trigger), start)];
            |ActionsAt(start, run, 4)| == 2
  {
    var rule := Rule("a", "first", trigger, "act", true, false, 0, None);
    var other := rule.(id := "b", name := "second");
    var run := [Call(Enable, start), Call(SetMax(1), start), Call(AddRule(rule), start),
                Call(AddRule(other), start), Call(Evaluate(trigger), start)];
    assert Before(start, run, 1) == Fields([], true, 10, 0, start);
    assert Before(start, run, 2) == Fields([], true, 1, 0, start);
    assert Before(start, run, 3) == Fields([rule], true, 1, 0, start);
    assert Before(start, run, 4) == Fields([rule, other], true, 1, 0, start);
    assert [rule, other][..1] == [rule];
    assert Fired([rule], trigger, start) == [ActionFor(rule, trigger, start)];
    assert Fired([rule, other], trigger, start) == [ActionFor(rule, trigger, start), ActionFor(other, trigger, start)];
  }
}
