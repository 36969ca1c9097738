/** Proactive trigger rules: cooldowns and the hourly cap, over whole runs with a clock. Times are in
    nanoseconds. */
module Proactive {
  import opened Wrappers

  const HOUR: nat := 3_600_000_000_000
  /** The longest duration the clock arithmetic represents: i64::MAX milliseconds. */
  const MAX_DURATION: nat := 0x7FFF_FFFF_FFFF_FFFF * 1_000_000

  datatype FileEvent = Created | Modified | Deleted
  datatype ThresholdCondition = Above | Below | Equals

  /** Metric values are reals here. */
  datatype Trigger =
    | FileChanged(path: string, event: FileEvent)
    | CronSchedule(expression: string, name: string)
    | Webhook(endpoint: string, payload: string)
    | Threshold(metric: string, value: real, condition: ThresholdCondition)

  datatype Rule = Rule(
    id: string, name: string, trigger: Trigger, actionPrompt: string, enabled: bool, requiresConfirmation: bool,
    cooldown: nat, lastTriggered: Option<nat>)

  datatype Action = Action(
    ruleId: string, ruleName: string, trigger: Trigger, actionPrompt: string, requiresConfirmation: bool, at: nat)

  const TWO_TO_64: nat := 0x1_0000_0000_0000_0000
  const TWO_TO_320: nat := TWO_TO_64 * TWO_TO_64 * TWO_TO_64 * TWO_TO_64 * TWO_TO_64
  /** The largest 64-bit float: 53 ones, shifted by 971. */
  const LARGEST_FLOAT: real := (0x1F_FFFF_FFFF_FFFF * 0x800 * TWO_TO_320 * TWO_TO_320 * TWO_TO_320) as real

  /** For a metric the incoming trigger decides alone: the pattern's own value and condition are not looked at. */
  predicate Matches(incoming: Trigger, pattern: Trigger) {
    match (incoming, pattern)
    case (FileChanged(path, event), FileChanged(patternPath, patternEvent)) =>
      path == patternPath && event == patternEvent
    case (CronSchedule(_, name), CronSchedule(_, patternName)) => name == patternName
    case (Webhook(endpoint, _), Webhook(patternEndpoint, _)) => endpoint == patternEndpoint
    case (Threshold(metric, value, condition), Threshold(patternMetric, _, _)) =>
      metric == patternMetric
      && (match condition
          case Above => value > 0.0
          case Below => value < LARGEST_FLOAT
          case Equals => true)
    case _ => false
  }

  /** A cooldown that the clock arithmetic cannot represent counts as none. */
  function EffectiveCooldown(cooldown: nat): nat {
    if cooldown <= MAX_DURATION then cooldown else 0
  }

  predicate CooledDown(rule: Rule, now: nat) {
    rule.lastTriggered.None? || now - rule.lastTriggered.value >= EffectiveCooldown(rule.cooldown)
  }

  /** Enabled, matching and cooled down: all that is left is the hourly cap. */
  predicate Eligible(rule: Rule, trigger: Trigger, now: nat) {
    rule.enabled && Matches(trigger, rule.trigger) && CooledDown(rule, now)
  }

  function ActionFor(rule: Rule, trigger: Trigger, now: nat): Action {
    Action(rule.id, rule.name, trigger, rule.actionPrompt, rule.requiresConfirmation, now)
  }

  function Fired(rules: seq<Rule>, trigger: Trigger, now: nat): (actions: seq<Action>)
    ensures |actions| <= |rules|
  {
    if rules == [] then []
    else
      var last := rules[|rules| - 1];
      Fired(rules[..|rules| - 1], trigger, now)
      + (if Eligible(last, trigger, now) then [ActionFor(last, trigger, now)] else [])
  }

  function Mark(rule: Rule, trigger: Trigger, now: nat): Rule {
    if Eligible(rule, trigger, now) then rule.(lastTriggered := Some(now)) else rule
  }

  function Marked(rules: seq<Rule>, trigger: Trigger, now: nat): (marked: seq<Rule>) {
    seq(|rules|, i requires 0 <= i < |rules| => Mark(rules[i], trigger, now))
  }

  function Without(rules: seq<Rule>, id: string): (kept: seq<Rule>)
    ensures |kept| <= |rules|
  {
    if rules == [] then []
    else
      var last := rules[|rules| - 1];
      Without(rules[..|rules| - 1], id) + (if last.id == id then [] else [last])
  }

  lemma {:induction false} LastRule(rules: seq<Rule>, last: Rule, id: string)
    ensures Without(rules + [last], id) == Without(rules, id) + (if last.id == id then [] else [last])
  {
    assert (rules + [last])[..|rules|] == rules;
  }

  lemma Regrouped<T>(a: seq<T>, b: seq<T>, c: seq<T>, d: seq<T>)
    ensures a + b + (c + d) == (a + b + c) + d
  {
  }

  /** Exactly the rules with the id go, wherever they are, and the others stay in order. */
  lemma {:induction false} RulesGo(above: seq<Rule>, rule: Rule, below: seq<Rule>, id: string)
    ensures Without(above + [rule] + below, id) ==
            Without(above, id) + (if rule.id == id then [] else [rule]) + Without(below, id)
  {
    LastRule(above, rule, id);
    if below == [] {
      assert above + [rule] + below == above + [rule];
    } else {
      var front, last := below[..|below| - 1], below[|below| - 1];
      assert below == front + [last];
      Regrouped(above, [rule], front, [last]);
      LastRule(above + [rule] + front, last, id);
      LastRule(front, last, id);
      RulesGo(above, rule, front, id);
      Regrouped(Without(above, id), if rule.id == id then [] else [rule], Without(front, id),
                if last.id == id then [] else [last]);
    }
  }

  lemma {:induction false} WithoutNone(rules: seq<Rule>, id: string)
    ensures (forall i :: 0 <= i < |rules| ==> rules[i].id != id) ==> Without(rules, id) == rules
  {
    if rules != [] {
      WithoutNone(rules[..|rules| - 1], id);
      assert rules == rules[..|rules| - 1] + [rules[|rules| - 1]];
    }
  }

  /** The fields of a manager as a value. */
  datatype Fields = Fields(rules: seq<Rule>, enabled: bool, max: nat, actionsThisHour: nat, hourStart: nat)

  function WindowChecked(f: Fields, now: nat): Fields {
    if now - f.hourStart >= HOUR then f.(hourStart := now, actionsThisHour := 0) else f
  }

  /** Whether the evaluation at `now` lets rules act. */
  predicate Open(f: Fields, now: nat) {
    f.enabled && WindowChecked(f, now).actionsThisHour < f.max
  }

  datatype Event =
    | Enable | Disable | SetMax(max: nat) | AddRule(rule: Rule) | RemoveRule(id: string)
    | Evaluate(trigger: Trigger) | RecordAction

  function Actions(f: Fields, event: Event, now: nat): (actions: seq<Action>)
    ensures |actions| <= |f.rules|
  {
    if event.Evaluate? && Open(f, now) then Fired(f.rules, event.trigger, now) else []
  }

  function After(f: Fields, event: Event, now: nat): Fields {
    match event
    case Enable => f.(enabled := true)
    case Disable => f.(enabled := false)
    case SetMax(max) => f.(max := max)
    case AddRule(rule) => if rule.name == "" || rule.actionPrompt == "" then f else f.(rules := f.rules + [rule])
    case RemoveRule(id) => f.(rules := Without(f.rules, id))
    case Evaluate(trigger) =>
      if !f.enabled then f
      else if Open(f, now) then WindowChecked(f, now).(rules := Marked(f.rules, trigger, now))
      else WindowChecked(f, now)
    case RecordAction => f.(actionsThisHour := f.actionsThisHour + 1)
  }

  // ---------------------------------------------------------------------
  // The evaluation loop
  // ---------------------------------------------------------------------

  /** The rules below `i` are done. */
  ghost predicate EvaluatedUpTo(f: Fields, trigger: Trigger, now: nat, i: nat, rules: seq<Rule>, actions: seq<Action>) {
    && i <= |rules| == |f.rules|
    && (forall j :: i <= j < |rules| ==> rules[j] == f.rules[j])
    && (forall j :: 0 <= j < i ==>
          rules[j] == if f.actionsThisHour < f.max then Mark(f.rules[j], trigger, now) else f.rules[j])
    && actions == (if f.actionsThisHour < f.max then Fired(f.rules[..i], trigger, now) else [])
  }

  lemma EvaluationStarts(f: Fields, trigger: Trigger, now: nat)
    ensures EvaluatedUpTo(f, trigger, now, 0, f.rules, [])
  {
  }

  lemma EvaluationStep(f: Fields, trigger: Trigger, now: nat, i: nat, rules: seq<Rule>, actions: seq<Action>)
    requires EvaluatedUpTo(f, trigger, now, i, rules, actions) && i < |rules|
    ensures var acts := Eligible(rules[i], trigger, now) && f.actionsThisHour < f.max;
            EvaluatedUpTo(f, trigger, now, i + 1,
                          if acts then rules[i := rules[i].(lastTriggered := Some(now))] else rules,
                          if acts then actions + [ActionFor(rules[i], trigger, now)] else actions)
  {
    assert f.rules[..i + 1][..i] == f.rules[..i];
  }

  lemma EvaluationEnds(f: Fields, trigger: Trigger, now: nat, rules: seq<Rule>, actions: seq<Action>)
    requires f.enabled && EvaluatedUpTo(WindowChecked(f, now), trigger, now, |rules|, rules, actions)
    ensures After(f, Evaluate(trigger), now) == WindowChecked(f, now).(rules := rules)
    ensures Actions(f, Evaluate(trigger), now) == actions
  {
    assert f.rules[..|rules|] == f.rules;
  }

  /** The manager object; the clock is an argument. */
  class Manager {
    var rules: seq<Rule>
    var enabled: bool
    var maxActionsPerHour: nat
    var actionsThisHour: nat
    var hourStart: nat

    function Value(): Fields
      reads this
    {
      Fields(rules, enabled, maxActionsPerHour, actionsThisHour, hourStart)
    }

    constructor (now: nat)
      ensures Value() == Fields([], false, 10, 0, now)
    {
      rules, enabled, maxActionsPerHour, actionsThisHour, hourStart := [], false, 10, 0, now;
    }

    method SetEnabled(on: bool, now: nat)
      modifies this
      ensures Value() == After(old(Value()), if on then Enable else Disable, now)
    {
      enabled := on;
    }

    method SetMaxActionsPerHour(max: nat, now: nat)
      modifies this
      ensures Value() == After(old(Value()), SetMax(max), now)
    {
      maxActionsPerHour := max;
    }

    /** Returns the rule's id, or nothing if the rule has no name or no prompt. */
    method Add(rule: Rule, now: nat) returns (id: Option<string>)
      modifies this
      ensures Value() == After(old(Value()), AddRule(rule), now)
      ensures rules == if id.Some? then old(rules) + [rule] else old(rules)
      ensures id == if rule.name == "" || rule.actionPrompt == "" then None else Some(rule.id)
    {
      if rule.name == "" || rule.actionPrompt == "" {
        return None;
      }
      rules := rules + [rule];
      id := Some(rule.id);
    }

    /** Keeps the rules with other ids; false if there was none with this id. */
    method Remove(id: string, now: nat) returns (found: bool)
      modifies this
      ensures Value() == After(old(Value()), RemoveRule(id), now)
      ensures found <==> exists i :: 0 <= i < |old(rules)| && old(rules)[i].id == id
      ensures !found ==> rules == old(rules)
    {
      var before, kept := rules, [];
      for i := 0 to |before|
        invariant kept == Without(before[..i], id)
        invariant |kept| == i <==> forall j :: 0 <= j < i ==> before[j].id != id
        invariant |kept| <= i
      {
        assert before[..i + 1][..i] == before[..i];
        if before[i].id != id {
          kept := kept + [before[i]];
        }
      }
      assert before[..|before|] == before;
      WithoutNone(before, id);
      rules := kept;
      found := |kept| < |before|;
    }

    method MaybeResetHourWindow(now: nat)
      modifies this
      ensures Value() == WindowChecked(old(Value()), now)
    {
      if now - hourStart >= HOUR {
        hourStart, actionsThisHour := now, 0;
      }
    }

    method EvaluateTrigger(trigger: Trigger, now: nat) returns (actions: seq<Action>)
      modifies this
      ensures Value() == After(old(Value()), Evaluate(trigger), now)
      ensures actions == Actions(old(Value()), Evaluate(trigger), now)
    {
      if !enabled {
        return [];
      }
      MaybeResetHourWindow(now);
      ghost var checked := Value();
      actions := [];
      EvaluationStarts(checked, trigger, now);
      var updated := rules;
      for i := 0 to |updated|
        invariant Value() == checked
        invariant EvaluatedUpTo(checked, trigger, now, i, updated, actions)
      {
        EvaluationStep(checked, trigger, now, i, updated, actions);
        var rule := updated[i];
        if Eligible(rule, trigger, now) && actionsThisHour < maxActionsPerHour {
          updated := updated[i := rule.(lastTriggered := Some(now))];
          actions := actions + [ActionFor(rule, trigger, now)];
        }
      }
      rules := updated;
      EvaluationEnds(old(Value()), trigger, now, rules, actions);
    }

    method Record(now: nat)
      modifies this
      ensures Value() == After(old(Value()), RecordAction, now)
    {
      actionsThisHour := actionsThisHour + 1;
    }
  }
}
