/** The spawn limiter of the delegation manager: fetch-add with rollback on an atomic counter. */
module Delegation {
  import opened Wrappers
  import opened Sums

  /** `usize` on a 64-bit target; atomic additions wrap. */
  const USIZE: nat := 0x1_0000_0000_0000_0000
  type Usize = n: nat | n < USIZE

  // ---------------------------------------------------------------------
  // Any number of threads, one atomic operation at a time
  // ---------------------------------------------------------------------

  /** A thread registers once: it adds, and takes the addition back if the limit had been reached. */
  datatype Thread = Idle | RollingBack | Registered(number: nat) | Refused

  datatype State = State(count: nat, threads: seq<Thread>)

  datatype Event = FetchAdd(t: nat) | FetchSub(t: nat)

  function Init(n: nat): State {
    State(0, seq(n, t => Idle))
  }

  predicate Enabled(s: State, e: Event) {
    && e.t < |s.threads|
    && match e
       case FetchAdd(t) => s.threads[t].Idle?
       case FetchSub(t) => s.threads[t].RollingBack?
  }

  function Next(max: nat, s: State, e: Event): State
    requires Enabled(s, e)
  {
    match e
    case FetchAdd(t) =>
      State((s.count + 1) % USIZE, s.threads[t := if s.count >= max then RollingBack else Registered(s.count + 1)])
    case FetchSub(t) =>
      State((s.count + USIZE - 1) % USIZE, s.threads[t := Refused])
  }

  ghost predicate Run(max: nat, n: nat, states: seq<State>, events: seq<Event>) {
    && |states| == |events| + 1
    && states[0] == Init(n)
    && forall k :: 0 <= k < |events| ==>
         Enabled(states[k], events[k]) && states[k + 1] == Next(max, states[k], events[k])
  }

  predicate CanSpawn(max: nat, s: State) {
    s.count < max
  }

  ghost function Flags(s: State, p: Thread -> bool): (flags: seq<nat>) {
    seq(|s.threads|, t requires 0 <= t < |s.threads| => if p(s.threads[t]) then 1 else 0)
  }

  ghost function Count(s: State, p: Thread -> bool): (n: nat)
    ensures n <= |s.threads|
  {
    SumBound(Flags(s, p), 1);
    Sum(Flags(s, p))
  }

  const IS_REGISTERED: Thread -> bool := (t: Thread) => t.Registered?
  const IS_ROLLING_BACK: Thread -> bool := (t: Thread) => t.RollingBack?
  const HAS_TRIED: Thread -> bool := (t: Thread) => !t.Idle?

  ghost function Successes(s: State): nat { Count(s, IS_REGISTERED) }

  ghost function Pending(s: State): nat { Count(s, IS_ROLLING_BACK) }

  ghost function Attempts(s: State): nat { Count(s, HAS_TRIED) }

  lemma CountUpdate(s: State, s': State, t: nat, p: Thread -> bool)
    requires t < |s.threads| && |s'.threads| == |s.threads| && s'.threads == s.threads[t := s'.threads[t]]
    ensures Count(s', p) == Count(s, p) - (if p(s.threads[t]) then 1 else 0) + (if p(s'.threads[t]) then 1 else 0)
  {
    var w := if p(s'.threads[t]) then 1 else 0;
    assert Flags(s', p) == Flags(s, p)[t := w];
    SumUpdate(Flags(s, p), t, w);
  }

  lemma CountAtLeastOne(s: State, t: nat, p: Thread -> bool)
    requires t < |s.threads| && p(s.threads[t])
    ensures Count(s, p) >= 1
  {
    SumPositive(Flags(s, p), t);
  }

  lemma CountDisjoint(s: State)
    ensures Successes(s) + Pending(s) <= Attempts(s)
  {
    CountsAdd(s.threads);
  }

  lemma {:induction false} CountsAdd(threads: seq<Thread>)
    ensures Sum(Flags(State(0, threads), IS_REGISTERED)) + Sum(Flags(State(0, threads), IS_ROLLING_BACK))
            <= Sum(Flags(State(0, threads), HAS_TRIED))
    ensures forall c :: Flags(State(c, threads), IS_REGISTERED) == Flags(State(0, threads), IS_REGISTERED)
    ensures forall c :: Flags(State(c, threads), IS_ROLLING_BACK) == Flags(State(0, threads), IS_ROLLING_BACK)
    ensures forall c :: Flags(State(c, threads), HAS_TRIED) == Flags(State(0, threads), HAS_TRIED)
  {
    if threads != [] {
      CountsAdd(threads[1..]);
      forall p: Thread -> bool
        ensures Flags(State(0, threads), p)[1..] == Flags(State(0, threads[1..]), p)
      {
      }
    }
  }

  /** What every interleaving keeps. */
  ghost predicate Invariant(max: nat, s: State) {
    && s.count == Successes(s) + Pending(s)
    && Successes(s) <= max
    && (Pending(s) > 0 ==> Successes(s) == max)
    && (forall t :: 0 <= t < |s.threads| && s.threads[t].Registered? ==> 1 <= s.threads[t].number <= Successes(s))
    && (forall t, u :: 0 <= t < u < |s.threads| && s.threads[t].Registered? && s.threads[u].Registered? ==>
          s.threads[t].number != s.threads[u].number)
    && ((exists t :: 0 <= t < |s.threads| && s.threads[t].Refused?) ==> Successes(s) == max)
  }

  lemma InvariantStep(max: nat, s: State, e: Event)
    requires Invariant(max, s) && Enabled(s, e) && |s.threads| < USIZE
    ensures Invariant(max, Next(max, s, e))
  {
    var s' := Next(max, s, e);
    CountUpdate(s, s', e.t, IS_REGISTERED);
    CountUpdate(s, s', e.t, IS_ROLLING_BACK);
    CountUpdate(s, s', e.t, HAS_TRIED);
    CountDisjoint(s);
    CountDisjoint(s');
    if e.FetchSub? {
      CountAtLeastOne(s, e.t, IS_ROLLING_BACK);
    }
  }

  lemma {:induction false} InvariantHolds(max: nat, n: nat, states: seq<State>, events: seq<Event>, k: nat)
    requires Run(max, n, states, events) && k < |states| && n < USIZE
    ensures |states[k].threads| == n && Invariant(max, states[k])
  {
    if k == 0 {
      SumZero(Flags(Init(n), IS_REGISTERED));
      SumZero(Flags(Init(n), IS_ROLLING_BACK));
    } else {
      InvariantHolds(max, n, states, events, k - 1);
      InvariantStep(max, states[k - 1], events[k - 1]);
    }
  }

  /** The limit is never exceeded, by any interleaving; successful registrations are numbered apart; and a
      refusal, a pending one or `can_spawn` saying no means the limit is truly used up. */
  lemma LimitHolds(max: nat, n: nat, states: seq<State>, events: seq<Event>, k: nat)
    requires Run(max, n, states, events) && k < |states| && n < USIZE
    ensures var s := states[k];
            && |s.threads| == n
            && Successes(s) <= max
            && (forall t, u :: 0 <= t < u < n && s.threads[t].Registered? && s.threads[u].Registered? ==>
                  s.threads[t].number != s.threads[u].number)
            && (forall t :: 0 <= t < n ==>
                  && (s.threads[t].Registered? ==> 1 <= s.threads[t].number <= max)
                  && (s.threads[t].Refused? || s.threads[t].RollingBack? ==> Successes(s) == max))
            && (!CanSpawn(max, s) ==> Successes(s) == max)
  {
    InvariantHolds(max, n, states, events, k);
    var s := states[k];
    forall t | 0 <= t < n && s.threads[t].RollingBack?
      ensures Pending(s) > 0
    {
      CountAtLeastOne(s, t, IS_ROLLING_BACK);
    }
  }

  /** Once no rollback is pending, the counter is exactly min(limit, attempts). */
  lemma QuiescentCount(max: nat, n: nat, states: seq<State>, events: seq<Event>, k: nat)
    requires Run(max, n, states, events) && k < |states| && n < USIZE
    requires forall t :: 0 <= t < |states[k].threads| ==> !states[k].threads[t].RollingBack?
    ensures states[k].count == if Attempts(states[k]) <= max then Attempts(states[k]) else max
  {
    InvariantHolds(max, n, states, events, k);
    var s := states[k];
    SumZero(Flags(s, IS_ROLLING_BACK));
    CountDisjoint(s);
    if t :| 0 <= t < n && s.threads[t].Refused? {
    } else {
      assert Flags(s, IS_REGISTERED) == Flags(s, HAS_TRIED);
    }
  }

  /** `can_spawn` may say no while a registration that is still being rolled back holds the counter up,
      but never while a slot is free: it is exact. */
  lemma CanSpawnIsExact(max: nat, n: nat, states: seq<State>, events: seq<Event>, k: nat)
    requires Run(max, n, states, events) && k < |states| && n < USIZE
    ensures CanSpawn(max, states[k]) <==> Successes(states[k]) < max
  {
    InvariantHolds(max, n, states, events, k);
  }

  // ---------------------------------------------------------------------
  // The manager's methods, run by one thread
  // ---------------------------------------------------------------------

  class DelegationManager {
    const maxTotalAgents: Usize
    var spawnedCount: Usize

    constructor (maxTotalAgents: Usize)
      ensures this.maxTotalAgents == maxTotalAgents && spawnedCount == 0
    {
      this.maxTotalAgents := maxTotalAgents;
      spawnedCount := 0;
    }

    /** Registers one agent, or leaves the counter as it was. */
    method RegisterSpawn() returns (number: Option<nat>)
      modifies this
      ensures number == if old(spawnedCount) < maxTotalAgents then Some(old(spawnedCount) + 1) else None
      ensures spawnedCount == if number.Some? then number.value else old(spawnedCount)
    {
      var previous := spawnedCount;
      spawnedCount := (spawnedCount + 1) % USIZE;
      if previous >= maxTotalAgents {
        spawnedCount := (spawnedCount + USIZE - 1) % USIZE;
        return None;
      }
      return Some(previous + 1);
    }

    /** The parts a plan keeps: the longest prefix that fits the remaining budget; none of nothing, and
        none when the budget is used up. */
    method PlanDelegation(parts: seq<string>) returns (planned: Option<seq<string>>)
      ensures planned.None? <==> parts == [] || spawnedCount >= maxTotalAgents
      ensures planned.Some? ==>
                && planned.value != []
                && planned.value <= parts
                && spawnedCount + |planned.value| <= maxTotalAgents
                && (|planned.value| < |parts| ==> spawnedCount + |planned.value| == maxTotalAgents)
    {
      if parts == [] {
        return None;
      }
      var remaining := if spawnedCount < maxTotalAgents then maxTotalAgents - spawnedCount else 0;
      if remaining == 0 {
        return None;
      }
      return Some(if |parts| > remaining then parts[..remaining] else parts);
    }
  }
}
