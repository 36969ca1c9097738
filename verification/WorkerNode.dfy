/** The worker node's request handler: duplicate requests are coalesced through a map of completed
    responses, a map of requests in flight and a notifier. Any number of handlers, one atomic step per
    lock acquisition or await, every interleaving, with cancellation at every await. */
module WorkerNode {
  import opened Wrappers

  type RequestId = string
  type Response = string

  /** Where a handler is. A follower has cloned the owner's notifier but not yet begun to wait on it;
      an owner creates one notifier, so the owner's index stands for it. */
  datatype Pc =
    | Start
    | Checked
    | Executing
    | Executed(response: Response)
    | Published(response: Response)
    | Removed(response: Response)
    | Follower(owner: nat)
    | Waiting(owner: nat)
    | Woken(owner: nat)
    | Replied(status: Status, body: Option<Response>)
    | Cancelled(claimed: bool)

  datatype Status = Ok | Unauthorized | BadRequest | Conflict

  /** A handler with the times of its steps. */
  datatype Handler = Handler(
    id: RequestId,
    pc: Pc,
    checkedAt: Option<nat>,
    claimedAt: Option<nat>,
    publishedAt: Option<nat>,
    removedAt: Option<nat>,
    waitingSince: Option<nat>,
    notifiedAt: Option<nat>)

  datatype State = State(
    handlers: seq<Handler>,
    completed: map<RequestId, Response>,
    inFlight: map<RequestId, nat>,
    now: nat)

  datatype Event =
    | Reject(t: nat)
    | Check(t: nat)
    | Claim(t: nat)
    | Execute(t: nat, response: Response)
    | Publish(t: nat)
    | Remove(t: nat)
    | Notify(t: nat)
    | Wait(t: nat)
    | Lookup(t: nat)
    | Cancel(t: nat)

  function Init(ids: seq<RequestId>): State {
    State(seq(|ids|, i requires 0 <= i < |ids| => Handler(ids[i], Start, None, None, None, None, None, None)),
          map[], map[], 0)
  }

  predicate Enabled(s: State, e: Event) {
    && e.t < |s.handlers|
    && var pc := s.handlers[e.t].pc;
       match e
       case Reject(_) => pc.Start? || pc.Checked?
       case Check(_) => pc.Start?
       case Claim(_) => pc.Checked?
       case Execute(_, _) => pc.Executing?
       case Publish(_) => pc.Executed?
       case Remove(_) => pc.Published?
       case Notify(_) => pc.Removed?
       case Wait(_) => pc.Follower?
       case Lookup(_) => pc.Woken?
       // Removing the entry and notifying are not separated by an await.
       case Cancel(_) => !pc.Replied? && !pc.Cancelled? && !pc.Removed?
  }

  /** The pc of handler `t` after its own step. */
  function NextPc(s: State, e: Event): Pc
    requires Enabled(s, e)
  {
    var h := s.handlers[e.t];
    match e
    case Reject(_) => Replied(if h.pc.Start? then Unauthorized else BadRequest, None)
    case Check(_) => if h.id in s.completed then Replied(Ok, Some(s.completed[h.id])) else Checked
    case Claim(_) => if h.id in s.inFlight then Follower(s.inFlight[h.id]) else Executing
    case Execute(_, response) => Executed(response)
    case Publish(_) => Published(h.pc.response)
    case Remove(_) => Removed(h.pc.response)
    case Notify(_) => Replied(Ok, Some(h.pc.response))
    case Wait(_) => Waiting(h.pc.owner)
    case Lookup(_) =>
      if h.id in s.completed then Replied(Ok, Some(s.completed[h.id])) else Replied(Conflict, None)
    case Cancel(_) => Cancelled(h.pc.Executing? || h.pc.Executed? || h.pc.Published?)
  }

  function Stamped(s: State, e: Event): Handler
    requires Enabled(s, e)
  {
    var h := s.handlers[e.t].(pc := NextPc(s, e));
    match e
    case Check(_) => if h.pc.Checked? then h.(checkedAt := Some(s.now)) else h
    case Claim(_) => if h.pc.Executing? then h.(claimedAt := Some(s.now)) else h
    case Publish(_) => h.(publishedAt := Some(s.now))
    case Remove(_) => h.(removedAt := Some(s.now))
    case Notify(_) => h.(notifiedAt := Some(s.now))
    case Wait(_) => h.(waitingSince := Some(s.now))
    case _ => h
  }

  /** Notifying wakes exactly the handlers that already wait on this notifier. */
  function Wakened(handlers: seq<Handler>, t: nat): (woken: seq<Handler>) {
    seq(|handlers|, i requires 0 <= i < |handlers| =>
      if handlers[i].pc == Waiting(t) then handlers[i].(pc := Woken(t)) else handlers[i])
  }

  function Next(s: State, e: Event): State
    requires Enabled(s, e)
  {
    var h := s.handlers[e.t];
    State((if e.Notify? then Wakened(s.handlers, e.t) else s.handlers)[e.t := Stamped(s, e)],
          if e.Publish? then s.completed[h.id := h.pc.response] else s.completed,
          if e.Claim? && h.id !in s.inFlight then s.inFlight[h.id := e.t]
          else if e.Remove? then s.inFlight - {h.id}
          else s.inFlight,
          s.now + 1)
  }

  ghost predicate StepAt(states: seq<State>, events: seq<Event>, k: nat)
    requires k < |events| < |states|
  {
    Enabled(states[k], events[k]) && states[k + 1] == Next(states[k], events[k])
  }

  ghost predicate Run(ids: seq<RequestId>, states: seq<State>, events: seq<Event>) {
    && |states| == |events| + 1
    && states[0] == Init(ids)
    && forall k: nat :: k < |events| ==> StepAt(states, events, k)
  }

  /** A run continues with any enabled event. */
  lemma RunContinues(ids: seq<RequestId>, states: seq<State>, events: seq<Event>, e: Event)
    requires Run(ids, states, events) && Enabled(states[|events|], e)
    ensures Run(ids, states + [Next(states[|events|], e)], events + [e])
  {
    var states', events' := states + [Next(states[|events|], e)], events + [e];
    forall k: nat | k < |events'| ensures StepAt(states', events', k) {
      assert k < |events| ==> StepAt(states, events, k);
    }
  }

  // ---------------------------------------------------------------------
  // Invariants
  // ---------------------------------------------------------------------

  /** Between claim and removal, or cancelled there. */
  predicate Holds(h: Handler) {
    h.pc.Executing? || h.pc.Executed? || h.pc.Published? || (h.pc.Cancelled? && h.pc.claimed)
  }

  /** The entry of a request id names a holder of that request. */
  ghost predicate EntryFits(s: State, r: RequestId) {
    r in s.inFlight ==>
      s.inFlight[r] < |s.handlers| && s.handlers[s.inFlight[r]].id == r && Holds(s.handlers[s.inFlight[r]])
  }

  /** A holder is named by the entry of its request. */
  ghost predicate HolderFits(s: State, t: nat)
    requires t < |s.handlers|
  {
    Holds(s.handlers[t]) ==> s.handlers[t].id in s.inFlight && s.inFlight[s.handlers[t].id] == t
  }

  /** What the times of one handler say about it. */
  ghost predicate TimesFit(h: Handler, now: nat, completed: map<RequestId, Response>) {
    && (h.checkedAt.Some? ==> h.checkedAt.value < now)
    && (h.claimedAt.Some? ==> h.checkedAt.Some? && h.checkedAt.value < h.claimedAt.value < now)
    && (h.publishedAt.Some? ==> h.claimedAt.Some? && h.claimedAt.value < h.publishedAt.value < now && h.id in completed)
    && (h.removedAt.Some? ==> h.publishedAt.Some? && h.publishedAt.value < h.removedAt.value < now)
    && (h.notifiedAt.Some? ==> h.removedAt.Some? && h.notifiedAt.value < now && h.pc.Replied?)
    && (h.waitingSince.Some? ==> h.waitingSince.value < now)
    && (h.pc.Start? ==> h.checkedAt.None?)
    && (h.pc.Checked? ==> h.checkedAt.Some? && h.claimedAt.None?)
    && (h.pc.Follower? || h.pc.Waiting? || h.pc.Woken? ==> h.claimedAt.None?)
    && (h.pc.Waiting? ==> h.waitingSince.Some?)
    && (h.pc.Executing? || h.pc.Executed? ==> h.publishedAt.None?)
    && (h.pc.Published? ==> h.publishedAt.Some?)
    && (h.pc.Removed? ==> h.removedAt.Some?)
    && (Holds(h) <==> h.claimedAt.Some? && h.removedAt.None?)
    && (h.pc.Replied? ==> h.pc.status != Conflict)
  }

  /** Two handlers of one request: a passed check precedes a publication of the other, and owners follow
      one another, the later claiming after the earlier has removed. */
  ghost predicate PairFits(h: Handler, u: Handler) {
    h.id == u.id ==>
      && (h.checkedAt.Some? && u.publishedAt.Some? ==> h.checkedAt.value < u.publishedAt.value)
      && (h.claimedAt.Some? && u.claimedAt.Some? ==>
            || (h.removedAt.Some? && h.removedAt.value < u.claimedAt.value)
            || (u.removedAt.Some? && u.removedAt.value < h.claimedAt.value))
  }

  /** A follower's owner claimed the same request, has published it once it wakes anyone, and notified
      before the follower waits if it notified already. */
  ghost predicate FollowerFits(handlers: seq<Handler>, h: Handler) {
    h.pc.Follower? || h.pc.Waiting? || h.pc.Woken? ==>
      && h.pc.owner < |handlers|
      && var o := handlers[h.pc.owner];
         && o.id == h.id
         && o.claimedAt.Some?
         && (h.pc.Woken? ==> o.publishedAt.Some?)
         && (h.pc.Waiting? && o.notifiedAt.Some? && h.waitingSince.Some? ==> o.notifiedAt.value < h.waitingSince.value)
  }

  ghost predicate Invariant(s: State) {
    && (forall r :: EntryFits(s, r))
    && (forall t :: 0 <= t < |s.handlers| ==> HolderFits(s, t))
    && (forall t :: 0 <= t < |s.handlers| ==> TimesFit(s.handlers[t], s.now, s.completed))
    && (forall t, u :: 0 <= t < |s.handlers| && 0 <= u < |s.handlers| && t != u ==>
          PairFits(s.handlers[t], s.handlers[u]))
    && (forall t :: 0 <= t < |s.handlers| ==> FollowerFits(s.handlers, s.handlers[t]))
  }

  /** What a step leaves alone: another handler at most goes from waiting to woken. */
  lemma OthersKept(s: State, e: Event, t: nat)
    requires Enabled(s, e) && t < |s.handlers| && t != e.t
    ensures var h, h' := s.handlers[t], Next(s, e).handlers[t];
            && h' == h.(pc := h'.pc)
            && Holds(h') == Holds(h)
            && (h'.pc == h.pc || (e.Notify? && h.pc == Waiting(e.t) && h'.pc == Woken(e.t)))
  {
  }

  lemma EntryStep(s: State, e: Event, r: RequestId)
    requires Invariant(s) && Enabled(s, e)
    ensures EntryFits(Next(s, e), r)
  {
    assert EntryFits(s, r) && HolderFits(s, e.t);
    assert TimesFit(s.handlers[e.t], s.now, s.completed);
    if r in s.inFlight && s.inFlight[r] != e.t {
      OthersKept(s, e, s.inFlight[r]);
    }
  }

  lemma HolderStep(s: State, e: Event, t: nat)
    requires Invariant(s) && Enabled(s, e) && t < |s.handlers|
    ensures HolderFits(Next(s, e), t)
  {
    assert HolderFits(s, e.t) && HolderFits(s, t);
    if t != e.t {
      OthersKept(s, e, t);
    }
  }

  /** Whoever is woken is answered from the cache. */
  lemma WokenIsCached(s: State, t: nat)
    requires Invariant(s) && t < |s.handlers| && s.handlers[t].pc.Woken?
    ensures s.handlers[t].id in s.completed
  {
    assert FollowerFits(s.handlers, s.handlers[t]);
    var o := s.handlers[t].pc.owner;
    assert TimesFit(s.handlers[o], s.now, s.completed);
  }

  lemma OwnTimesStep(s: State, e: Event)
    requires Enabled(s, e) && TimesFit(s.handlers[e.t], s.now, s.completed)
    requires e.Lookup? ==> s.handlers[e.t].id in s.completed
    ensures TimesFit(Stamped(s, e), s.now + 1, Next(s, e).completed)
  {
  }

  lemma OtherTimesStep(h: Handler, pc: Pc, now: nat, completed: map<RequestId, Response>,
                       completed': map<RequestId, Response>)
    requires TimesFit(h, now, completed) && completed.Keys <= completed'.Keys
    requires pc == h.pc || (h.pc.Waiting? && pc == Woken(h.pc.owner))
    ensures TimesFit(h.(pc := pc), now + 1, completed')
  {
  }

  lemma TimesStep(s: State, e: Event, t: nat, h: Handler)
    requires Invariant(s) && Enabled(s, e) && t < |s.handlers| && h == Next(s, e).handlers[t]
    ensures TimesFit(h, s.now + 1, Next(s, e).completed)
  {
    assert TimesFit(s.handlers[t], s.now, s.completed);
    if t == e.t {
      if e.Lookup? {
        WokenIsCached(s, t);
      }
      OwnTimesStep(s, e);
    } else {
      OthersKept(s, e, t);
      OtherTimesStep(s.handlers[t], h.pc, s.now, s.completed, Next(s, e).completed);
    }
  }

  /** The stepping handler against one that the step leaves alone, either way round. */
  lemma SteppingPair(s: State, e: Event, u: Handler)
    requires Enabled(s, e)
    requires var h := s.handlers[e.t];
             && TimesFit(h, s.now, s.completed) && TimesFit(u, s.now, s.completed)
             && PairFits(h, u) && PairFits(u, h)
             && (Holds(u) ==> u.id in s.inFlight)
    ensures PairFits(Stamped(s, e), u) && PairFits(u, Stamped(s, e))
  {
  }

  lemma PairIgnoresPc(h: Handler, pc: Pc, u: Handler, pc': Pc)
    ensures PairFits(h.(pc := pc), u.(pc := pc')) <==> PairFits(h, u)
  {
  }

  lemma PairStep(s: State, e: Event, t: nat, u: nat)
    requires Enabled(s, e) && t < |s.handlers| && u < |s.handlers| && t != u
    requires HolderFits(s, t) && HolderFits(s, u)
    requires TimesFit(s.handlers[t], s.now, s.completed) && TimesFit(s.handlers[u], s.now, s.completed)
    requires PairFits(s.handlers[t], s.handlers[u]) && PairFits(s.handlers[u], s.handlers[t])
    ensures PairFits(Next(s, e).handlers[t], Next(s, e).handlers[u])
  {
    var h, h' := s.handlers[t], Next(s, e).handlers[t];
    var v, v' := s.handlers[u], Next(s, e).handlers[u];
    if t == e.t {
      SteppingPair(s, e, v);
      OthersKept(s, e, u);
      PairIgnoresPc(h', h'.pc, v, v'.pc);
    } else if u == e.t {
      SteppingPair(s, e, h);
      OthersKept(s, e, t);
      PairIgnoresPc(h, h'.pc, v', v'.pc);
    } else {
      OthersKept(s, e, t);
      OthersKept(s, e, u);
      PairIgnoresPc(h, h'.pc, v, v'.pc);
    }
  }

  /** What a step leaves of the owner that a follower relies on. */
  lemma OwnerKept(s: State, e: Event, o: nat)
    requires Enabled(s, e) && o < |s.handlers| && TimesFit(s.handlers[o], s.now, s.completed)
    ensures var before, after := s.handlers[o], Next(s, e).handlers[o];
            && after.id == before.id
            && (before.claimedAt.Some? ==> after.claimedAt.Some?)
            && (before.publishedAt.Some? ==> after.publishedAt.Some?)
            && (e.Notify? && o == e.t ==>
                  before.publishedAt.Some? && before.notifiedAt.None? && after.notifiedAt == Some(s.now))
            && (!(e.Notify? && o == e.t) ==> after.notifiedAt == before.notifiedAt)
  {
    if o != e.t {
      OthersKept(s, e, o);
    }
  }

  lemma OtherFollowerStep(s: State, e: Event, t: nat)
    requires Enabled(s, e) && t < |s.handlers| && t != e.t && FollowerFits(s.handlers, s.handlers[t])
    requires forall u: nat :: u < |s.handlers| ==> TimesFit(s.handlers[u], s.now, s.completed)
    ensures FollowerFits(Next(s, e).handlers, Next(s, e).handlers[t])
  {
    OthersKept(s, e, t);
    var pc := s.handlers[t].pc;
    if pc.Follower? || pc.Waiting? || pc.Woken? {
      assert TimesFit(s.handlers[t], s.now, s.completed) && TimesFit(s.handlers[pc.owner], s.now, s.completed);
      OwnerKept(s, e, pc.owner);
    }
  }

  lemma OwnFollowerStep(s: State, e: Event)
    requires Enabled(s, e) && FollowerFits(s.handlers, s.handlers[e.t]) && EntryFits(s, s.handlers[e.t].id)
    requires forall u: nat :: u < |s.handlers| ==> TimesFit(s.handlers[u], s.now, s.completed)
    ensures FollowerFits(Next(s, e).handlers, Stamped(s, e))
  {
    var pc := NextPc(s, e);
    if pc.Follower? || pc.Waiting? || pc.Woken? {
      assert TimesFit(s.handlers[e.t], s.now, s.completed) && TimesFit(s.handlers[pc.owner], s.now, s.completed);
      OwnerKept(s, e, pc.owner);
    }
  }

  lemma FollowerStep(s: State, e: Event, t: nat)
    requires Invariant(s) && Enabled(s, e) && t < |s.handlers|
    ensures FollowerFits(Next(s, e).handlers, Next(s, e).handlers[t])
  {
    assert EntryFits(s, s.handlers[t].id) && FollowerFits(s.handlers, s.handlers[t]);
    if t == e.t {
      OwnFollowerStep(s, e);
    } else {
      OtherFollowerStep(s, e, t);
    }
  }

  lemma InvariantStep(s: State, e: Event)
    requires Invariant(s) && Enabled(s, e)
    ensures Invariant(Next(s, e))
  {
    var s' := Next(s, e);
    forall r ensures EntryFits(s', r) {
      EntryStep(s, e, r);
    }
    forall t: nat | t < |s.handlers|
      ensures HolderFits(s', t) && TimesFit(s'.handlers[t], s'.now, s'.completed)
      ensures FollowerFits(s'.handlers, s'.handlers[t])
    {
      HolderStep(s, e, t);
      TimesStep(s, e, t, s'.handlers[t]);
      FollowerStep(s, e, t);
    }
    forall t: nat, u: nat | t < |s.handlers| && u < |s.handlers| && t != u
      ensures PairFits(s'.handlers[t], s'.handlers[u])
    {
      PairStep(s, e, t, u);
    }
  }

  lemma InvariantHolds(ids: seq<RequestId>, states: seq<State>, events: seq<Event>, k: nat)
    requires Run(ids, states, events) && k < |states|
    ensures |states[k].handlers| == |ids| && Invariant(states[k])
  {
    for i := 0 to k
      invariant |states[i].handlers| == |ids| && Invariant(states[i])
    {
      assert StepAt(states, events, i);
      InvariantStep(states[i], events[i]);
    }
  }
}
