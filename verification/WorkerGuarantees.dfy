/** What every interleaving of the worker's request handlers guarantees, and what none does. */
module WorkerGuarantees {
  import opened Wrappers
  import opened WorkerNode

  // ---------------------------------------------------------------------
  // Safety of every interleaving
  // ---------------------------------------------------------------------

  ghost predicate HolderOf(s: State, u: nat, r: RequestId) {
    u < |s.handlers| && s.handlers[u].id == r && Holds(s.handlers[u])
  }

  /** Executions of one request never overlap, and a request is in flight exactly while one handler is
      between claim and removal (or was cancelled there). */
  lemma NoOverlap(ids: seq<RequestId>, states: seq<State>, events: seq<Event>, k: nat, t: nat, r: RequestId)
    requires Run(ids, states, events) && k < |states| && t < |ids|
    ensures |states[k].handlers| == |ids|
    ensures var s := states[k];
            && (HolderOf(s, t, r) ==> forall u: nat :: HolderOf(s, u, r) ==> u == t)
            && (r in s.inFlight <==> exists u: nat :: HolderOf(s, u, r))
  {
    InvariantHolds(ids, states, events, k);
    var s := states[k];
    assert EntryFits(s, r) && HolderFits(s, t);
    forall u: nat | HolderOf(s, u, r) ensures r in s.inFlight && s.inFlight[r] == u {
      assert HolderFits(s, u);
    }
    if r in s.inFlight {
      assert HolderOf(s, s.inFlight[r], r);
    }
  }

  /** A handler that neither waits nor has ended can always take its next step, whatever the others do. */
  lemma HandlersGoOn(ids: seq<RequestId>, states: seq<State>, events: seq<Event>, t: nat) returns (e: Event)
    requires Run(ids, states, events) && t < |states[|events|].handlers|
    requires var pc := states[|events|].handlers[t].pc; !pc.Replied? && !pc.Cancelled? && !pc.Waiting?
    ensures e.t == t && !e.Reject? && !e.Cancel?
    ensures exists next :: Run(ids, states + [next], events + [e])
  {
    var s := states[|events|];
    e := match s.handlers[t].pc
         case Start => Check(t)
         case Checked => Claim(t)
         case Executing => Execute(t, "")
         case Executed(_) => Publish(t)
         case Published(_) => Remove(t)
         case Removed(_) => Notify(t)
         case Follower(_) => Wait(t)
         case _ => Lookup(t);
    RunContinues(ids, states, events, e);
    assert Run(ids, states + [Next(s, e)], events + [e]);
  }

  /** A request can be refused until it claims, and cancelled at any await; neither touches the two maps. */
  lemma RequestsMayFail(ids: seq<RequestId>, states: seq<State>, events: seq<Event>, t: nat, e: Event)
    requires Run(ids, states, events) && t < |states[|events|].handlers|
    requires var pc := states[|events|].handlers[t].pc;
             || (e == Reject(t) && (pc.Start? || pc.Checked?))
             || (e == Cancel(t) && !pc.Replied? && !pc.Cancelled? && !pc.Removed?)
    ensures exists next ::
              && Run(ids, states + [next], events + [e])
              && next.completed == states[|events|].completed && next.inFlight == states[|events|].inFlight
  {
    RunContinues(ids, states, events, e);
    assert Run(ids, states + [Next(states[|events|], e)], events + [e]);
  }

  /** From the removal of its entry to its notification an owner cannot be cancelled: it goes on to reply. */
  lemma {:induction false} RemovedOwnersReply(ids: seq<RequestId>, states: seq<State>, events: seq<Event>, j: nat,
                                              k: nat)
    requires Run(ids, states, events) && j < k < |states| && events[j].Remove?
    ensures events[j].t < |states[k].handlers|
    ensures var pc := states[k].handlers[events[j].t].pc; pc.Removed? || (pc.Replied? && pc.status == Ok)
  {
    assert StepAt(states, events, k - 1);
    if k > j + 1 {
      RemovedOwnersReply(ids, states, events, j, k - 1);
    }
  }

  /** A woken follower always finds a cached response of an execution of its request, so the CONFLICT
      reply is never sent. */
  lemma WokenFindsResponse(ids: seq<RequestId>, states: seq<State>, events: seq<Event>, k: nat, t: nat)
    requires Run(ids, states, events) && k < |states| && t < |ids|
    ensures |states[k].handlers| == |ids|
    ensures var s := states[k];
            && (s.handlers[t].pc.Woken? ==> s.handlers[t].id in s.completed)
            && (s.handlers[t].pc.Replied? ==> s.handlers[t].pc.status != Conflict)
  {
    InvariantHolds(ids, states, events, k);
    var s := states[k];
    assert FollowerFits(s.handlers, s.handlers[t]) && TimesFit(s.handlers[t], s.now, s.completed);
    if s.handlers[t].pc.Woken? {
      var o := s.handlers[t].pc.owner;
      assert TimesFit(s.handlers[o], s.now, s.completed);
    }
  }

  /** The reply of a woken follower: at every lookup the response is cached, and it is the reply. */
  lemma FollowerIsAnswered(ids: seq<RequestId>, states: seq<State>, events: seq<Event>, k: nat)
    requires Run(ids, states, events) && k < |events| && events[k].Lookup?
    ensures StepAt(states, events, k)
    ensures var t, r := events[k].t, states[k].handlers[events[k].t].id;
            && r in states[k].completed
            && states[k + 1].handlers[t].pc == Replied(Ok, Some(states[k].completed[r]))
  {
    assert StepAt(states, events, k);
    InvariantHolds(ids, states, events, k);
    WokenFindsResponse(ids, states, events, k, events[k].t);
  }

  /** Which replies there are, in every reachable state: success with a response, and without one only a refusal before
      anything was claimed: unauthorized before the completed-check, a bad request after it. */
  ghost predicate ReplyFits(h: Handler) {
    h.pc.Replied? ==>
      && (h.pc.status == Ok <==> h.pc.body.Some?)
      && (h.pc.status == Unauthorized ==> h.checkedAt.None? && h.claimedAt.None?)
      && (h.pc.status == BadRequest ==> h.checkedAt.Some? && h.claimedAt.None?)
      && h.pc.status != Conflict
  }

  lemma {:induction false} RepliesFit(ids: seq<RequestId>, states: seq<State>, events: seq<Event>, k: nat, t: nat)
    requires Run(ids, states, events) && k < |states| && t < |ids|
    ensures |states[k].handlers| == |ids| && ReplyFits(states[k].handlers[t])
  {
    InvariantHolds(ids, states, events, k);
    if k > 0 {
      RepliesFit(ids, states, events, k - 1, t);
      InvariantHolds(ids, states, events, k - 1);
      assert StepAt(states, events, k - 1);
      var s, e := states[k - 1], events[k - 1];
      assert TimesFit(s.handlers[t], s.now, s.completed);
      if t != e.t {
        OthersKept(s, e, t);
      } else if e.Lookup? {
        FollowerIsAnswered(ids, states, events, k - 1);
      }
    }
  }

  /** The last publication for `r` before step `k` is that of step `j`. */
  ghost predicate LastPublished(states: seq<State>, events: seq<Event>, k: nat, r: RequestId, j: nat) {
    && j < k <= |events| < |states|
    && PublishesAt(states, events, j, r)
    && forall i: nat :: j < i < k ==> !PublishesAt(states, events, i, r)
  }

  ghost predicate PublishesAt(states: seq<State>, events: seq<Event>, j: nat, r: RequestId) {
    && j < |events| && j < |states| && events[j].Publish? && events[j].t < |states[j].handlers|
    && states[j].handlers[events[j].t].id == r
  }

  /** The cache as history tells it: a request is cached exactly if some handler of it has published, with the response
      that the last of them held. */
  lemma {:induction false} CacheHoldsLastPublished(ids: seq<RequestId>, states: seq<State>, events: seq<Event>, k: nat,
                                                   r: RequestId)
    requires Run(ids, states, events) && k < |states|
    ensures r in states[k].completed <==> exists j: nat :: LastPublished(states, events, k, r, j)
    ensures forall j: nat :: LastPublished(states, events, k, r, j) ==>
              && states[j].handlers[events[j].t].pc.Executed?
              && r in states[k].completed
              && states[k].completed[r] == states[j].handlers[events[j].t].pc.response
  {
    if k > 0 {
      CacheHoldsLastPublished(ids, states, events, k - 1, r);
      assert StepAt(states, events, k - 1);
      if PublishesAt(states, events, k - 1, r) {
        assert LastPublished(states, events, k, r, k - 1);
      } else {
        forall j: nat ensures LastPublished(states, events, k, r, j) <==> LastPublished(states, events, k - 1, r, j) {
        }
        var before: nat := k - 1;
        if j: nat :| LastPublished(states, events, before, r, j) {
          assert LastPublished(states, events, k, r, j);
        }
      }
    }
  }

  /** An owner replies with the response of its own execution. */
  ghost predicate ExecutedAt(states: seq<State>, events: seq<Event>, k: nat, t: nat, response: Response) {
    exists j: nat :: j < k && j < |events| && events[j] == Execute(t, response)
  }

  lemma {:induction false} OwnerRepliesOwn(ids: seq<RequestId>, states: seq<State>, events: seq<Event>, k: nat, t: nat)
    requires Run(ids, states, events) && k < |states| && t < |ids|
    ensures |states[k].handlers| == |ids|
    ensures var h := states[k].handlers[t];
            h.claimedAt.Some? && ResponseOf(h.pc).Some? ==>
              ExecutedAt(states, events, k, t, ResponseOf(h.pc).value)
  {
    InvariantHolds(ids, states, events, k);
    if k > 0 {
      OwnerRepliesOwn(ids, states, events, k - 1, t);
      InvariantHolds(ids, states, events, k - 1);
      assert StepAt(states, events, k - 1);
      var s, e := states[k - 1], events[k - 1];
      assert TimesFit(s.handlers[t], s.now, s.completed);
      if t != e.t {
        OthersKept(s, e, t);
      }
    }
  }

  /** A request executes twice only through one gap: the second owner's completed-check came before the
      first one published, and its claim came after the first one removed the entry. */
  lemma SecondExecutionOnlyThroughGap(ids: seq<RequestId>, states: seq<State>, events: seq<Event>, k: nat,
                                      t: nat, u: nat)
    requires Run(ids, states, events) && k < |states| && t < |ids| && u < |ids| && t != u
    requires |states[k].handlers| == |ids|
    requires var h, h' := states[k].handlers[t], states[k].handlers[u];
             && h.id == h'.id
             && h.claimedAt.Some? && h'.claimedAt.Some? && h.claimedAt.value <= h'.claimedAt.value
    ensures var h, h' := states[k].handlers[t], states[k].handlers[u];
            && h.publishedAt.Some? && h.removedAt.Some? && h'.checkedAt.Some?
            && h'.checkedAt.value < h.publishedAt.value < h.removedAt.value < h'.claimedAt.value
  {
    InvariantHolds(ids, states, events, k);
    var s := states[k];
    assert PairFits(s.handlers[t], s.handlers[u]) && PairFits(s.handlers[u], s.handlers[t]);
    assert TimesFit(s.handlers[t], s.now, s.completed) && TimesFit(s.handlers[u], s.now, s.completed);
  }

  /** One more step of a run. */
  lemma OneStep(ids: seq<RequestId>, states: seq<State>, events: seq<Event>, e: Event)
    returns (states': seq<State>, events': seq<Event>)
    requires Run(ids, states, events) && Enabled(states[|events|], e)
    ensures Run(ids, states', events') && |events'| == |events| + 1
    ensures states'[|events'|] == Next(states[|events|], e)
  {
    RunContinues(ids, states, events, e);
    states', events' := states + [Next(states[|events|], e)], events + [e];
  }

  lemma BothCheck(r: RequestId) returns (states: seq<State>, events: seq<Event>)
    ensures Run([r, r], states, events)
    ensures var c := Handler(r, Checked, Some(0), None, None, None, None, None);
            states[|events|] == State([c, c.(checkedAt := Some(1))], map[], map[], 2)
  {
    states, events := [Init([r, r])], [];
    states, events := OneStep([r, r], states, events, Check(0));
    states, events := OneStep([r, r], states, events, Check(1));
  }

  lemma FirstFinishes(r: RequestId) returns (states: seq<State>, events: seq<Event>)
    ensures Run([r, r], states, events)
    ensures var s := states[|events|];
            && |s.handlers| == 2 && s.handlers[0].publishedAt.Some?
            && s.handlers[1] == Handler(r, Checked, Some(1), None, None, None, None, None)
            && r in s.completed && s.inFlight == map[]
  {
    states, events := BothCheck(r);
    states, events := OneStep([r, r], states, events, Claim(0));
    states, events := OneStep([r, r], states, events, Execute(0, "done"));
    states, events := OneStep([r, r], states, events, Publish(0));
    states, events := OneStep([r, r], states, events, Remove(0));
  }

  /** The gap is real: with two handlers of one request there is a run in which the second executes
      although the first has published its response. */
  lemma GapIsReachable(r: RequestId) returns (states: seq<State>, events: seq<Event>)
    ensures Run([r, r], states, events)
    ensures var s := states[|events|];
            |s.handlers| == 2 && s.handlers[1].pc.Executing? && s.handlers[0].publishedAt.Some? && r in s.completed
  {
    states, events := FirstFinishes(r);
    states, events := OneStep([r, r], states, events, Claim(1));
  }

  /** Without the gap there is none: a handler that checks after a publication is answered from the
      cache at once, and one that claims before the removal becomes a follower. */
  lemma ClaimOutcome(ids: seq<RequestId>, states: seq<State>, events: seq<Event>, k: nat)
    requires Run(ids, states, events) && k < |events|
    ensures StepAt(states, events, k)
    ensures var s, e, h := states[k], events[k], states[k].handlers[events[k].t];
            && (e.Check? && h.id in s.completed ==>
                  states[k + 1].handlers[e.t].pc == Replied(Ok, Some(s.completed[h.id])))
            && (e.Claim? ==>
                  (states[k + 1].handlers[e.t].pc.Executing? <==> forall u: nat :: !HolderOf(s, u, h.id)))
  {
    assert StepAt(states, events, k);
    InvariantHolds(ids, states, events, k);
    var s, e := states[k], events[k];
    var h := s.handlers[e.t];
    NoOverlap(ids, states, events, k, e.t, h.id);
  }

  /** A cancelled owner blocks its request for ever: in every continuation it keeps the entry, and no other handler
      holds or executes the request. */
  lemma {:induction false} CancelledOwnerBlocks(ids: seq<RequestId>, states: seq<State>, events: seq<Event>,
                                                k: nat, m: nat, o: nat)
    requires Run(ids, states, events) && k <= m < |states| && o < |ids|
    requires |states[k].handlers| == |ids| && states[k].handlers[o].pc == Cancelled(true)
    ensures |states[m].handlers| == |ids| && states[m].handlers[o] == states[k].handlers[o]
    ensures var r := states[k].handlers[o].id;
            && r in states[m].inFlight && states[m].inFlight[r] == o
            && forall u: nat :: HolderOf(states[m], u, r) ==> u == o
    decreases m
  {
    if k < m {
      CancelledOwnerBlocks(ids, states, events, k, m - 1, o);
      assert StepAt(states, events, m - 1);
      if o != events[m - 1].t {
        OthersKept(states[m - 1], events[m - 1], o);
      }
    }
    InvariantHolds(ids, states, events, m);
    assert HolderFits(states[m], o);
    NoOverlap(ids, states, events, m, o, states[k].handlers[o].id);
  }

  // ---------------------------------------------------------------------
  // Whose response a handler replies with
  // ---------------------------------------------------------------------

  /** Step `j` is an execution of request `r` that yields `response`. */
  ghost predicate Yields(states: seq<State>, events: seq<Event>, j: nat, r: RequestId, response: Response) {
    && j < |events| && j < |states|
    && events[j].Execute? && events[j].response == response
    && events[j].t < |states[j].handlers| && states[j].handlers[events[j].t].id == r
  }

  ghost predicate Produced(states: seq<State>, events: seq<Event>, k: nat, r: RequestId, response: Response) {
    exists j: nat :: j < k && Yields(states, events, j, r, response)
  }

  /** The response a handler has in hand or has sent. */
  function ResponseOf(pc: Pc): Option<Response> {
    match pc
    case Executed(response) => Some(response)
    case Published(response) => Some(response)
    case Removed(response) => Some(response)
    case Replied(_, body) => body
    case _ => None
  }

  /** Every response in the cache, in hand or sent comes from an earlier execution of the same request. */
  lemma {:induction false} ResponsesAreProduced(ids: seq<RequestId>, states: seq<State>, events: seq<Event>, k: nat)
    requires Run(ids, states, events) && k < |states|
    ensures forall r :: r in states[k].completed ==> Produced(states, events, k, r, states[k].completed[r])
    ensures forall t :: 0 <= t < |states[k].handlers| && ResponseOf(states[k].handlers[t].pc).Some? ==>
              Produced(states, events, k, states[k].handlers[t].id, ResponseOf(states[k].handlers[t].pc).value)
  {
    if k > 0 {
      ResponsesAreProduced(ids, states, events, k - 1);
      assert StepAt(states, events, k - 1);
      var s, e := states[k - 1], events[k - 1];
      if e.Execute? {
        assert Yields(states, events, k - 1, s.handlers[e.t].id, e.response);
      }
      forall t | 0 <= t < |s.handlers| && t != e.t
        ensures states[k].handlers[t].id == s.handlers[t].id
        ensures ResponseOf(states[k].handlers[t].pc) == ResponseOf(s.handlers[t].pc)
      {
        OthersKept(s, e, t);
      }
    }
  }

  // ---------------------------------------------------------------------
  // Which waiters are lost
  // ---------------------------------------------------------------------

  /** The owner has notified, or was cancelled: it will never notify again. */
  predicate OwnerGone(s: State, o: nat)
    requires o < |s.handlers|
  {
    s.handlers[o].pc.Replied? || s.handlers[o].pc.Cancelled?
  }

  /** A handler that waits on a notifier whose owner is gone waits for ever, in every continuation, unless
      it is itself cancelled. */
  lemma {:induction false} LostWaiterStays(ids: seq<RequestId>, states: seq<State>, events: seq<Event>,
                                           k: nat, m: nat, t: nat)
    requires Run(ids, states, events) && k <= m < |states| && t < |ids|
    requires |states[k].handlers| == |ids|
    requires var pc := states[k].handlers[t].pc;
             pc.Waiting? && pc.owner < |ids| && OwnerGone(states[k], pc.owner)
    ensures |states[m].handlers| == |ids|
    ensures OwnerGone(states[m], states[k].handlers[t].pc.owner)
    ensures states[m].handlers[t].pc == states[k].handlers[t].pc || states[m].handlers[t].pc == Cancelled(false)
  {
    if k < m {
      LostWaiterStays(ids, states, events, k, m - 1, t);
      assert StepAt(states, events, m - 1);
      var s, e, o := states[m - 1], events[m - 1], states[k].handlers[t].pc.owner;
      if t != e.t {
        OthersKept(s, e, t);
      }
      if o != e.t {
        OthersKept(s, e, o);
      }
    }
  }

  /** Whoever claims the request of a cancelled owner later only becomes such a follower. */
  lemma LaterClaimFollows(ids: seq<RequestId>, states: seq<State>, events: seq<Event>, k: nat, j: nat, o: nat)
    requires Run(ids, states, events) && k <= j < |events| && o < |ids|
    requires |states[k].handlers| == |ids| && states[k].handlers[o].pc == Cancelled(true)
    ensures StepAt(states, events, j) && |states[j + 1].handlers| == |ids|
    ensures var e := events[j];
            e.Claim? && states[j].handlers[e.t].id == states[k].handlers[o].id ==>
              states[j + 1].handlers[e.t].pc == Follower(o) && OwnerGone(states[j + 1], o)
  {
    CancelledOwnerBlocks(ids, states, events, k, j, o);
    CancelledOwnerBlocks(ids, states, events, k, j + 1, o);
    assert StepAt(states, events, j);
  }

  /** The owner's own steps up to and including its notification. */
  function RemainingSteps(pc: Pc): nat {
    match pc
    case Executing => 4
    case Executed(_) => 3
    case Published(_) => 2
    case Removed(_) => 1
    case _ => 0
  }

  function OwnerStep(pc: Pc, o: nat): Event
    requires RemainingSteps(pc) > 0
  {
    match pc
    case Executing => Execute(o, "done")
    case Executed(_) => Publish(o)
    case Published(_) => Remove(o)
    case Removed(_) => Notify(o)
  }

  lemma OwnerStepTowardsNotify(s: State, t: nat, o: nat)
    requires t < |s.handlers| && o < |s.handlers| && s.handlers[t].pc == Waiting(o)
    requires RemainingSteps(s.handlers[o].pc) > 0
    ensures var e := OwnerStep(s.handlers[o].pc, o);
            && Enabled(s, e)
            && (RemainingSteps(s.handlers[o].pc) == 1 ==> Next(s, e).handlers[t].pc == Woken(o))
            && (RemainingSteps(s.handlers[o].pc) > 1 ==>
                  && Next(s, e).handlers[t].pc == Waiting(o)
                  && RemainingSteps(Next(s, e).handlers[o].pc) == RemainingSteps(s.handlers[o].pc) - 1)
  {
  }

  lemma {:induction false} OwnerStepsWake(ids: seq<RequestId>, states: seq<State>, events: seq<Event>, t: nat, o: nat)
    returns (states': seq<State>, events': seq<Event>)
    requires Run(ids, states, events)
    requires var s := states[|events|];
             && t < |s.handlers| && o < |s.handlers|
             && s.handlers[t].pc == Waiting(o) && RemainingSteps(s.handlers[o].pc) > 0
    ensures Run(ids, states', events') && states <= states' && events <= events'
    ensures t < |states'[|events'|].handlers| && states'[|events'|].handlers[t].pc == Woken(o)
    decreases RemainingSteps(states[|events|].handlers[o].pc)
  {
    var s := states[|events|];
    var e := OwnerStep(s.handlers[o].pc, o);
    OwnerStepTowardsNotify(s, t, o);
    RunContinues(ids, states, events, e);
    states', events' := states + [Next(s, e)], events + [e];
    if RemainingSteps(s.handlers[o].pc) > 1 {
      states', events' := OwnerStepsWake(ids, states', events', t, o);
    }
  }

  /** A waiter whose owner is not gone can still be woken: the owner's next steps do it. */
  lemma LiveOwnerWakes(ids: seq<RequestId>, states: seq<State>, events: seq<Event>, t: nat)
    returns (states': seq<State>, events': seq<Event>)
    requires Run(ids, states, events) && t < |ids| && |states[|events|].handlers| == |ids|
    requires var pc := states[|events|].handlers[t].pc;
             pc.Waiting? && pc.owner < |ids| && !OwnerGone(states[|events|], pc.owner)
    ensures Run(ids, states', events') && states <= states' && events <= events'
    ensures t < |states'[|events'|].handlers|
    ensures states'[|events'|].handlers[t].pc == Woken(states[|events|].handlers[t].pc.owner)
  {
    var s := states[|events|];
    var o := s.handlers[t].pc.owner;
    InvariantHolds(ids, states, events, |events|);
    assert FollowerFits(s.handlers, s.handlers[t]) && TimesFit(s.handlers[o], s.now, s.completed);
    states', events' := OwnerStepsWake(ids, states, events, t, o);
  }

  /** A waiter is lost exactly if its owner was cancelled or notified before it began to wait. */
  lemma LostExactlyIfLate(ids: seq<RequestId>, states: seq<State>, events: seq<Event>, k: nat, t: nat)
    requires Run(ids, states, events) && k < |states| && t < |ids| && |states[k].handlers| == |ids|
    requires states[k].handlers[t].pc.Waiting?
    ensures var s := states[k];
            var w := s.handlers[t];
            && w.pc.owner < |ids| && w.waitingSince.Some?
            && var o := s.handlers[w.pc.owner];
               OwnerGone(s, w.pc.owner) <==>
                 o.pc.Cancelled? || (o.notifiedAt.Some? && o.notifiedAt.value < w.waitingSince.value)
  {
    InvariantHolds(ids, states, events, k);
    var s := states[k];
    assert FollowerFits(s.handlers, s.handlers[t]) && TimesFit(s.handlers[t], s.now, s.completed);
    var o := s.handlers[t].pc.owner;
    OwnersReplyByNotifying(ids, states, events, k, o);
    assert TimesFit(s.handlers[o], s.now, s.completed);
  }

  /** Two handlers of a request: the first executes, and the second follows it but does not wait yet. */
  lemma OwnerAndFollower(r: RequestId) returns (states: seq<State>, events: seq<Event>)
    ensures Run([r, r], states, events)
    ensures var s := states[|events|];
            && |s.handlers| == 2 && s.handlers[0].id == s.handlers[1].id == r
            && s.handlers[0].pc.Executing? && s.handlers[1].pc == Follower(0)
  {
    states, events := BothCheck(r);
    states, events := OneStep([r, r], states, events, Claim(0));
    states, events := OneStep([r, r], states, events, Claim(1));
  }

  /** A waiter is lost for real: the owner is cancelled while it executes, and the follower then begins to wait. */
  lemma LostThroughCancellation(r: RequestId) returns (states: seq<State>, events: seq<Event>)
    ensures Run([r, r], states, events)
    ensures var s := states[|events|];
            && |s.handlers| == 2 && s.handlers[1].pc == Waiting(0)
            && s.handlers[0].pc == Cancelled(true) && OwnerGone(s, 0)
  {
    states, events := OwnerAndFollower(r);
    states, events := OneStep([r, r], states, events, Cancel(0));
    states, events := OneStep([r, r], states, events, Wait(1));
  }

  /** Nor does it take a cancellation: the owner runs to its end and notifies before the follower begins to wait. */
  lemma LostThroughEarlyNotification(r: RequestId) returns (states: seq<State>, events: seq<Event>)
    ensures Run([r, r], states, events)
    ensures var s := states[|events|];
            && |s.handlers| == 2 && s.handlers[1].pc == Waiting(0) && OwnerGone(s, 0)
            && s.handlers[0].pc == Replied(Ok, Some("done")) && r in s.completed
  {
    states, events := OwnerAndFollower(r);
    states, events := OneStep([r, r], states, events, Execute(0, "done"));
    states, events := OneStep([r, r], states, events, Publish(0));
    states, events := OneStep([r, r], states, events, Remove(0));
    states, events := OneStep([r, r], states, events, Notify(0));
    states, events := OneStep([r, r], states, events, Wait(1));
  }

  /** An owner replies only by notifying. */
  lemma {:induction false} OwnersReplyByNotifying(ids: seq<RequestId>, states: seq<State>, events: seq<Event>,
                                                  k: nat, o: nat)
    requires Run(ids, states, events) && k < |states| && o < |ids|
    ensures |states[k].handlers| == |ids|
    ensures states[k].handlers[o].claimedAt.Some? && states[k].handlers[o].pc.Replied? ==>
              states[k].handlers[o].notifiedAt.Some?
  {
    InvariantHolds(ids, states, events, k);
    if k > 0 {
      OwnersReplyByNotifying(ids, states, events, k - 1, o);
      InvariantHolds(ids, states, events, k - 1);
      assert StepAt(states, events, k - 1);
      var s, e := states[k - 1], events[k - 1];
      assert TimesFit(s.handlers[o], s.now, s.completed);
      if o != e.t {
        OthersKept(s, e, o);
      }
    }
  }
}
