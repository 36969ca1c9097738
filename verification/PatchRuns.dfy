/** What the patch manager guarantees over whole runs. */
module PatchRuns {
  import opened Wrappers
  import opened PromptPatches

  /** The fields before event `k` of a run that starts with no patches. */
  ghost function Before(start: Fields, run: seq<Event>, k: nat): (f: Fields)
    requires k <= |run|
    ensures f.max == start.max
  {
    if k == 0 then start.(patches := []) else After(Before(start, run, k - 1), run[k - 1])
  }

  /** Event `l` proposes a patch with this id. */
  ghost predicate Proposes(run: seq<Event>, l: nat, id: string) {
    l < |run| && run[l].Propose? && run[l].patch.id == id
  }

  /** Ids are unique: no two events propose the same one. */
  ghost predicate ProposedOnce(run: seq<Event>) {
    forall l: nat, m: nat, id :: Proposes(run, l, id) && Proposes(run, m, id) ==> l == m
  }

  ghost predicate IsNew(patch: Patch) {
    patch.status == Proposed && patch.appliedCount == 0 && patch.successRate == 0.0
  }

  /** Every proposed patch is a new one. */
  ghost predicate ProposesNew(run: seq<Event>) {
    forall k :: 0 <= k < |run| && run[k].Propose? ==> IsNew(run[k].patch)
  }

  ghost predicate Coherent(patches: seq<Patch>) {
    forall p, q :: p in patches && q in patches && p.id == q.id ==> p == q
  }

  /** Status changes that a step may make. */
  predicate MayBecome(from: Status, to: Status) {
    from == to || (from == Proposed && to in {Approved, Rejected}) || (from == Approved && to == Expired)
  }

  /** Status changes that any number of steps may make. */
  predicate MayEndAs(from: Status, to: Status) {
    MayBecome(from, to) || (from == Proposed && to == Expired)
  }

  // ---------------------------------------------------------------------
  // One step
  // ---------------------------------------------------------------------

  /** How an event changes a patch that stays. */
  ghost predicate Changes(event: Event, p: Patch, q: Patch) {
    match event
    case Propose(_) => q == p
    case Approve(id) => q == p || (p.id == id && p.status == Proposed && q == p.(status := Approved))
    case Reject(id) => q == p || (p.id == id && p.status == Proposed && q == p.(status := Rejected))
    case RecordOutcome(ids, success) => q == WithOutcome(p, ids, success)
    case Expire(count, rate) => q == Checked(p, count, rate)
  }

  lemma DecidedFrom(patches: seq<Patch>, id: string, status: Status, q: Patch) returns (p: Patch)
    requires q in Decided(patches, id, status)
    ensures p in patches && (q == p || (p.id == id && p.status == Proposed && q == p.(status := status)))
  {
    var i :| 0 <= i < |patches| && Decided(patches, id, status)[i] == q;
    p := patches[i];
  }

  lemma MappedFrom(patches: seq<Patch>, change: Patch -> Patch, q: Patch) returns (p: Patch)
    requires q in Mapped(patches, change)
    ensures p in patches && q == change(p)
  {
    var i :| 0 <= i < |patches| && Mapped(patches, change)[i] == q;
    p := patches[i];
  }

  /** Where a patch after an event comes from: it was there before, or was just proposed. */
  lemma PatchFrom(f: Fields, event: Event, q: Patch) returns (p: Patch, entered: bool)
    requires q in After(f, event).patches
    ensures if entered then event.Propose? && p == event.patch && q == Entering(f, p)
            else p in f.patches && p.id == q.id && Changes(event, p, q)
  {
    entered := false;
    match event
    case Propose(patch) =>
      p, entered := if q in f.patches then q else patch, q !in f.patches;
    case Approve(id) => p := DecidedFrom(f.patches, id, Approved, q);
    case Reject(id) => p := DecidedFrom(f.patches, id, Rejected, q);
    case RecordOutcome(ids, success) =>
      p := MappedFrom(f.patches, (patch: Patch) => WithOutcome(patch, ids, success), q);
    case Expire(count, rate) => p := MappedFrom(f.patches, (patch: Patch) => Checked(patch, count, rate), q);
  }

  // ---------------------------------------------------------------------
  // Ids
  // ---------------------------------------------------------------------

  ghost predicate WasProposed(run: seq<Event>, k: nat, id: string) {
    exists l: nat :: l < k && Proposes(run, l, id)
  }

  lemma {:induction false} PatchesWereProposed(start: Fields, run: seq<Event>, k: nat, q: Patch)
    requires k <= |run| && q in Before(start, run, k).patches
    ensures WasProposed(run, k, q.id)
  {
    var p, entered := PatchFrom(Before(start, run, k - 1), run[k - 1], q);
    if entered {
      assert Proposes(run, k - 1, q.id);
    } else {
      PatchesWereProposed(start, run, k - 1, p);
      var l: nat :| l < k - 1 && Proposes(run, l, p.id);
    }
  }

  /** A patch that was there before is not the one that is proposed now. */
  lemma {:induction false} OldIsNotProposed(start: Fields, run: seq<Event>, k: nat, p: Patch)
    requires ProposedOnce(run) && k < |run| && p in Before(start, run, k).patches
    ensures run[k].Propose? ==> run[k].patch.id != p.id
  {
    PatchesWereProposed(start, run, k, p);
    var l: nat :| l < k && Proposes(run, l, p.id);
    assert !Proposes(run, k, p.id);
  }

  ghost predicate DistinctIds(patches: seq<Patch>) {
    forall i, j :: 0 <= i < j < |patches| ==> patches[i].id != patches[j].id
  }

  lemma DistinctStep(f: Fields, event: Event)
    requires DistinctIds(f.patches)
    requires event.Propose? ==> forall p :: p in f.patches ==> p.id != event.patch.id
    ensures DistinctIds(After(f, event).patches)
  {
  }

  lemma {:induction false} NextIdsAreDistinct(start: Fields, run: seq<Event>, k: nat, f: Fields)
    requires ProposedOnce(run) && k < |run| && f == Before(start, run, k) && DistinctIds(f.patches)
    ensures DistinctIds(After(f, run[k]).patches)
  {
    forall p | p in f.patches ensures run[k].Propose? ==> p.id != run[k].patch.id {
      OldIsNotProposed(start, run, k, p);
    }
    DistinctStep(f, run[k]);
  }

  lemma {:induction false} IdsAreDistinct(start: Fields, run: seq<Event>, k: nat)
    requires ProposedOnce(run) && k <= |run|
    ensures DistinctIds(Before(start, run, k).patches)
  {
    for i := 0 to k
      invariant DistinctIds(Before(start, run, i).patches)
    {
      NextIdsAreDistinct(start, run, i, Before(start, run, i));
    }
  }

  lemma {:induction false} SameIdSamePatch(start: Fields, run: seq<Event>, k: nat, p: Patch, q: Patch)
    requires ProposedOnce(run) && k <= |run|
    requires p in Before(start, run, k).patches && q in Before(start, run, k).patches && p.id == q.id
    ensures p == q
  {
    IdsAreDistinct(start, run, k);
  }

  // ---------------------------------------------------------------------
  // The success rate
  // ---------------------------------------------------------------------

  /** Event `k` records an outcome for the patch `id` while it is approved. */
  ghost predicate Applies(start: Fields, run: seq<Event>, k: nat, id: string) {
    && k < |run| && run[k].RecordOutcome? && id in run[k].ids
    && exists p :: p in Before(start, run, k).patches && p.id == id && p.status == Approved
  }

  ghost function Applications(start: Fields, run: seq<Event>, k: nat, id: string): nat {
    if k == 0 then 0
    else Applications(start, run, k - 1, id) + (if Applies(start, run, k - 1, id) then 1 else 0)
  }

  ghost function Successes(start: Fields, run: seq<Event>, k: nat, id: string): nat {
    if k == 0 then 0
    else Successes(start, run, k - 1, id) + (if Applies(start, run, k - 1, id) && run[k - 1].success then 1 else 0)
  }

  lemma {:induction false} NoneBeforeProposal(start: Fields, run: seq<Event>, k: nat, id: string)
    requires k <= |run| && !WasProposed(run, k, id)
    ensures Applications(start, run, k, id) == 0 && Successes(start, run, k, id) == 0
  {
    if k > 0 {
      assert !WasProposed(run, k - 1, id);
      NoneBeforeProposal(start, run, k - 1, id);
      if p :| p in Before(start, run, k - 1).patches && p.id == id {
        PatchesWereProposed(start, run, k - 1, p);
      }
    }
  }

  /** `p` was applied `count` times, `successes` of them successfully. */
  ghost predicate Averages(p: Patch, count: nat, successes: nat) {
    p.appliedCount == count && successes <= count && p.successRate * count as real == successes as real
  }

  lemma AverageStep(rate: real, count: nat, successes: nat, success: bool)
    requires rate * count as real == successes as real
    ensures RunningAverage(rate, count, success) * (count + 1) as real ==
            (successes + (if success then 1 else 0)) as real
  {
  }

  lemma ChangeKeepsAverage(event: Event, p: Patch, q: Patch, count: nat, successes: nat)
    requires Averages(p, count, successes) && Changes(event, p, q) && p.id == q.id
    ensures var applies := event.RecordOutcome? && p.id in event.ids && p.status == Approved;
            Averages(q, if applies then count + 1 else count,
                     if applies && event.success then successes + 1 else successes)
  {
    if event.RecordOutcome? {
      AverageStep(p.successRate, count, successes, event.success);
    }
  }

  /** In exact arithmetic the rate of a patch times its count is the number of successes that were recorded for
      it while it was approved, and the count is how often it was recorded then. */
  lemma {:induction false} RateIsExact(start: Fields, run: seq<Event>, k: nat, q: Patch)
    requires ProposedOnce(run) && ProposesNew(run) && k <= |run| && q in Before(start, run, k).patches
    ensures Averages(q, Applications(start, run, k, q.id), Successes(start, run, k, q.id))
  {
    var f, event := Before(start, run, k - 1), run[k - 1];
    var p, entered := PatchFrom(f, event, q);
    if entered {
      if WasProposed(run, k - 1, q.id) {
        var l: nat :| l < k - 1 && Proposes(run, l, q.id);
        assert Proposes(run, k - 1, q.id);
      }
      NoneBeforeProposal(start, run, k - 1, q.id);
    } else {
      RateIsExact(start, run, k - 1, p);
      AppliesIff(start, run, k - 1, p);
      ChangeKeepsAverage(event, p, q, Applications(start, run, k - 1, p.id), Successes(start, run, k - 1, p.id));
    }
  }

  lemma {:induction false} AppliesIff(start: Fields, run: seq<Event>, k: nat, p: Patch)
    requires ProposedOnce(run) && k < |run| && p in Before(start, run, k).patches
    ensures Applies(start, run, k, p.id) <==> run[k].RecordOutcome? && p.id in run[k].ids && p.status == Approved
  {
    if Applies(start, run, k, p.id) {
      var q :| q in Before(start, run, k).patches && q.id == p.id && q.status == Approved;
      SameIdSamePatch(start, run, k, p, q);
    }
  }

  /** So it is a rate. */
  lemma {:induction false} RateIsARate(start: Fields, run: seq<Event>, k: nat, q: Patch)
    requires ProposedOnce(run) && ProposesNew(run) && k <= |run| && q in Before(start, run, k).patches
    requires q.appliedCount > 0
    ensures IsFraction(q.successRate, Successes(start, run, k, q.id), Applications(start, run, k, q.id))
  {
    RateIsExact(start, run, k, q);
    AverageIsFraction(q, Applications(start, run, k, q.id), Successes(start, run, k, q.id));
  }

  ghost predicate IsFraction(rate: real, part: nat, whole: nat) {
    0 < whole && part <= whole && 0.0 <= rate <= 1.0 && rate == part as real / whole as real
  }

  lemma AverageIsFraction(q: Patch, count: nat, successes: nat)
    requires Averages(q, count, successes) && count > 0
    ensures IsFraction(q.successRate, successes, count)
  {
    Quotient(q.successRate, count as real, successes as real);
  }

  lemma Quotient(rate: real, count: real, successes: real)
    requires rate * count == successes && 0.0 <= successes <= count && count > 0.0
    ensures rate == successes / count && 0.0 <= rate <= 1.0
  {
    var quotient := successes / count;
    assert quotient * count == successes;
    assert (rate - quotient) * count == 0.0;
    assert rate > 1.0 ==> (rate - 1.0) * count > 0.0;
  }

  // ---------------------------------------------------------------------
  // The life of a patch
  // ---------------------------------------------------------------------

  /** What an event leaves alone, and how it may move the status. */
  ghost predicate Ages(p: Patch, q: Patch) {
    && MayEndAs(p.status, q.status)
    && q == p.(status := q.status, appliedCount := q.appliedCount, successRate := q.successRate)
    && p.appliedCount <= q.appliedCount
  }

  /** Over any stretch of a run a patch only moves forward: from proposed to approved or rejected, from approved
      to expired. */
  lemma {:induction false} StatusOnlyMovesForward(start: Fields, run: seq<Event>, i: nat, k: nat, p: Patch, q: Patch)
    requires ProposedOnce(run) && i <= k <= |run|
    requires p in Before(start, run, i).patches && q in Before(start, run, k).patches && p.id == q.id
    ensures Ages(p, q)
    decreases k - i
  {
    if i == k {
      SameIdSamePatch(start, run, k, p, q);
    } else {
      var m, entered := PatchFrom(Before(start, run, k - 1), run[k - 1], q);
      if entered {
        PatchesWereProposed(start, run, i, p);
        var l: nat :| l < i && Proposes(run, l, p.id);
        assert Proposes(run, k - 1, q.id);
      } else {
        StatusOnlyMovesForward(start, run, i, k - 1, p, m);
      }
    }
  }

  /** One event moves it by one step, and only as the event says. */
  lemma {:induction false} StatusStep(start: Fields, run: seq<Event>, k: nat, p: Patch, q: Patch)
    requires ProposedOnce(run) && k < |run|
    requires p in Before(start, run, k).patches && q in Before(start, run, k + 1).patches && p.id == q.id
    ensures MayBecome(p.status, q.status)
    ensures p.status != q.status ==>
              match q.status
              case Approved => run[k] == Approve(p.id)
              case Rejected => run[k] == Reject(p.id)
              case Expired =>
                run[k].Expire? && p.appliedCount >= run[k].minApplications && p.successRate < run[k].minSuccessRate
              case Proposed => false
  {
    var m, entered := PatchFrom(Before(start, run, k), run[k], q);
    OldIsNotProposed(start, run, k, p);
    if !entered {
      SameIdSamePatch(start, run, k, p, m);
    }
  }

  // ---------------------------------------------------------------------
  // Capacity and eviction
  // ---------------------------------------------------------------------

  /** The list never exceeds its maximum. */
  lemma {:induction false} CapacityHolds(start: Fields, run: seq<Event>, k: nat)
    requires k <= |run|
    ensures |Before(start, run, k).patches| <= start.max
  {
    if k > 0 {
      CapacityHolds(start, run, k - 1);
    }
  }

  /** A patch stays unless a proposal to a full list evicts it, as one of the lowest-confidence expired or
      rejected patches. */
  lemma OnlyLowestIsEvicted(f: Fields, event: Event, p: Patch)
    requires p in f.patches
    ensures (exists q :: q in After(f, event).patches && q.id == p.id)
            || (event.Propose? && |f.patches| >= f.max && Evictable(p)
                && (forall r :: r in f.patches && Evictable(r) ==> p.confidence <= r.confidence)
                && |After(f, event).patches| == |f.patches|)
  {
    var i :| 0 <= i < |f.patches| && f.patches[i] == p;
    var after := After(f, event).patches;
    if event.Propose? {
      var lowest := LowestEvictable(f.patches, |f.patches|);
      LowestEvictableMeaning(f.patches, |f.patches|);
      var room := Room(f, event.patch);
      if room.None? || |f.patches| < f.max {
        assert after[i] == p;
      } else if i != lowest {
        assert after[if i < lowest then i else i - 1] == p;
      }
    } else {
      assert after[i].id == p.id;
    }
  }
}
