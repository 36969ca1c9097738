/** The manager of learned prompt patches. Confidences and rates are reals. */
module PromptPatches {
  import opened Wrappers

  datatype Kind = ToolUsageHint | ErrorAvoidance | WorkflowPattern | DomainKnowledge | StylePreference
  datatype Status = Proposed | Approved | Rejected | Expired

  datatype Patch = Patch(
    id: string, kind: Kind, content: string, sourceTask: string, confidence: real,
    status: Status, appliedCount: nat, successRate: real)

  datatype Outcome = Ok | Invalid | NotFound | WrongStatus

  predicate LowRisk(patch: Patch) {
    patch.kind in {ToolUsageHint, StylePreference}
  }

  predicate Evictable(patch: Patch) {
    patch.status in {Expired, Rejected}
  }

  /** The first of the lowest-confidence evictable patches among the first `n`; `n` if there is none. */
  function LowestEvictable(patches: seq<Patch>, n: nat): (lowest: nat)
    requires n <= |patches|
    ensures lowest <= n
  {
    if n == 0 then 0
    else
      var lowest := LowestEvictable(patches, n - 1);
      if lowest == n - 1 then (if Evictable(patches[n - 1]) then n - 1 else n)
      else if Evictable(patches[n - 1]) && patches[n - 1].confidence < patches[lowest].confidence then n - 1
      else lowest
  }

  lemma {:induction false} LowestEvictableMeaning(patches: seq<Patch>, n: nat)
    requires n <= |patches|
    ensures var lowest := LowestEvictable(patches, n);
            && (lowest < n ==> Evictable(patches[lowest]))
            && (forall i :: 0 <= i < n && Evictable(patches[i]) ==>
                  lowest < n && patches[lowest].confidence <= patches[i].confidence
                  && (i < lowest ==> patches[lowest].confidence < patches[i].confidence))
  {
    if n > 0 {
      LowestEvictableMeaning(patches, n - 1);
    }
  }

  function WithoutAt<T>(s: seq<T>, i: nat): seq<T>
    requires i < |s|
  {
    s[..i] + s[i + 1..]
  }

  /** The patches after an eviction, if one is possible. */
  function Evicted(patches: seq<Patch>): (left: Option<seq<Patch>>) {
    var lowest := LowestEvictable(patches, |patches|);
    if lowest < |patches| then Some(WithoutAt(patches, lowest)) else None
  }

  /** There is room to be made exactly if some patch has expired or was rejected. */
  lemma EvictedIff(patches: seq<Patch>)
    ensures Evicted(patches).Some? <==> exists p :: p in patches && p.status in {Expired, Rejected}
  {
    LowestEvictableMeaning(patches, |patches|);
    if p :| p in patches && p.status in {Expired, Rejected} {
      var i :| 0 <= i < |patches| && patches[i] == p;
      assert Evictable(patches[i]);
    }
  }

  function FirstWithId(patches: seq<Patch>, id: string, i: nat): (found: nat)
    requires i <= |patches|
    ensures i <= found <= |patches|
    ensures found < |patches| ==> patches[found].id == id
    decreases |patches| - i
  {
    if i == |patches| || patches[i].id == id then i else FirstWithId(patches, id, i + 1)
  }

  function Decided(patches: seq<Patch>, id: string, status: Status): (decided: seq<Patch>) {
    var found := FirstWithId(patches, id, 0);
    if found < |patches| && patches[found].status == Proposed
    then patches[found := patches[found].(status := status)]
    else patches
  }

  /** The running average with one more outcome. */
  function RunningAverage(rate: real, count: nat, success: bool): real {
    (rate * count as real + (if success then 1.0 else 0.0)) / (count as real + 1.0)
  }

  lemma AverageTimesCount(rate: real, count: nat, success: bool)
    ensures RunningAverage(rate, count, success) * (count + 1) as real ==
            rate * count as real + (if success then 1.0 else 0.0)
  {
  }

  function WithOutcome(patch: Patch, ids: seq<string>, success: bool): Patch {
    if patch.id in ids && patch.status == Approved then
      patch.(successRate := RunningAverage(patch.successRate, patch.appliedCount, success),
             appliedCount := patch.appliedCount + 1)
    else patch
  }

  function Checked(patch: Patch, minApplications: nat, minSuccessRate: real): Patch {
    if patch.status == Approved && patch.appliedCount >= minApplications && patch.successRate < minSuccessRate
    then patch.(status := Expired) else patch
  }

  function Mapped(patches: seq<Patch>, change: Patch -> Patch): (mapped: seq<Patch>) {
    seq(|patches|, i requires 0 <= i < |patches| => change(patches[i]))
  }

  datatype Fields = Fields(patches: seq<Patch>, max: nat, threshold: real)

  datatype Event =
    | Propose(patch: Patch) | Approve(id: string) | Reject(id: string)
    | RecordOutcome(ids: seq<string>, success: bool) | Expire(minApplications: nat, minSuccessRate: real)

  /** The patch as it enters the list. */
  function Entering(f: Fields, patch: Patch): Patch {
    if LowRisk(patch) && patch.confidence >= f.threshold then patch.(status := Approved) else patch
  }

  /** The list a proposed patch is added to, if it can be added. */
  function Room(f: Fields, patch: Patch): (room: Option<seq<Patch>>) {
    if patch.content == "" then None else if |f.patches| >= f.max then Evicted(f.patches) else Some(f.patches)
  }

  function After(f: Fields, event: Event): (after: Fields) {
    match event
    case Propose(patch) =>
      var room := Room(f, patch);
      if room.Some? then f.(patches := room.value + [Entering(f, patch)]) else f
    case Approve(id) => f.(patches := Decided(f.patches, id, Approved))
    case Reject(id) => f.(patches := Decided(f.patches, id, Rejected))
    case RecordOutcome(ids, success) =>
      f.(patches := Mapped(f.patches, (patch: Patch) => WithOutcome(patch, ids, success)))
    case Expire(count, rate) => f.(patches := Mapped(f.patches, (patch: Patch) => Checked(patch, count, rate)))
  }

  /** The patches below `i` are changed, the others not yet. */
  ghost predicate MappedUpTo(before: seq<Patch>, now: seq<Patch>, change: Patch -> Patch, i: nat) {
    && |now| == |before|
    && forall j :: 0 <= j < |now| ==> now[j] == if j < i then change(before[j]) else before[j]
  }

  lemma MapStep(before: seq<Patch>, now: seq<Patch>, change: Patch -> Patch, i: nat)
    requires MappedUpTo(before, now, change, i) && i < |now|
    ensures MappedUpTo(before, now[i := change(now[i])], change, i + 1)
    ensures now[i := now[i]] == now
  {
  }

  lemma MapEnds(before: seq<Patch>, now: seq<Patch>, change: Patch -> Patch)
    requires MappedUpTo(before, now, change, |now|)
    ensures now == Mapped(before, change)
  {
  }

  class Manager {
    var patches: seq<Patch>
    var maxPatches: nat
    var autoApproveThreshold: real

    function Value(): Fields
      reads this
    {
      Fields(patches, maxPatches, autoApproveThreshold)
    }

    constructor ()
      ensures Value() == Fields([], 20, 0.8)
    {
      patches, maxPatches, autoApproveThreshold := [], 20, 0.8;
    }

    method EvictOne() returns (evicted: bool)
      modifies this`patches
      ensures evicted <==> Evicted(old(patches)).Some?
      ensures patches == if evicted then Evicted(old(patches)).value else old(patches)
    {
      var lowest: nat := |patches|;
      for i := 0 to |patches|
        invariant if LowestEvictable(patches, i) == i then lowest == |patches|
                  else lowest == LowestEvictable(patches, i)
      {
        if Evictable(patches[i]) && (lowest == |patches| || patches[i].confidence < patches[lowest].confidence) {
          lowest := i;
        }
      }
      evicted := lowest < |patches|;
      if evicted {
        patches := WithoutAt(patches, lowest);
      }
    }

    method ProposePatch(patch: Patch) returns (id: Option<string>)
      modifies this`patches
      ensures Value() == After(old(Value()), Propose(patch))
      ensures id == if Room(old(Value()), patch).Some? then Some(patch.id) else None
      ensures id.Some? <==>
                && patch.content != ""
                && (|old(patches)| < maxPatches || exists p :: p in old(patches) && p.status in {Expired, Rejected})
      ensures id.Some? ==>
                && patches != []
                && patches[|patches| - 1] ==
                   (if patch.kind in {ToolUsageHint, StylePreference} && patch.confidence >= autoApproveThreshold
                    then patch.(status := Approved) else patch)
                && (|old(patches)| < maxPatches ==> patches[..|patches| - 1] == old(patches))
    {
      EvictedIff(patches);
      if patch.content == "" {
        return None;
      }
      if |patches| >= maxPatches {
        var evicted := EvictOne();
        if !evicted {
          return None;
        }
      }
      var entering := patch;
      if LowRisk(patch) && patch.confidence >= autoApproveThreshold {
        entering := patch.(status := Approved);
      }
      patches := patches + [entering];
      id := Some(patch.id);
    }

    method Decide(id: string, status: Status) returns (outcome: Outcome)
      modifies this`patches
      ensures patches == Decided(old(patches), id, status)
      ensures outcome == NotFound <==> forall i :: 0 <= i < |old(patches)| ==> old(patches)[i].id != id
      ensures outcome == Ok ==>
                exists i :: 0 <= i < |old(patches)| && old(patches)[i].id == id && old(patches)[i].status == Proposed
                            && (forall j :: 0 <= j < i ==> old(patches)[j].id != id)
                            && patches == old(patches)[i := old(patches)[i].(status := status)]
      ensures outcome in {NotFound, WrongStatus} ==> patches == old(patches)
      ensures outcome == WrongStatus <==>
                exists i :: 0 <= i < |old(patches)| && old(patches)[i].id == id && old(patches)[i].status != Proposed
                            && forall j :: 0 <= j < i ==> old(patches)[j].id != id
      ensures var found := FirstWithId(old(patches), id, 0);
              outcome == if found == |old(patches)| then NotFound
                         else if old(patches)[found].status != Proposed then WrongStatus
                         else Ok
    {
      var found := 0;
      while found < |patches| && patches[found].id != id
        invariant found <= |patches|
        invariant FirstWithId(patches, id, found) == FirstWithId(patches, id, 0)
        invariant forall j :: 0 <= j < found ==> patches[j].id != id
      {
        found := found + 1;
      }
      if found == |patches| {
        return NotFound;
      }
      if patches[found].status != Proposed {
        return WrongStatus;
      }
      patches := patches[found := patches[found].(status := status)];
      outcome := Ok;
    }

    method ApprovePatch(id: string) returns (outcome: Outcome)
      modifies this`patches
      ensures Value() == After(old(Value()), Approve(id))
    {
      outcome := Decide(id, Approved);
    }

    method RejectPatch(id: string) returns (outcome: Outcome)
      modifies this`patches
      ensures Value() == After(old(Value()), Reject(id))
    {
      outcome := Decide(id, Rejected);
    }

    method RecordTaskOutcome(ids: seq<string>, success: bool)
      modifies this`patches
      ensures Value() == After(old(Value()), RecordOutcome(ids, success))
      ensures |patches| == |old(patches)|
      ensures forall i :: 0 <= i < |patches| ==>
                var p := old(patches)[i];
                if p.id in ids && p.status == Approved
                then && patches[i] == p.(successRate := patches[i].successRate, appliedCount := p.appliedCount + 1)
                     && patches[i].successRate * (p.appliedCount + 1) as real ==
                        p.successRate * p.appliedCount as real + (if success then 1.0 else 0.0)
                else patches[i] == p
    {
      ghost var before, change := patches, (patch: Patch) => WithOutcome(patch, ids, success);
      for i := 0 to |patches|
        invariant MappedUpTo(before, patches, change, i)
      {
        MapStep(before, patches, change, i);
        var patch := patches[i];
        if patch.id in ids && patch.status == Approved {
          var successRate := RunningAverage(patch.successRate, patch.appliedCount, success);
          patches := patches[i := patch.(successRate := successRate, appliedCount := patch.appliedCount + 1)];
        }
      }
      MapEnds(before, patches, change);
    }

    method ExpireUnderperforming(minApplications: nat, minSuccessRate: real)
      modifies this`patches
      ensures Value() == After(old(Value()), Expire(minApplications, minSuccessRate))
      ensures |patches| == |old(patches)|
      ensures forall i :: 0 <= i < |patches| ==>
                var p := old(patches)[i];
                patches[i] == if p.status == Approved && p.appliedCount >= minApplications
                                 && p.successRate < minSuccessRate
                              then p.(status := Expired) else p
    {
      ghost var before, change := patches, (patch: Patch) => Checked(patch, minApplications, minSuccessRate);
      for i := 0 to |patches|
        invariant MappedUpTo(before, patches, change, i)
      {
        MapStep(before, patches, change, i);
        var patch := patches[i];
        if patch.status == Approved && patch.appliedCount >= minApplications && patch.successRate < minSuccessRate {
          patches := patches[i := patch.(status := Expired)];
        }
      }
      MapEnds(before, patches, change);
    }
  }
}
