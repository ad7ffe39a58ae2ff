/** The rebalancer of internal/storage/rebalance.go: each ring event becomes one plan. */
module Rebalance {
  import opened Prelude
  import opened RingOrder
  import opened Assignments

  datatype RingEvent = RingEvent(version: int, assignments: seq<Assignment>)

  datatype VirtualNode = VirtualNode(id: string, token: Hash, ownerNodeId: string)

  datatype Plan = Plan(planId: string, ringVersion: int, assignments: seq<VirtualNode>)

  function PlanId(version: int): string {
    "rebalance-" + if version >= 0 then Itoa(version) else "-" + Itoa(-version)
  }

  /** "rebalance-" and the version in decimal. */
  ghost predicate NamesVersion(planId: string, version: int) {
    exists digits :: NamesDigits(planId, version, digits)
  }

  predicate NamesDigits(planId: string, version: int, digits: string) {
    && planId == "rebalance-" + (if version < 0 then "-" else "") + digits
    && Spells(digits, if version < 0 then -version else version)
  }

  lemma PlanIdNames(version: int)
    ensures NamesVersion(PlanId(version), version)
  {
    var n: nat := if version < 0 then -version else version;
    ItoaSpells(n);
    assert PlanId(version) == "rebalance-" + (if version < 0 then "-" else "") + Itoa(n);
    assert NamesDigits(PlanId(version), version, Itoa(n));
  }

  function VirtualNodes(assignments: seq<Assignment>): (r: seq<VirtualNode>)
    ensures |r| == |assignments|
  {
    seq(|assignments|, i requires 0 <= i < |assignments| =>
      VirtualNode(assignments[i].id, assignments[i].token, assignments[i].nodeId))
  }

  function PlanFor(evt: RingEvent): Plan {
    Plan(PlanId(evt.version), evt.version, VirtualNodes(evt.assignments))
  }

  function PlansFor(events: seq<RingEvent>): (r: seq<Plan>)
    ensures |r| == |events|
  {
    seq(|events|, i requires 0 <= i < |events| => PlanFor(events[i]))
  }

  lemma VirtualNodesInjective(a: seq<Assignment>, b: seq<Assignment>)
    requires VirtualNodes(a) == VirtualNodes(b)
    ensures a == b
  {
    forall i | 0 <= i < |a| ensures a[i] == b[i] {
      assert VirtualNodes(a)[i] == VirtualNodes(b)[i];
    }
  }

  /**
   The event loop over the events that arrive before the context ends: one plan per event, in order, up to and
   including the first the executor refuses.
   */
  method Run(events: seq<RingEvent>, executor: Plan -> bool) returns (plans: seq<Plan>, ok: bool)
    ensures |plans| <= |events| && plans == PlansFor(events[..|plans|])
    ensures forall i :: 0 <= i < |plans| ==>
              && plans[i].ringVersion == events[i].version
              && |plans[i].assignments| == |events[i].assignments|
              && forall k :: 0 <= k < |plans[i].assignments| ==>
                   var a, v := events[i].assignments[k], plans[i].assignments[k];
                   v.id == a.id && v.token == a.token && v.ownerNodeId == a.nodeId
    ensures forall i :: 0 <= i < |plans| ==> NamesVersion(plans[i].planId, events[i].version)
    ensures ok <==> forall i :: 0 <= i < |events| ==> executor(PlanFor(events[i]))
    ensures forall i :: 0 <= i < |plans| - (if ok then 0 else 1) ==> executor(plans[i])
    ensures ok ==> |plans| == |events|
    ensures !ok ==> plans != [] && !executor(plans[|plans| - 1])
  {
    plans := [];
    var i := 0;
    while i < |events|
      invariant 0 <= i <= |events| && plans == PlansFor(events[..i])
      invariant forall j :: 0 <= j < i ==> NamesVersion(plans[j].planId, events[j].version)
      invariant forall j :: 0 <= j < i ==> executor(PlanFor(events[j]))
    {
      var plan := BuildPlan(events[i]);
      PlanIdNames(events[i].version);
      plans := plans + [plan];
      assert plans == PlansFor(events[..i + 1]);
      if !executor(plan) {
        return plans, false;
      }
      i := i + 1;
    }
    return plans, true;
  }

  method BuildPlan(evt: RingEvent) returns (plan: Plan)
    ensures plan == PlanFor(evt)
  {
    var nodes: seq<VirtualNode> := [];
    var i := 0;
    while i < |evt.assignments|
      invariant 0 <= i <= |evt.assignments| && nodes == VirtualNodes(evt.assignments)[..i]
    {
      var a := evt.assignments[i];
      nodes := nodes + [VirtualNode(a.id, a.token, a.nodeId)];
      i := i + 1;
    }
    return Plan(PlanId(evt.version), evt.version, nodes);
  }
}
