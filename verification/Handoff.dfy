/** The sequential key handoff: the loop that accepts a run, and what acceptance
    says about the whole run. */
module Handoff {
  import opened Sequences
  import opened HandoffData

  const Order: seq<string> := ["follower", "follower", "leader", "gateway"]

  /** Everything the checker reads: the cluster before the handoff, the process
      tables and the recorded steps. */
  datatype Run = Run(
    initial: Cluster, initialProcesses: seq<Process>, continuityProcesses: seq<Process>, steps: seq<Step>)

  /** Nodes that sign with the new key. */
  function OnNewKey(controls: seq<Control>): set<string> {
    set c | c in controls && c.signing.activeCredential == "key-b" :: c.nodeId
  }

  function Expected(handed: set<string>): map<string, string> {
    map s | s in Controls :: if s in handed then "key-b" else "key-a"
  }

  predicate NotBehind(now: Control, before: Control) {
    && now.commitIndex >= before.commitIndex
    && now.lastApplied >= before.lastApplied
    && now.lastLogIndex >= before.lastLogIndex
  }

  /** No control's log moved backwards between two snapshots. */
  predicate Advances(before: Cluster, now: Cluster) {
    forall node | node in Controls ::
      var b, n := Find(before.controls, node), Find(now.controls, node);
      b.Some? && n.Some? && NotBehind(n.value, b.value)
  }

  /** The service named by a control step plays the role written in the step. */
  predicate Selected(step: Step) {
    var c := Find(step.cluster.controls, step.serviceId);
    c.Some? && c.value.role == step.role
  }

  predicate Started(run: Run, tokenShape: string -> bool) {
    && ExactProcesses(run.initialProcesses, tokenShape)
    && |run.steps| == 4
    && ExactCluster(run.initial, Uniform("key-a"), 1, 2)
    && (set p | p in run.continuityProcesses :: p.name) == (set p | p in run.initialProcesses :: p.name)
    && SameProcesses(run.initialProcesses, run.continuityProcesses)
  }

  /** The services handed over in the first n steps that are control steps. */
  function Handed(steps: seq<Step>, n: nat): set<string>
    requires n <= |steps|
  {
    set i | 0 <= i < n && i < 3 :: steps[i].serviceId
  }

  function Before(run: Run, i: nat): Cluster
    requires i <= |run.steps|
  {
    if i == 0 then run.initial else run.steps[i - 1].cluster
  }

  /** The step is in its place and names a service that may be handed over now. */
  predicate InPlace(step: Step, i: nat, seen: set<string>)
    requires i < 4
  {
    && step.index == i + 1
    && step.role == Order[i]
    && (i < 3 ==> step.serviceId in Controls && step.serviceId !in seen && Selected(step))
    && (i == 3 ==> step.serviceId == "gateway-primary")
  }

  /** The cluster signs with exactly the expected keys and keeps its leader and term. */
  predicate ClusterKept(run: Run, step: Step, handed: set<string>) {
    && OnNewKey(step.cluster.controls) == handed
    && ExactCluster(step.cluster, Expected(handed), 1, 2)
    && step.cluster.leaderId == run.initial.leaderId
    && step.cluster.term == run.initial.term
  }

  predicate ProcessesKept(run: Run, step: Step, tokenShape: string -> bool) {
    ExactProcesses(step.processes, tokenShape) && SameProcesses(run.initialProcesses, step.processes)
  }

  predicate GatewayKept(run: Run, step: Step, i: nat) {
    && ExactGateway(step.gateway, if i == 3 then "key-b" else "key-a", if i == 3 then 2 else 1, 2)
    && step.gateway.controlTerm == run.initial.term
  }

  /** All tests made on one step. */
  predicate StepAccepted(run: Run, i: nat, tokenShape: string -> bool) {
    && i < |run.steps| && i < 4
    && InPlace(run.steps[i], i, Handed(run.steps, i))
    && ProcessesKept(run, run.steps[i], tokenShape)
    && ClusterKept(run, run.steps[i], Handed(run.steps, i + 1))
    && Advances(Before(run, i), run.steps[i].cluster)
    && GatewayKept(run, run.steps[i], i)
  }

  predicate Accepted(run: Run, tokenShape: string -> bool) {
    Started(run, tokenShape) && forall i: nat | i < 4 :: StepAccepted(run, i, tokenShape)
  }

  lemma {:induction false} HandedStep(steps: seq<Step>, i: nat)
    requires i < |steps|
    ensures Handed(steps, i + 1) == if i < 3 then Handed(steps, i) + {steps[i].serviceId} else Handed(steps, i)
  {
  }

  ghost predicate AllBefore(accepts: nat -> bool, n: nat) {
    forall k: nat | k < n :: accepts(k)
  }

  lemma {:induction false} AllBeforeStep(accepts: nat -> bool, n: nat)
    ensures AllBefore(accepts, n + 1) <==> AllBefore(accepts, n) && accepts(n)
  {
  }

  ghost predicate Means(accepts: nat -> bool, run: Run, tokenShape: string -> bool) {
    forall k: nat {:trigger StepAccepted(run, k, tokenShape)} :: accepts(k) == StepAccepted(run, k, tokenShape)
  }

  /** The loop body: the verdict on step i and the next state of the loop. */
  method CheckStep(run: Run, i: nat, seen: set<string>, previous: Cluster, tokenShape: string -> bool,
                   ghost accepts: nat -> bool)
      returns (valid: bool, now: set<string>, current: Cluster)
    requires i < |run.steps| == 4 && seen == Handed(run.steps, i) && previous == Before(run, i)
    requires Means(accepts, run, tokenShape)
    ensures valid == accepts(i)
    ensures now == Handed(run.steps, i + 1) && current == Before(run, i + 1)
  {
    HandedStep(run.steps, i);
    var step := run.steps[i];
    now := if i < 3 then seen + {step.serviceId} else seen;
    current := step.cluster;
    valid :=
      && InPlace(step, i, seen)
      && ProcessesKept(run, step, tokenShape)
      && ClusterKept(run, step, now)
      && Advances(previous, current)
      && GatewayKept(run, step, i);
    assert valid == StepAccepted(run, i, tokenShape);
  }

  /** The loop over the steps, with the variables seen_controls,
      previous_control_state and valid. */
  method CheckSteps(
    run: Run, tokenShape: string -> bool, ghost accepts: nat -> bool) returns (valid: bool, seen: set<string>)
    requires |run.steps| == 4 && Means(accepts, run, tokenShape)
    ensures valid <==> AllBefore(accepts, 4)
    ensures valid ==> seen == Handed(run.steps, 4)
  {
    seen := {};
    var previous := run.initial;
    valid := true;
    var i := 0;
    while i < 4 && valid
      invariant 0 <= i <= 4
      invariant valid <==> AllBefore(accepts, i)
      invariant valid ==> seen == Handed(run.steps, i) && previous == Before(run, i)
      decreases 4 - i
    {
      AllBeforeStep(accepts, i);
      valid, seen, previous := CheckStep(run, i, seen, previous, tokenShape, accepts);
      i := i + 1;
    }
  }

  /** handoff_ok */
  method CheckHandoff(run: Run, tokenShape: string -> bool) returns (ok: bool)
    ensures ok <==> Accepted(run, tokenShape)
  {
    if !Started(run, tokenShape) {
      return false;
    }
    ghost var accepts := (k: nat) => StepAccepted(run, k, tokenShape);
    var valid, seen := CheckSteps(run, tokenShape, accepts);
    AllAccepted(run, tokenShape, accepts);
    ok := valid && seen == set s | s in Controls;
  }

  lemma {:induction false} AllAccepted(run: Run, tokenShape: string -> bool, accepts: nat -> bool)
    requires |run.steps| == 4 && Means(accepts, run, tokenShape)
    ensures AllBefore(accepts, 4) <==> forall i: nat | i < 4 :: StepAccepted(run, i, tokenShape)
    ensures AllBefore(accepts, 4) ==> Handed(run.steps, 4) == set s | s in Controls
  {
    assert forall k: nat :: accepts(k) == StepAccepted(run, k, tokenShape);
    if AllBefore(accepts, 4) {
      AllHanded(run, tokenShape);
    }
  }

  // ----- what acceptance says about the run

  lemma {:induction false} ThreeOfThree(x: string, y: string, z: string)
    requires x in Controls && y in Controls && z in Controls && x != y && x != z && y != z
    ensures {x, y, z} == set s | s in Controls
  {
  }

  lemma {:induction false} HandedThree(steps: seq<Step>)
    requires |steps| == 4
    ensures Handed(steps, 0) == {}
    ensures Handed(steps, 1) == {steps[0].serviceId}
    ensures Handed(steps, 2) == {steps[0].serviceId, steps[1].serviceId}
    ensures Handed(steps, 3) == {steps[0].serviceId, steps[1].serviceId, steps[2].serviceId}
    ensures Handed(steps, 4) == Handed(steps, 3)
  {
    HandedStep(steps, 0);
    HandedStep(steps, 1);
    HandedStep(steps, 2);
    HandedStep(steps, 3);
  }

  /** The services of three accepted control steps: distinct controls. */
  ghost predicate DistinctControls(run: Run) {
    && |run.steps| == 4
    && (forall i | 0 <= i < 3 :: run.steps[i].serviceId in Controls)
    && (forall i | 0 <= i < 3 :: run.steps[i].serviceId !in Handed(run.steps, i))
  }

  lemma {:induction false} AllHandedOver(run: Run)
    requires DistinctControls(run)
    ensures Handed(run.steps, 3) == Handed(run.steps, 4) == set s | s in Controls
  {
    HandedThree(run.steps);
    assert run.steps[1].serviceId !in Handed(run.steps, 1);
    assert run.steps[2].serviceId !in Handed(run.steps, 2);
    ThreeOfThree(run.steps[0].serviceId, run.steps[1].serviceId, run.steps[2].serviceId);
  }

  lemma {:induction false} AllHanded(run: Run, tokenShape: string -> bool)
    requires |run.steps| == 4 && forall i: nat | i < 4 :: StepAccepted(run, i, tokenShape)
    ensures Handed(run.steps, 4) == set s | s in Controls
  {
    forall i | 0 <= i < 3
      ensures run.steps[i].serviceId in Controls && run.steps[i].serviceId !in Handed(run.steps, i)
    {
      assert StepAccepted(run, i, tokenShape);
    }
    AllHandedOver(run);
  }

  lemma {:induction false} FindMember(controls: seq<Control>, node: string)
    ensures var c := Find(controls, node); c.Some? ==> c.value in controls && c.value.nodeId == node
  {
    if |controls| == 0 || controls[0].nodeId == node {
    } else {
      FindMember(controls[1..], node);
    }
  }

  lemma {:induction false} RoleMember(controls: seq<Control>, role: string)
    ensures var c := FirstWithRole(controls, role); c.Some? ==> c.value in controls && c.value.role == role
  {
    if |controls| == 0 || controls[0].role == role {
    } else {
      RoleMember(controls[1..], role);
    }
  }

  lemma {:induction false} UniqueLeader(controls: seq<Control>, c: Control, d: Control)
    requires multiset(Roles(controls))["leader"] == 1
    requires c in controls && d in controls && c.role == "leader" && d.role == "leader"
    ensures c == d
  {
    var i :| 0 <= i < |controls| && controls[i] == c;
    var j :| 0 <= j < |controls| && controls[j] == d;
    var roles := Roles(controls);
    assert roles[i] == roles[j] == "leader";
    if i < j {
      TwoOccurrences(roles, i, j);
      assert false;
    } else if j < i {
      TwoOccurrences(roles, j, i);
      assert false;
    }
  }

  /** The control that a snapshot calls the leader is the one with the leader role. */
  lemma {:induction false} SelectedLeader(step: Step, expected: map<string, string>)
    requires ExactCluster(step.cluster, expected, 1, 2) && Selected(step) && step.role == "leader"
    ensures step.serviceId == step.cluster.leaderId
  {
    var controls := step.cluster.controls;
    FindMember(controls, step.serviceId);
    RoleMember(controls, "leader");
    UniqueLeader(controls, Find(controls, step.serviceId).value, FirstWithRole(controls, "leader").value);
  }

  /** The first three services are the three controls, and the leader comes third. */
  lemma {:induction false} HandoffOrder(run: Run, tokenShape: string -> bool)
    requires Accepted(run, tokenShape)
    ensures
      var s := run.steps;
      && {s[0].serviceId, s[1].serviceId, s[2].serviceId} == (set c | c in Controls)
      && s[0].serviceId != s[1].serviceId
      && s[2].serviceId == run.initial.leaderId
      && s[0].serviceId != run.initial.leaderId && s[1].serviceId != run.initial.leaderId
      && s[3].serviceId == "gateway-primary"
  {
    forall i: nat | i < 4 ensures InPlace(run.steps[i], i, Handed(run.steps, i)) {
      assert StepAccepted(run, i, tokenShape);
    }
    LeaderThird(run, tokenShape);
    HandedThree(run.steps);
    AllHanded(run, tokenShape);
    assert InPlace(run.steps[1], 1, Handed(run.steps, 1));
    assert InPlace(run.steps[2], 2, Handed(run.steps, 2));
    assert InPlace(run.steps[3], 3, Handed(run.steps, 3));
  }

  lemma {:induction false} LeaderThird(run: Run, tokenShape: string -> bool)
    requires Accepted(run, tokenShape)
    ensures run.steps[2].serviceId == run.initial.leaderId
  {
    assert StepAccepted(run, 2, tokenShape);
    SelectedLeader(run.steps[2], Expected(Handed(run.steps, 3)));
  }

  lemma {:induction false} AdvancesTransitive(a: Cluster, b: Cluster, c: Cluster)
    requires Advances(a, b) && Advances(b, c)
    ensures Advances(a, c)
  {
  }

  lemma {:induction false} AdvancesReflexive(cluster: Cluster, expected: map<string, string>)
    requires ExactCluster(cluster, expected, 1, 2)
    ensures Advances(cluster, cluster)
  {
    forall node | node in Controls ensures Find(cluster.controls, node).Some? {
      assert node in multiset(NodeIds(cluster.controls));
      var k :| 0 <= k < 3 && NodeIds(cluster.controls)[k] == node;
      FindExists(cluster.controls, k);
    }
  }

  lemma {:induction false} FindExists(controls: seq<Control>, k: nat)
    requires k < |controls|
    ensures Find(controls, controls[k].nodeId).Some?
  {
    if k == 0 || controls[0].nodeId == controls[k].nodeId {
    } else {
      FindExists(controls[1..], k - 1);
    }
  }

  /** Commit, applied and log indexes never move backwards, from the snapshot
      before the handoff to any later step. */
  lemma {:induction false} HandoffMonotone(run: Run, tokenShape: string -> bool, i: nat, j: nat)
    requires Accepted(run, tokenShape) && i <= j <= 4
    ensures Advances(Before(run, i), Before(run, j))
    decreases j
  {
    if i == j {
      if i == 0 {
        AdvancesReflexive(run.initial, Uniform("key-a"));
      } else {
        assert StepAccepted(run, i - 1, tokenShape);
        AdvancesReflexive(run.steps[i - 1].cluster, Expected(Handed(run.steps, i)));
      }
    } else {
      HandoffMonotone(run, tokenShape, i, j - 1);
      assert StepAccepted(run, j - 1, tokenShape);
      AdvancesTransitive(Before(run, i), Before(run, j - 1), Before(run, j));
    }
  }
}
