/** Runs that the handoff checker accepts: every control can be the leader, and the
    two followers can come in either order. */
module HandoffRuns {
  import opened Outcome
  import opened HandoffData
  import opened Handoff

  function RoleOf(node: string, leader: string): string {
    if node == leader then "leader" else "follower"
  }

  function KeyOf(node: string, handed: set<string>): string {
    if node in handed then "key-b" else "key-a"
  }

  function SigningOf(service: string, credential: string): Signing {
    var generation := Generation(credential);
    Signing("watched-bundle", service, credential, generation, 2, generation - 1, 0, None)
  }

  function AuthenticationOf(): ServiceAuthentication {
    ServiceAuthentication(
      true, Services, AllCredentials(), RevokedAt(1), ["gateway-primary"], 0, 0, 0, 0, 0, None, None, None,
        None, 1, "valid")
  }

  function ControlOf(node: string, leader: string, term: int, credential: string): Control {
    Control(
      node, "inferlab-primary", RoleOf(node, leader), term, leader, 2, 2, 2, true, credential,
      Committed("inferlab-primary", 2, 1, PolicyAt(2), ["cpu-signer-handoff"]),
      SigningOf(node, credential), AuthenticationOf())
  }

  function ControlsOf(leader: string, term: int, handed: set<string>): seq<Control> {
    seq(3, i requires 0 <= i < 3 => ControlOf(Controls[i], leader, term, KeyOf(Controls[i], handed)))
  }

  function ClusterOf(leader: string, term: int, handed: set<string>): Cluster {
    Cluster("inferlab.signer-handoff-controls.v0.29", 1, 1, leader, term, 2, ControlsOf(leader, term, handed))
  }

  function GatewayOf(term: int, credential: string): Gateway {
    Gateway(
      "inferlab.signer-handoff-gateway.v0.29", 1, 1, true, PolicyAt(2), ["cpu-signer-handoff"],
      "inferlab-primary", 2, term, "route-v029", true, true, "gateway-primary", credential, 2, term, None,
      SigningOf("gateway-primary", credential))
  }

  function ProcessOf(i: nat, token: string): Process
    requires i < |Labels|
  {
    Process(Labels[i], i + 2, 1, "S", token, Binary(Labels[i]))
  }

  function ProcessesOf(token: string): seq<Process> {
    seq(|Labels|, i requires 0 <= i < |Labels| => ProcessOf(i, token))
  }

  // ----- the cluster

  lemma {:induction false} ControlExact(node: string, leader: string, term: int, credential: string)
    requires node in Controls
    ensures ExactControl(ControlOf(node, leader, term, credential), leader, term, credential,
      Generation(credential), 1, 2)
  {
  }

  lemma {:induction false} NodesAre(leader: string, term: int, handed: set<string>)
    ensures NodeIds(ControlsOf(leader, term, handed)) == Controls
  {
  }

  lemma {:induction false} ControlsDistinct(i: nat, j: nat)
    requires i < j < 3
    ensures Controls[i] != Controls[j]
  {
    assert Controls[i][8] != Controls[j][8];
  }

  lemma {:induction false} RolesAre(leader: string, term: int, handed: set<string>, k: nat)
    requires k < 3 && leader == Controls[k]
    ensures multiset(Roles(ControlsOf(leader, term, handed))) == multiset{"leader", "follower", "follower"}
  {
    var roles := Roles(ControlsOf(leader, term, handed));
    forall i | 0 <= i < 3 ensures roles[i] == if i == k then "leader" else "follower" {
      if i < k {
        ControlsDistinct(i, k);
      } else if k < i {
        ControlsDistinct(k, i);
      }
    }
    assert roles == [roles[0], roles[1], roles[2]];
  }

  lemma {:induction false} FirstLeader(controls: seq<Control>, k: nat)
    requires k < |controls| && controls[k].role == "leader"
    requires forall i | 0 <= i < k :: controls[i].role != "leader"
    ensures FirstWithRole(controls, "leader") == Some(controls[k])
  {
    if k == 0 {
    } else {
      FirstLeader(controls[1..], k - 1);
    }
  }

  lemma {:induction false} LeaderFirst(leader: string, term: int, handed: set<string>, k: nat)
    requires k < 3 && leader == Controls[k]
    ensures FirstWithRole(ControlsOf(leader, term, handed), "leader")
         == Some(ControlOf(leader, leader, term, KeyOf(leader, handed)))
  {
    var c := ControlsOf(leader, term, handed);
    forall i | 0 <= i < k ensures c[i].role != "leader" {
      ControlsDistinct(i, k);
    }
    FirstLeader(c, k);
  }

  lemma {:induction false} FoundAt(controls: seq<Control>, k: nat)
    requires k < |controls| && forall i | 0 <= i < k :: controls[i].nodeId != controls[k].nodeId
    ensures Find(controls, controls[k].nodeId) == Some(controls[k])
  {
    if k == 0 {
    } else {
      FoundAt(controls[1..], k - 1);
    }
  }

  lemma {:induction false} FoundControl(leader: string, term: int, handed: set<string>, node: string)
    requires node in Controls
    ensures Find(ControlsOf(leader, term, handed), node) == Some(ControlOf(node, leader, term, KeyOf(node, handed)))
  {
    var c := ControlsOf(leader, term, handed);
    var k :| 0 <= k < 3 && Controls[k] == node;
    forall i | 0 <= i < k ensures c[i].nodeId != c[k].nodeId {
      ControlsDistinct(i, k);
    }
    FoundAt(c, k);
  }

  lemma {:induction false} RoleCounts(leader: string, term: int, handed: set<string>)
    requires leader in Controls
    ensures multiset(Roles(ControlsOf(leader, term, handed)))["leader"] == 1
    ensures multiset(Roles(ControlsOf(leader, term, handed)))["follower"] == 2
    ensures FirstWithRole(ControlsOf(leader, term, handed), "leader")
         == Some(ControlOf(leader, leader, term, KeyOf(leader, handed)))
  {
    var k :| 0 <= k < 3 && Controls[k] == leader;
    RolesAre(leader, term, handed, k);
    LeaderFirst(leader, term, handed, k);
    assert "leader"[0] != "follower"[0];
  }

  lemma {:induction false} MemberExact(
    leader: string, term: int, handed: set<string>, expected: map<string, string>, n: Control)
    requires expected.Keys == (set s | s in Controls) && forall s | s in Controls :: expected[s] == KeyOf(s, handed)
    requires n in ControlsOf(leader, term, handed)
    ensures n.nodeId in expected
    ensures ExactControl(n, leader, term, expected[n.nodeId], Generation(expected[n.nodeId]), 1, 2)
  {
    var c := ControlsOf(leader, term, handed);
    var i :| 0 <= i < 3 && c[i] == n;
    assert Controls[i] in Controls;
    ControlExact(Controls[i], leader, term, KeyOf(Controls[i], handed));
  }

  lemma {:induction false} ClusterExact(leader: string, term: int, handed: set<string>, expected: map<string, string>)
    requires leader in Controls && term >= 1
    requires expected.Keys == (set s | s in Controls) && forall s | s in Controls :: expected[s] == KeyOf(s, handed)
    ensures ExactCluster(ClusterOf(leader, term, handed), expected, 1, 2)
  {
    NodesAre(leader, term, handed);
    RoleCounts(leader, term, handed);
    forall n | n in ControlsOf(leader, term, handed)
      ensures n.nodeId in expected
      ensures ExactControl(n, leader, term, expected[n.nodeId], Generation(expected[n.nodeId]), 1, 2)
    {
      MemberExact(leader, term, handed, expected, n);
    }
  }

  lemma {:induction false} NewKeys(leader: string, term: int, handed: set<string>)
    requires handed <= set s | s in Controls
    ensures OnNewKey(ControlsOf(leader, term, handed)) == handed
  {
    var c := ControlsOf(leader, term, handed);
    forall s | s in handed ensures s in OnNewKey(c) {
      var i :| 0 <= i < 3 && Controls[i] == s;
      assert c[i] in c;
    }
  }

  lemma {:induction false} ClusterAdvances(leader: string, term: int, handed: set<string>, more: set<string>)
    ensures Advances(ClusterOf(leader, term, handed), ClusterOf(leader, term, more))
  {
    forall node | node in Controls
      ensures Find(ControlsOf(leader, term, handed), node).Some? && Find(ControlsOf(leader, term, more), node).Some?
      ensures NotBehind(Find(ControlsOf(leader, term, more), node).value,
                        Find(ControlsOf(leader, term, handed), node).value)
    {
      FoundControl(leader, term, handed, node);
      FoundControl(leader, term, more, node);
    }
  }

  // ----- the processes

  lemma {:induction false} ProcessesExact(token: string, tokenShape: string -> bool)
    requires tokenShape(token)
    ensures ExactProcesses(ProcessesOf(token), tokenShape)
  {
    var ps := ProcessesOf(token);
    forall p | p in ps ensures ExactProcess(p, tokenShape) {
      var i :| 0 <= i < |Labels| && ps[i] == p;
      assert Labels[i] in Labels;
    }
    forall l | l in Labels ensures l in set p | p in ps :: p.name {
      var i :| 0 <= i < |Labels| && Labels[i] == l;
      assert ps[i] in ps;
    }
    assert (set p | p in ps :: p.name) == (set l | l in Labels);
    PidsDistinct(ps);
  }

  lemma {:induction false} PidsDistinct(ps: seq<Process>)
    requires |ps| == 6 && forall i | 0 <= i < 6 :: ps[i].pid == i + 2 && ps[i].ppid == 1
    ensures |set p | p in ps :: p.pid| == 6
    ensures |set p | p in ps :: p.ppid| == 1
  {
    var pids, ppids := set p | p in ps :: p.pid, set p | p in ps :: p.ppid;
    forall n | n in {2, 3, 4, 5, 6, 7} ensures n in pids {
      assert ps[n - 2] in ps;
    }
    assert pids == {2, 3, 4, 5, 6, 7};
    assert ps[0] in ps;
    assert ppids == {1};
  }

  lemma {:induction false} NamedMember(ps: seq<Process>, i: nat)
    requires i < |ps|
    ensures ProcessNamed(ps, ps[i].name).Some?
  {
    if i == |ps| - 1 {
    } else {
      NamedMember(ps[..|ps| - 1], i);
    }
  }

  lemma {:induction false} ProcessesSame(token: string)
    ensures SameProcesses(ProcessesOf(token), ProcessesOf(token))
  {
    var ps := ProcessesOf(token);
    forall name | name in Labels ensures ProcessNamed(ps, name).Some? {
      var i :| 0 <= i < |Labels| && Labels[i] == name;
      NamedMember(ps, i);
    }
  }

  // ----- the run

  function HandedAt(order: seq<string>, n: nat): set<string>
    requires |order| == 3
  {
    set k | 0 <= k < 3 && k < n :: order[k]
  }

  /** Step i of a run that hands the controls over in the given order. */
  function StepOf(order: seq<string>, i: nat, term: int, processes: seq<Process>): Step
    requires |order| == 3 && i < 4
  {
    Step(i + 1, Order[i], if i < 3 then order[i] else "gateway-primary",
         ClusterOf(order[2], term, HandedAt(order, i + 1)),
         GatewayOf(term, if i == 3 then "key-b" else "key-a"), processes)
  }

  /** The run starts with the first key everywhere and consists of these steps. */
  predicate Follows(run: Run, order: seq<string>, term: int, processes: seq<Process>)
    requires |order| == 3
  {
    && run.initial == ClusterOf(order[2], term, {})
    && run.initialProcesses == run.continuityProcesses == processes
    && |run.steps| == 4
    && forall i: nat | i < 4 :: run.steps[i] == StepOf(order, i, term, processes)
  }

  /** The three controls, each once. */
  predicate IsOrder(order: seq<string>) {
    && |order| == 3
    && (forall i | 0 <= i < 3 :: order[i] in Controls)
    && order[0] != order[1] && order[0] != order[2] && order[1] != order[2]
  }

  /** Processes that pass the test and are all found by name. */
  predicate FineProcesses(processes: seq<Process>, tokenShape: string -> bool) {
    ExactProcesses(processes, tokenShape) && SameProcesses(processes, processes)
  }

  lemma {:induction false} RunStarts(
    run: Run, order: seq<string>, term: int, processes: seq<Process>, tokenShape: string -> bool)
    requires IsOrder(order) && term >= 1 && FineProcesses(processes, tokenShape)
    requires Follows(run, order, term, processes)
    ensures Started(run, tokenShape)
  {
    ClusterExact(order[2], term, {}, Uniform("key-a"));
  }

  lemma {:induction false} HandedBefore(run: Run, order: seq<string>, term: int, processes: seq<Process>, n: nat)
    requires |order| == 3 && Follows(run, order, term, processes) && n <= 4
    ensures Handed(run.steps, n) == HandedAt(order, n)
  {
    forall k: nat | k < n && k < 3 ensures run.steps[k].serviceId == order[k] {
      assert run.steps[k] == StepOf(order, k, term, processes);
    }
  }

  lemma {:induction false} NotYetHanded(order: seq<string>, i: nat)
    requires IsOrder(order) && i < 3
    ensures order[i] !in HandedAt(order, i)
  {
  }

  lemma {:induction false} PlacedStep(step: Step, order: seq<string>, i: nat, term: int, processes: seq<Process>)
    requires IsOrder(order) && i < 4 && step == StepOf(order, i, term, processes)
    ensures InPlace(step, i, HandedAt(order, i))
  {
    if i < 3 {
      FoundControl(order[2], term, HandedAt(order, i + 1), order[i]);
      NotYetHanded(order, i);
    }
  }

  lemma {:induction false} KeptCluster(run: Run, step: Step, leader: string, term: int, handed: set<string>)
    requires leader in Controls && term >= 1 && handed <= set s | s in Controls
    requires step.cluster == ClusterOf(leader, term, handed)
    requires run.initial.leaderId == leader && run.initial.term == term
    ensures ClusterKept(run, step, handed)
  {
    NewKeys(leader, term, handed);
    ClusterExact(leader, term, handed, Expected(handed));
  }

  lemma {:induction false} AdvancedCluster(
    before: Cluster, now: Cluster, leader: string, term: int, handed: set<string>, more: set<string>)
    requires before == ClusterOf(leader, term, handed) && now == ClusterOf(leader, term, more)
    ensures Advances(before, now)
  {
    ClusterAdvances(leader, term, handed, more);
  }

  lemma {:induction false} KeptGateway(run: Run, step: Step, i: nat, term: int)
    requires i < 4 && term >= 1 && run.initial.term == term
    requires step.gateway == GatewayOf(term, if i == 3 then "key-b" else "key-a")
    ensures GatewayKept(run, step, i)
  {
  }

  lemma {:induction false} ClusterBefore(run: Run, order: seq<string>, term: int, processes: seq<Process>, i: nat)
    requires |order| == 3 && Follows(run, order, term, processes) && i <= 4
    ensures Before(run, i) == ClusterOf(order[2], term, HandedAt(order, i))
  {
    if i == 0 {
      assert HandedAt(order, 0) == {};
    } else {
      assert run.steps[i - 1] == StepOf(order, i - 1, term, processes);
    }
  }

  lemma {:induction false} StepPasses(
    run: Run, order: seq<string>, term: int, processes: seq<Process>, tokenShape: string -> bool, i: nat)
    requires IsOrder(order) && i < 4 && term >= 1 && FineProcesses(processes, tokenShape)
    requires Follows(run, order, term, processes)
    ensures StepAccepted(run, i, tokenShape)
  {
    var step := run.steps[i];
    assert step == StepOf(order, i, term, processes);
    HandedBefore(run, order, term, processes, i);
    HandedBefore(run, order, term, processes, i + 1);
    ClusterBefore(run, order, term, processes, i);
    PlacedStep(step, order, i, term, processes);
    KeptCluster(run, step, order[2], term, HandedAt(order, i + 1));
    AdvancedCluster(Before(run, i), step.cluster, order[2], term, HandedAt(order, i), HandedAt(order, i + 1));
    KeptGateway(run, step, i, term);
  }

  lemma {:induction false} RunPasses(
    run: Run, order: seq<string>, term: int, processes: seq<Process>, tokenShape: string -> bool)
    requires IsOrder(order) && term >= 1 && FineProcesses(processes, tokenShape)
    requires Follows(run, order, term, processes)
    ensures Accepted(run, tokenShape)
  {
    RunStarts(run, order, term, processes, tokenShape);
    forall i: nat | i < 4 ensures StepAccepted(run, i, tokenShape) {
      StepPasses(run, order, term, processes, tokenShape, i);
    }
  }

  /** Whatever control leads and in whatever order its followers come, some run that hands
      the three over in that order is accepted. */
  lemma {:induction false} EveryOrderAccepted(order: seq<string>, term: int, token: string, tokenShape: string -> bool)
    returns (run: Run)
    requires IsOrder(order) && term >= 1 && tokenShape(token)
    ensures Accepted(run, tokenShape)
    ensures run.initial.leaderId == order[2] && run.initial.term == term
    ensures forall i | 0 <= i < 3 :: run.steps[i].serviceId == order[i]
  {
    var processes := ProcessesOf(token);
    ProcessesExact(token, tokenShape);
    ProcessesSame(token);
    var steps := seq(4, i requires 0 <= i < 4 => StepOf(order, i, term, processes));
    run := Run(ClusterOf(order[2], term, {}), processes, processes, steps);
    RunPasses(run, order, term, processes, tokenShape);
  }
}
