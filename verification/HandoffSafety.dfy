/** What acceptance of a handoff says about any two moments of the run: who signs with
    which key, who leads, and which processes run. Moment 0 is the snapshot before the
    handoff, moment i the one recorded by the i-th step. */
module HandoffSafety {
  import opened Outcome
  import opened Sequences
  import opened HandoffData
  import opened Handoff

  lemma {:induction false} NoneHanded()
    ensures Expected({}) == Uniform("key-a")
  {
  }

  lemma {:induction false} ExactStart(run: Run, tokenShape: string -> bool)
    requires Started(run, tokenShape)
    ensures ExactCluster(run.initial, Expected({}), 1, 2)
  {
    NoneHanded();
  }

  lemma {:induction false} ExactStep(run: Run, tokenShape: string -> bool, i: nat)
    requires StepAccepted(run, i, tokenShape)
    ensures ExactCluster(run.steps[i].cluster, Expected(Handed(run.steps, i + 1)), 1, 2)
    ensures run.steps[i].cluster.leaderId == run.initial.leaderId && run.steps[i].cluster.term == run.initial.term
  {
  }

  /** Every moment is in the state its handed-over services demand. */
  lemma {:induction false} ExactAt(run: Run, tokenShape: string -> bool, i: nat)
    requires Accepted(run, tokenShape) && i <= 4
    ensures ExactCluster(Before(run, i), Expected(Handed(run.steps, i)), 1, 2)
    ensures Before(run, i).leaderId == run.initial.leaderId && Before(run, i).term == run.initial.term
  {
    if i == 0 {
      ExactStart(run, tokenShape);
      assert Handed(run.steps, 0) == {};
    } else {
      ExactStep(run, tokenShape, i - 1);
    }
  }

  lemma {:induction false} FoundExact(
    cluster: Cluster, expected: map<string, string>, node: string) returns (c: Control)
    requires ExactCluster(cluster, expected, 1, 2) && node in Controls
    ensures Find(cluster.controls, node) == Some(c) && c in cluster.controls && c.nodeId == node && node in expected
    ensures ExactControl(c, cluster.leaderId, cluster.term, expected[node], Generation(expected[node]), 1, 2)
  {
    assert node in multiset(NodeIds(cluster.controls));
    var k :| 0 <= k < 3 && NodeIds(cluster.controls)[k] == node;
    FindExists(cluster.controls, k);
    FindMember(cluster.controls, node);
    c := Find(cluster.controls, node).value;
  }

  // ----- the keys

  /** The services handed over from moment i to moment j. */
  function Between(steps: seq<Step>, i: nat, j: nat): set<string>
    requires j <= |steps|
  {
    set k | i <= k < j && k < 3 :: steps[k].serviceId
  }

  predicate DistinctServices(steps: seq<Step>) {
    |steps| == 4 && forall i, j | 0 <= i < j < 3 :: steps[i].serviceId != steps[j].serviceId
  }

  lemma {:induction false} NewKeysAre(run: Run, tokenShape: string -> bool, i: nat)
    requires Accepted(run, tokenShape) && i <= 4
    ensures OnNewKey(Before(run, i).controls) == Handed(run.steps, i)
  {
    if i == 0 {
      forall c | c in run.initial.controls ensures c.signing.activeCredential != "key-b" {
        assert ExactSigning(c.signing, c.nodeId, "key-a", 1, None);
        assert "key-a"[4] != "key-b"[4];
      }
    } else {
      assert StepAccepted(run, i - 1, tokenShape);
    }
  }

  lemma {:induction false} NotHandedBefore(run: Run, tokenShape: string -> bool, j: nat)
    requires StepAccepted(run, j, tokenShape) && j < 3
    ensures run.steps[j].serviceId !in Handed(run.steps, j)
  {
  }

  lemma {:induction false} ServicesDistinct(run: Run, tokenShape: string -> bool)
    requires Accepted(run, tokenShape)
    ensures DistinctServices(run.steps)
  {
    forall i, j | 0 <= i < j < 3 ensures run.steps[i].serviceId != run.steps[j].serviceId {
      NotHandedBefore(run, tokenShape, j);
      assert run.steps[i].serviceId in Handed(run.steps, j);
    }
  }

  lemma {:induction false} HandedSizes(steps: seq<Step>, j: nat)
    requires DistinctServices(steps) && j <= 4
    ensures |Handed(steps, j)| == if j < 3 then j else 3
  {
    HandedThree(steps);
    assert steps[0].serviceId != steps[1].serviceId && steps[0].serviceId != steps[2].serviceId;
    assert steps[1].serviceId != steps[2].serviceId;
  }

  lemma {:induction false} HandedGrows(steps: seq<Step>, i: nat, j: nat)
    requires DistinctServices(steps) && i <= j <= 4
    ensures Handed(steps, j) == Handed(steps, i) + Between(steps, i, j)
    ensures Handed(steps, i) !! Between(steps, i, j)
  {
  }

  lemma {:induction false} HandedNext(steps: seq<Step>, i: nat)
    requires DistinctServices(steps) && i < 4
    ensures forall node :: node in Handed(steps, i + 1) && node !in Handed(steps, i) <==>
                           i < 3 && node == steps[i].serviceId
    ensures Handed(steps, i) <= Handed(steps, i + 1)
  {
    HandedGrows(steps, i, i + 1);
  }

  /** From any moment to a later one the set of new keys grows by exactly the services of
      the control steps in between, none of them twice; it starts empty and gains one
      service per control step. */
  lemma {:induction false} KeysGrow(run: Run, tokenShape: string -> bool, i: nat, j: nat)
    requires Accepted(run, tokenShape) && i <= j <= 4
    ensures OnNewKey(Before(run, j).controls) == OnNewKey(Before(run, i).controls) + Between(run.steps, i, j)
    ensures OnNewKey(Before(run, i).controls) !! Between(run.steps, i, j)
    ensures |OnNewKey(Before(run, j).controls)| == if j < 3 then j else 3
  {
    NewKeysAre(run, tokenShape, i);
    NewKeysAre(run, tokenShape, j);
    ServicesDistinct(run, tokenShape);
    HandedSizes(run.steps, j);
    HandedGrows(run.steps, i, j);
  }

  /** Everything a control shows about its signer. */
  datatype Key = Key(credential: string, generation: int, activations: int)

  function KeyAt(run: Run, node: string, i: nat): Option<Key>
    requires i <= |run.steps|
  {
    match Find(Before(run, i).controls, node)
    case None => None
    case Some(c) => Some(Key(c.signing.activeCredential, c.signing.bundleGeneration, c.signing.activations))
  }

  /** A control shows the new key, activated once, exactly from its own step on. */
  lemma {:induction false} KeyStates(run: Run, tokenShape: string -> bool, node: string, i: nat)
    requires Accepted(run, tokenShape) && node in Controls && i <= 4
    ensures KeyAt(run, node, i) == Some(if node in Handed(run.steps, i) then Key("key-b", 2, 1) else Key("key-a", 1, 0))
  {
    var handed := Handed(run.steps, i);
    ExactAt(run, tokenShape, i);
    var c := FoundExact(Before(run, i), Expected(handed), node);
    KeyOfSigning(c.signing, node, if node in handed then "key-b" else "key-a");
  }

  lemma {:induction false} KeyOfSigning(s: Signing, node: string, credential: string)
    requires credential == "key-a" || credential == "key-b"
    requires ExactSigning(s, node, credential, Generation(credential), None)
    ensures Key(s.activeCredential, s.bundleGeneration, s.activations)
         == if credential == "key-b" then Key("key-b", 2, 1) else Key("key-a", 1, 0)
  {
    assert "key-a"[4] != "key-b"[4];
  }

  /** A control step changes the signer of its own service and of no other control, and the
      gateway step changes none; what has changed stays changed. */
  lemma {:induction false} OneKeyPerStep(run: Run, tokenShape: string -> bool, node: string, i: nat, j: nat)
    requires Accepted(run, tokenShape) && node in Controls && i <= j <= 4
    ensures i < 4 ==> (KeyAt(run, node, i + 1) != KeyAt(run, node, i) <==> i < 3 && node == run.steps[i].serviceId)
    ensures KeyAt(run, node, i) == Some(Key("key-b", 2, 1)) ==> KeyAt(run, node, j) == KeyAt(run, node, i)
    ensures KeyAt(run, node, 0) == Some(Key("key-a", 1, 0)) && KeyAt(run, node, 4) == Some(Key("key-b", 2, 1))
  {
    KeyStates(run, tokenShape, node, i);
    KeyStates(run, tokenShape, node, j);
    KeyStates(run, tokenShape, node, 0);
    KeyStates(run, tokenShape, node, 4);
    AllHanded(run, tokenShape);
    ServicesDistinct(run, tokenShape);
    HandedGrows(run.steps, i, j);
    if i < 4 {
      KeyStates(run, tokenShape, node, i + 1);
      HandedNext(run.steps, i);
    }
  }

  /** While the gateway has the new key, no control has the old one. */
  lemma {:induction false} GatewayLast(run: Run, tokenShape: string -> bool, i: nat)
    requires Accepted(run, tokenShape) && i < 4
    ensures run.steps[i].gateway.credential == "key-b" ==>
            OnNewKey(run.steps[i].cluster.controls) == (set s | s in Controls)
  {
    assert StepAccepted(run, i, tokenShape);
    AllHanded(run, tokenShape);
    NewKeysAre(run, tokenShape, i + 1);
    assert "key-a"[4] != "key-b"[4];
  }

  // ----- the roles

  /** The same control leads at every moment, in the same term, and the others follow. */
  lemma {:induction false} RolesKept(run: Run, tokenShape: string -> bool, node: string, i: nat, j: nat)
    requires Accepted(run, tokenShape) && node in Controls && i <= 4 && j <= 4
    ensures var a, b := Find(Before(run, i).controls, node), Find(Before(run, j).controls, node);
            && a.Some? && b.Some?
            && a.value.role == b.value.role == (if node == run.initial.leaderId then "leader" else "follower")
            && a.value.term == b.value.term == run.initial.term
            && a.value.leaderId == b.value.leaderId == run.initial.leaderId
  {
    RoleAt(run, tokenShape, node, i);
    RoleAt(run, tokenShape, node, j);
  }

  lemma {:induction false} RoleAt(run: Run, tokenShape: string -> bool, node: string, i: nat)
    requires Accepted(run, tokenShape) && node in Controls && i <= 4
    ensures var c := Find(Before(run, i).controls, node);
            && c.Some?
            && c.value.role == (if node == run.initial.leaderId then "leader" else "follower")
            && c.value.term == run.initial.term
            && c.value.leaderId == run.initial.leaderId
  {
    var cluster := Before(run, i);
    ExactAt(run, tokenShape, i);
    var c := FoundExact(cluster, Expected(Handed(run.steps, i)), node);
    RoleOfExact(cluster, Expected(Handed(run.steps, i)), c);
  }

  lemma {:induction false} RoleOfExact(cluster: Cluster, expected: map<string, string>, c: Control)
    requires ExactCluster(cluster, expected, 1, 2) && c in cluster.controls
      && Find(cluster.controls, c.nodeId) == Some(c)
    ensures c.role == (if c.nodeId == cluster.leaderId then "leader" else "follower")
  {
    var leader := FirstWithRole(cluster.controls, "leader").value;
    RoleMember(cluster.controls, "leader");
    if c.role == "leader" {
      UniqueLeader(cluster.controls, c, leader);
    } else if c.nodeId == cluster.leaderId {
      SameNode(cluster.controls, c, leader);
    }
  }

  /** Node ids are not repeated, so two controls with the same one are equal. */
  lemma {:induction false} SameNode(controls: seq<Control>, c: Control, d: Control)
    requires |controls| == 3 && multiset(NodeIds(controls)) == multiset(Controls)
    requires c in controls && d in controls && c.nodeId == d.nodeId
    ensures c == d
  {
    var i :| 0 <= i < 3 && controls[i] == c;
    var j :| 0 <= j < 3 && controls[j] == d;
    var ids := NodeIds(controls);
    assert ids[i] == ids[j];
    ControlOnce(ids[i]);
    if i < j {
      TwoOccurrences(ids, i, j);
    } else if j < i {
      TwoOccurrences(ids, j, i);
    }
  }

  lemma {:induction false} ControlOnce(node: string)
    ensures multiset(Controls)[node] <= 1
  {
    assert Controls[0][8] != Controls[1][8] && Controls[0][8] != Controls[2][8] && Controls[1][8] != Controls[2][8];
    assert multiset(Controls) == multiset{Controls[0], Controls[1], Controls[2]};
  }

  // ----- the processes

  /** The process table of a moment. */
  function Table(run: Run, i: nat): seq<Process>
    requires i <= |run.steps|
  {
    if i == 0 then run.initialProcesses else run.steps[i - 1].processes
  }

  /** Any two tables recorded in the run name the same processes with the same identities,
      and so does the table taken for the continuity check. */
  lemma {:induction false} ProcessesStay(run: Run, tokenShape: string -> bool, i: nat, j: nat)
    requires Accepted(run, tokenShape) && i <= 4 && j <= 4
    ensures SameProcesses(Table(run, i), Table(run, j))
    ensures SameProcesses(Table(run, i), run.continuityProcesses)
  {
    SameAsInitial(run, tokenShape, i);
    SameAsInitial(run, tokenShape, j);
  }

  lemma {:induction false} SameAsInitial(run: Run, tokenShape: string -> bool, i: nat)
    requires Accepted(run, tokenShape) && i <= 4
    ensures SameProcesses(run.initialProcesses, Table(run, i))
  {
    if i > 0 {
      assert StepAccepted(run, i - 1, tokenShape);
    } else {
      forall name | name in Labels ensures ProcessNamed(run.initialProcesses, name).Some? {
      }
    }
  }
}
