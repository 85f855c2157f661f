/** The documents of the key handoff: cluster snapshots, gateway captures and
    process tables, with the exact-value tests made on them. */
module HandoffData {
  import opened Outcome

  const Controls: seq<string> := ["control-a", "control-b", "control-c"]
  const Services: seq<string> := ["control-a", "control-b", "control-c", "gateway-primary"]

  datatype Signing = Signing(
    mode: string, serviceId: string, activeCredential: string, bundleGeneration: int, credentialCount: int,
    activations: int, rejectedReloads: int, lastError: Option<string>)

  /** exact_signing */
  predicate ExactSigning(s: Signing, service: string, credential: string, generation: int, error: Option<string>) {
    && s.mode == "watched-bundle"
    && s.serviceId == service
    && s.activeCredential == credential
    && s.bundleGeneration == generation
    && s.credentialCount == 2
    && s.activations == generation - 1
    && s.rejectedReloads >= 0
    && s.lastError == error
  }

  datatype Committed = Committed(clusterId: string, revision: int, term: int, routingPolicy: string,
    workerIds: seq<string>)

  datatype ServiceAuthentication = ServiceAuthentication(
    required: bool, trustedServices: seq<string>, trustedCredentials: seq<string>, revokedCredentials: seq<string>,
    gateways: seq<string>, verifications: int, rejections: int, revocationRejections: int, peerRpcs: int,
    gatewayReads: int, lastVerifiedService: Option<string>, lastVerifiedCredential: Option<string>,
    lastRejectedService: Option<string>, lastRejectedCredential: Option<string>, policyGeneration: int,
    policyValidity: string)

  datatype Control = Control(
    nodeId: string, clusterId: string, role: string, term: int, leaderId: string, commitIndex: int,
    lastApplied: int, lastLogIndex: int, storageHealthy: bool, localCredential: string, committed: Committed,
    signing: Signing, authentication: ServiceAuthentication)

  function AllCredentials(): seq<string> {
    ["control-a/key-a", "control-a/key-b", "control-b/key-a", "control-b/key-b", "control-c/key-a", "control-c/key-b",
     "gateway-primary/key-a", "gateway-primary/key-b"]
  }

  function RevokedAt(trustGeneration: int): seq<string> {
    if trustGeneration == 1 then []
    else ["control-a/key-a", "control-b/key-a", "control-c/key-a", "gateway-primary/key-a"]
  }

  predicate Among(value: Option<string>, all: seq<string>) {
    value.None? || value.value in all
  }

  predicate ExactAuthentication(a: ServiceAuthentication, trustGeneration: int) {
    && a.required
    && a.trustedServices == Services
    && a.trustedCredentials == AllCredentials()
    && a.revokedCredentials == RevokedAt(trustGeneration)
    && a.gateways == ["gateway-primary"]
    && a.verifications >= 0 && a.rejections >= 0 && a.revocationRejections >= 0
    && a.peerRpcs >= 0 && a.gatewayReads >= 0
    && Among(a.lastVerifiedService, Services)
    && Among(a.lastVerifiedCredential, AllCredentials())
    && Among(a.lastRejectedService, Services)
    && Among(a.lastRejectedCredential, AllCredentials())
    && a.policyGeneration == trustGeneration
    && a.policyValidity == "valid"
  }

  function PolicyAt(revision: int): string {
    if revision == 3 then "least-in-flight" else "round-robin"
  }

  /** exact_control_projection */
  predicate ExactControl(
    c: Control, leader: string, term: int, credential: string, bundle: int, trust: int, revision: int)
  {
    && c.nodeId in Controls
    && c.clusterId == "inferlab-primary"
    && c.role in {"leader", "follower"}
    && c.term == term
    && c.leaderId == leader
    && c.commitIndex >= revision
    && c.lastApplied >= revision
    && c.lastLogIndex >= c.commitIndex
    && c.storageHealthy
    && c.localCredential == credential
    && c.committed.clusterId == "inferlab-primary"
    && c.committed.revision == revision
    && c.committed.term > 0
    && c.committed.routingPolicy == PolicyAt(revision)
    && c.committed.workerIds == ["cpu-signer-handoff"]
    && ExactSigning(c.signing, c.nodeId, credential, bundle, None)
    && ExactAuthentication(c.authentication, trust)
  }

  datatype Cluster = Cluster(
    schema: string, observedAtMs: int, samples: int, leaderId: string, term: int, revision: int, controls: seq<Control>)

  /** The first item with a given node id. */
  function Find(controls: seq<Control>, node: string): Option<Control> {
    if |controls| == 0 then None
    else if controls[0].nodeId == node then Some(controls[0])
    else Find(controls[1..], node)
  }

  function FirstWithRole(controls: seq<Control>, role: string): Option<Control> {
    if |controls| == 0 then None
    else if controls[0].role == role then Some(controls[0])
    else FirstWithRole(controls[1..], role)
  }

  function NodeIds(controls: seq<Control>): seq<string> {
    seq(|controls|, i requires 0 <= i < |controls| => controls[i].nodeId)
  }

  function Roles(controls: seq<Control>): seq<string> {
    seq(|controls|, i requires 0 <= i < |controls| => controls[i].role)
  }

  function Generation(credential: string): int {
    if credential == "key-b" then 2 else 1
  }

  /** mixed_controls_document; controls_document is the case of one credential. */
  predicate ExactCluster(cluster: Cluster, expected: map<string, string>, trust: int, revision: int) {
    && cluster.schema == "inferlab.signer-handoff-controls.v0.29"
    && cluster.observedAtMs > 0
    && cluster.samples >= 1
    && |cluster.controls| == 3
    && multiset(NodeIds(cluster.controls)) == multiset(Controls)
    && multiset(Roles(cluster.controls))["leader"] == 1
    && multiset(Roles(cluster.controls))["follower"] == 2
    && var leader := FirstWithRole(cluster.controls, "leader");
       && leader.Some?
       && cluster.leaderId == leader.value.nodeId
       && cluster.revision == revision
       && cluster.term >= 1
       && expected.Keys == (set s | s in Controls)
       && forall c | c in cluster.controls ::
            c.nodeId in expected
            && ExactControl(c, leader.value.nodeId, cluster.term, expected[c.nodeId],
              Generation(expected[c.nodeId]), trust, revision)
  }

  function Uniform(credential: string): map<string, string> {
    map s | s in Controls :: credential
  }

  datatype Process = Process(name: string, pid: int, ppid: int, state: string, startToken: string, command: string)

  const Labels: seq<string> := ["control-a", "control-b", "control-c", "gateway", "cpu-worker", "trust-distributor"]

  function Binary(name: string): string {
    if name in Controls then "control-plane" else name
  }

  /** exact_process; the shape of the start token is a regular expression, kept abstract. */
  predicate ExactProcess(p: Process, tokenShape: string -> bool) {
    && p.name in Labels
    && p.pid > 1
    && p.ppid > 0
    && 'Z' !in p.state
    && tokenShape(p.startToken)
    && p.command == Binary(p.name)
  }

  predicate ExactProcesses(ps: seq<Process>, tokenShape: string -> bool) {
    && |ps| == 6
    && (set p | p in ps :: p.name) == (set l | l in Labels)
    && (forall p | p in ps :: ExactProcess(p, tokenShape))
    && |set p | p in ps :: p.pid| == 6
    && |set p | p in ps :: p.ppid| == 1
  }

  /** Everything that identifies a running process. */
  datatype Identity = Identity(name: string, pid: int, ppid: int, startToken: string, command: string)

  function IdentityOf(p: Process): Identity {
    Identity(p.name, p.pid, p.ppid, p.startToken, p.command)
  }

  /** {item["label"]: item for item in ps}[name] */
  function ProcessNamed(ps: seq<Process>, name: string): Option<Process> {
    if |ps| == 0 then None
    else if ps[|ps| - 1].name == name then Some(ps[|ps| - 1])
    else ProcessNamed(ps[..|ps| - 1], name)
  }

  /** Every process of the first table is in the second one with the same identity. */
  predicate SameProcesses(first: seq<Process>, second: seq<Process>) {
    forall name | name in Labels ::
      var p, q := ProcessNamed(first, name), ProcessNamed(second, name);
      p.Some? && q.Some? && IdentityOf(p.value) == IdentityOf(q.value)
  }

  datatype Gateway = Gateway(
    schema: string, observedAtMs: int, samples: int, captureOk: bool, routingPolicy: string, workerIds: seq<string>,
    controlCluster: string, controlRevision: int, controlTerm: int, controlKey: string, enabled: bool,
    authenticationEnabled: bool, serviceId: string, credential: string, revision: int, term: int,
    lastError: Option<string>, signing: Signing)

  /** exact_gateway_document; captureOk stands for the tests on the HTTP capture. */
  predicate ExactGateway(g: Gateway, credential: string, generation: int, revision: int) {
    && g.schema == "inferlab.signer-handoff-gateway.v0.29"
    && g.observedAtMs > 0
    && g.samples >= 1
    && g.captureOk
    && g.routingPolicy == PolicyAt(revision)
    && g.workerIds == ["cpu-signer-handoff"]
    && g.controlCluster == "inferlab-primary"
    && g.controlRevision == revision
    && g.controlTerm > 0
    && g.controlKey == "route-v029"
    && g.enabled
    && g.authenticationEnabled
    && g.serviceId == "gateway-primary"
    && g.credential == credential
    && g.revision == revision
    && g.term == g.controlTerm
    && g.lastError == None
    && g.signing.mode == "watched-bundle"
    && g.signing.activeCredential == credential
    && g.signing.bundleGeneration == generation
    && g.signing.credentialCount == 2
    && g.signing.activations == generation - 1
    && g.signing.lastError == None
  }

  datatype Step = Step(
    index: int, role: string, serviceId: string, cluster: Cluster, gateway: Gateway, processes: seq<Process>)
}
