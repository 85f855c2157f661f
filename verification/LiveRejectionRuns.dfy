/** Documents that both validators of the live rejections accept: every control and every
    process can be the one observed. */
module LiveRejectionRuns {
  import opened Outcome
  import HandoffData
  import opened LiveRejections

  function StateOf(service: Json, e: Expected, n: int, error: Json): Json {
    Obj(map[
      "mode" := Str("watched-bundle"),
      "service_id" := service,
      "active_credential_id" := Str(e.credential),
      "bundle_generation" := Int(e.generation),
      "configured_credential_count" := Int(2),
      "successful_activations" := Int(e.generation - 1),
      "rejected_reloads" := Int(n),
      "last_error_kind" := error])
  }

  function WriteItem(i: Item): Json {
    Obj(map[
      "scenario" := i.scenario,
      "expected_error_kind" := i.kind,
      "service_id" := i.service,
      "pid" := i.pid,
      "start_token" := i.token,
      "before" := i.before,
      "rejected" := i.rejected,
      "recovered" := i.recovered])
  }

  function ProcessEntry(pid: int, token: Json): Fields {
    map["pid" := Int(pid), "start_token" := token]
  }

  // ----- the parts pass their tests

  lemma {:induction false} ReadWritten(i: Item)
    ensures ReadItem(WriteItem(i)) == Some(i)
    ensures WriteItem(i).Obj?
    ensures Get(WriteItem(i).fields, "scenario") == i.scenario && Get(WriteItem(i).fields, "service_id") == i.service
  {
  }

  lemma {:induction false} StatePasses(service: Json, e: Expected, n: nat, error: Json)
    requires service.Str?
    ensures StateOk(StateOf(service, e, n, error), service, e, error) && CountIs(StateOf(service, e, n, error), n)
  {
  }

  /** A value equals itself in Python's sense. */
  lemma {:induction false} PyEqSelf(v: Json)
    ensures PyEq(v, v)
  {
    match v
    case List(items) =>
      forall i | 0 <= i < |items| ensures PyEq(items[i], items[i]) {
        PyEqSelf(items[i]);
      }
    case Obj(fields) =>
      forall k | k in fields.Keys ensures PyEq(fields[k], fields[k]) {
        PyEqSelf(fields[k]);
      }
    case _ =>
  }

  lemma {:induction false} IdentityPasses(i: Item, pid: int, token: Json)
    requires i.pid == Int(pid) && i.token == token
    ensures PidOk(i, ProcessEntry(pid, token)) && TokenOk(i, ProcessEntry(pid, token))
  {
    PyEqSelf(token);
    assert Get(ProcessEntry(pid, token), "pid") == Int(pid);
    assert Get(ProcessEntry(pid, token), "start_token") == token;
  }

  lemma {:induction false} ItemFromParts(
    i: Item, e: Expected, before: Json, rejected: Json, recovered: Json, process: Fields)
    requires i.kind == e.kind && i.service.Str? && PidOk(i, process) && TokenOk(i, process)
    requires i.before == before && i.rejected == rejected && i.recovered == recovered
    requires StateOk(before, i.service, e, Null) && CountIs(before, e.index)
    requires StateOk(rejected, i.service, e, e.kind) && CountIs(rejected, e.index + 1)
    requires StateOk(recovered, i.service, e, Null) && CountIs(recovered, e.index + 1)
    ensures ItemOk(i, e, i.service, process)
  {
  }

  /** A state with its two tests done. */
  lemma {:induction false} SomeState(service: Json, e: Expected, n: nat, error: Json) returns (state: Json)
    requires service.Str?
    ensures StateOk(state, service, e, error) && CountIs(state, n)
  {
    StatePasses(service, e, n, error);
    state := StateOf(service, e, n, error);
  }

  lemma {:induction false} SomeItem(e: Expected, service: Json, pid: int, token: Json) returns (i: Item)
    requires service.Str?
    ensures i.scenario == e.scenario && i.service == service
    ensures ItemOk(i, e, service, ProcessEntry(pid, token))
  {
    var before := SomeState(service, e, e.index, Null);
    var rejected := SomeState(service, e, e.index + 1, e.kind);
    var recovered := SomeState(service, e, e.index + 1, Null);
    i := Item(e.scenario, e.kind, service, Int(pid), token, before, rejected, recovered);
    IdentityPasses(i, pid, token);
    ItemFromParts(i, e, before, rejected, recovered, ProcessEntry(pid, token));
  }

  lemma {:induction false} SomeCase(k: nat, service: Json, pid: int, token: Json) returns (item: Json)
    requires k < Count && service.Str?
    ensures ScenarioOk(item, k) && CaseOk(item, k, service, ProcessEntry(pid, token))
    ensures item.Obj? && Get(item.fields, "service_id") == service
  {
    var i := SomeItem(Expect(k), service, pid, token);
    ReadWritten(i);
    item := WriteItem(i);
  }

  ghost predicate Possible(passes: (nat, Json) -> bool, k: nat) {
    exists item :: passes(k, item)
  }

  /** A list of the first n cases, given one of each. */
  lemma {:induction false} Collect(n: nat, passes: (nat, Json) -> bool) returns (cases: seq<Json>)
    requires forall k: nat | k < n :: Possible(passes, k)
    ensures |cases| == n && forall k: nat | k < n :: passes(k, cases[k])
  {
    if n == 0 {
      cases := [];
    } else {
      var front := Collect(n - 1, passes);
      assert Possible(passes, n - 1);
      var last :| passes(n - 1, last);
      cases := front + [last];
    }
  }

  predicate Fits(k: nat, item: Json, service: Json, process: Fields) {
    && k < Count && ScenarioOk(item, k) && CaseOk(item, k, service, process)
    && item.Obj? && Get(item.fields, "service_id") == service
  }

  lemma {:induction false} SomeCases(service: Json, pid: int, token: Json) returns (cases: seq<Json>)
    requires service.Str?
    ensures |cases| == Count && forall k: nat | k < Count :: Fits(k, cases[k], service, ProcessEntry(pid, token))
  {
    var process := ProcessEntry(pid, token);
    var passes := (k: nat, item: Json) => Fits(k, item, service, process);
    forall k: nat | k < Count ensures Possible(passes, k) {
      var item := SomeCase(k, service, pid, token);
      assert passes(k, item);
    }
    cases := Collect(Count, passes);
    forall k: nat | k < Count ensures Fits(k, cases[k], service, process) {
      assert passes(k, cases[k]);
    }
  }

  lemma {:induction false} CasesPass(cases: seq<Json>, service: Json, process: Fields)
    requires |cases| == Count && forall k: nat | k < Count :: Fits(k, cases[k], service, process)
    ensures AllScenariosOk(cases) && AllCasesOk(cases, service, process) && CommonService(cases) == service
  {
    assert Fits(0, cases[0], service, process);
  }

  function DocumentOf(cases: seq<Json>): Json {
    Obj(map["schema" := Str(SchemaName), "cases" := List(cases)])
  }

  lemma {:induction false} HeaderPasses(document: Json, cases: seq<Json>)
    requires document == DocumentOf(cases) && |cases| == Count
    ensures HeaderOk(document) && document.fields["cases"].items == cases
  {
    assert document.fields.Keys == {"schema", "cases"};
    assert document.fields["cases"] == List(cases);
  }

  lemma {:induction false} DocumentPasses(
    document: Json, cases: seq<Json>, service: Json, processes: map<string, Fields>)
    requires HeaderOk(document) && document.fields["cases"].items == cases && IsControl(service)
    requires AllScenariosOk(cases) && CommonService(cases) == service
    requires AllCasesOk(cases, service, ProcessOf(processes, service))
    ensures Accepts(document, processes)
  {
  }

  /** For every control, process id and start token some document is accepted. */
  lemma {:induction false} EveryControlAccepted(service: string, pid: int, token: Json)
      returns (document: Json, processes: map<string, Fields>)
    requires service in HandoffData.Controls
    ensures Accepts(document, processes)
    ensures CommonService(document.fields["cases"].items) == Str(service)
    ensures processes == map[service := ProcessEntry(pid, token)]
  {
    var cases := SomeCases(Str(service), pid, token);
    CasesPass(cases, Str(service), ProcessEntry(pid, token));
    document := DocumentOf(cases);
    HeaderPasses(document, cases);
    processes := map[service := ProcessEntry(pid, token)];
    assert ProcessOf(processes, Str(service)) == ProcessEntry(pid, token);
    DocumentPasses(document, cases, Str(service), processes);
  }
}
