/** The two validators of the live rejection document, on arbitrary JSON: a boolean
    one that stops at the first fault and a diagnostic one that collects tags. */
module LiveRejections {
  import opened Outcome
  import HandoffData

  datatype Json =
    | Null
    | Bool(b: bool)
    | Int(n: int)
    | Float(r: real)
    | Str(s: string)
    | List(items: seq<Json>)
    | Obj(fields: map<string, Json>)

  type Fields = map<string, Json>

  function Numeric(v: Json): Option<real> {
    match v
    case Bool(b) => Some(if b then 1.0 else 0.0)
    case Int(n) => Some(n as real)
    case Float(r) => Some(r)
    case _ => None
  }

  /** v == w in Python: numbers compare by value across their types, at any depth. */
  predicate PyEq(v: Json, w: Json) {
    match (v, w)
    case (List(a), List(b)) => |a| == |b| && forall i | 0 <= i < |a| :: PyEq(a[i], b[i])
    case (Obj(a), Obj(b)) => a.Keys == b.Keys && forall k | k in a.Keys :: PyEq(a[k], b[k])
    case _ => if Numeric(v).Some? && Numeric(w).Some? then Numeric(v) == Numeric(w) else v == w
  }

  /** fields.get(key) */
  function Get(fields: Fields, key: string): Json {
    if key in fields then fields[key] else Null
  }

  predicate ExactKeys(v: Json, keys: set<string>) {
    v.Obj? && v.fields.Keys == keys
  }

  datatype Case = Case(scenario: string, kind: string)

  const Cases: seq<Case> := [
    Case("missing", "source_unavailable"),
    Case("malformed", "invalid_json"),
    Case("oversize", "bundle_too_large"),
    Case("unsafe-permissions", "unsafe_permissions"),
    Case("non-regular", "not_regular_file"),
    Case("symlink", "not_regular_file"),
    Case("wrong-cluster", "cluster_mismatch"),
    Case("wrong-service", "service_mismatch"),
    Case("unknown-active", "unknown_active_credential"),
    Case("stale", "stale_generation"),
    Case("fork", "generation_fork")]

  const Count: nat := 11

  const SigningKeys: set<string> := {
    "mode", "service_id", "active_credential_id", "bundle_generation", "configured_credential_count",
    "successful_activations", "rejected_reloads", "last_error_kind"}

  const CaseKeys: set<string> := {
    "scenario", "expected_error_kind", "service_id", "pid", "start_token", "before", "rejected", "recovered"}

  /** exact_signing on an arbitrary value. */
  predicate SigningOk(v: Json, service: Json, credential: string, generation: int, error: Json) {
    && ExactKeys(v, SigningKeys)
    && v.fields["mode"] == Str("watched-bundle")
    && PyEq(v.fields["service_id"], service)
    && v.fields["active_credential_id"] == Str(credential)
    && v.fields["bundle_generation"] == Int(generation)
    && v.fields["configured_credential_count"] == Int(2)
    && v.fields["successful_activations"] == Int(generation - 1)
    && v.fields["rejected_reloads"].Int?
    && v.fields["rejected_reloads"].n >= 0
    && v.fields["last_error_kind"] == error
  }

  // ----- what each validator reads

  /** What the k-th case must show. */
  datatype Expected = Expected(scenario: Json, kind: Json, credential: string, generation: int, index: nat)

  function ScenarioOf(k: nat): Json
    requires k < Count
  {
    Str(Cases[k].scenario)
  }

  function Expect(k: nat): Expected
    requires k < Count
  {
    var handed := Cases[k].scenario in {"stale", "fork"};
    Expected(ScenarioOf(k), Str(Cases[k].kind), if handed then "key-b" else "key-a",
             if handed then 2 else 1, k)
  }

  /** The eight fields of a case. */
  datatype Item = Item(
    scenario: Json, kind: Json, service: Json, pid: Json, token: Json,
    before: Json, rejected: Json, recovered: Json)

  /** The item, where it has exactly the eight fields. */
  function ReadItem(item: Json): Option<Item> {
    if ExactKeys(item, CaseKeys) then
      var f := item.fields;
      Some(Item(f["scenario"], f["expected_error_kind"], f["service_id"], f["pid"], f["start_token"],
                f["before"], f["rejected"], f["recovered"]))
    else
      None
  }

  predicate StateOk(state: Json, service: Json, e: Expected, error: Json) {
    SigningOk(state, service, e.credential, e.generation, error)
  }

  /** The rejection counter of a state, where that is an object. */
  predicate CountIs(state: Json, n: int) {
    state.Obj? && PyEq(Get(state.fields, "rejected_reloads"), Int(n))
  }

  predicate CountersOk(i: Item, e: Expected) {
    CountIs(i.before, e.index) && CountIs(i.rejected, e.index + 1) && CountIs(i.recovered, e.index + 1)
  }

  predicate PidOk(i: Item, process: Fields) {
    i.pid.Int? && PyEq(i.pid, Get(process, "pid"))
  }

  predicate TokenOk(i: Item, process: Fields) {
    PyEq(i.token, Get(process, "start_token"))
  }

  /** cases[0].get("service_id") */
  function CommonService(cases: seq<Json>): Json
    requires |cases| > 0
  {
    if cases[0].Obj? then Get(cases[0].fields, "service_id") else Null
  }

  predicate IsControl(v: Json) {
    v.Str? && v.s in HandoffData.Controls
  }

  predicate Hashable(v: Json) {
    !v.List? && !v.Obj?
  }

  /** process_map.get(service, {}) for a hashable service. */
  function ProcessOf(processes: map<string, Fields>, service: Json): Fields {
    if service.Str? && service.s in processes then processes[service.s] else map[]
  }

  /** [item.get("scenario") for item in cases if isinstance(item, dict)] */
  function Scenarios(cases: seq<Json>): seq<Json> {
    if cases == [] then []
    else (if cases[0].Obj? then [Get(cases[0].fields, "scenario")] else []) + Scenarios(cases[1..])
  }

  /** list(LIVE_CASES) */
  function Names(): seq<Json> {
    seq(Count, k requires 0 <= k < Count => ScenarioOf(k))
  }

  const SchemaName := "inferlab.signer-handoff-live-rejections.v0.29"

  predicate HeaderOk(document: Json) {
    && ExactKeys(document, {"schema", "cases"})
    && document.fields["schema"] == Str(SchemaName)
    && document.fields["cases"].List?
    && |document.fields["cases"].items| == Count
  }

  // ----- what an accepted document is

  predicate ItemOk(i: Item, e: Expected, service: Json, process: Fields) {
    && i.kind == e.kind
    && PyEq(i.service, service)
    && PidOk(i, process)
    && TokenOk(i, process)
    && StateOk(i.before, i.service, e, Null)
    && StateOk(i.rejected, i.service, e, e.kind)
    && StateOk(i.recovered, i.service, e, Null)
    && CountersOk(i, e)
  }

  predicate CaseOk(item: Json, k: nat, service: Json, process: Fields)
    requires k < Count
  {
    ReadItem(item).Some? && ItemOk(ReadItem(item).value, Expect(k), service, process)
  }

  predicate ScenarioOk(item: Json, k: nat)
    requires k < Count
  {
    item.Obj? && Get(item.fields, "scenario") == ScenarioOf(k)
  }

  predicate AllCasesOk(cases: seq<Json>, service: Json, process: Fields)
    requires |cases| == Count
  {
    forall k | 0 <= k < Count :: CaseOk(cases[k], k, service, process)
  }

  predicate AllScenariosOk(cases: seq<Json>)
    requires |cases| == Count
  {
    forall k | 0 <= k < Count :: ScenarioOk(cases[k], k)
  }

  predicate Accepts(document: Json, processes: map<string, Fields>) {
    && HeaderOk(document)
    && var cases := document.fields["cases"].items;
       var service := CommonService(cases);
       && AllScenariosOk(cases)
       && IsControl(service)
       && AllCasesOk(cases, service, ProcessOf(processes, service))
  }

  // ----- live_rejections

  /** The loop over the cases, given the test of one case. */
  method CheckCases(test: nat -> bool) returns (ok: bool)
    ensures ok <==> forall k: nat | k < Count :: test(k)
  {
    var k := 0;
    while k < Count
      invariant 0 <= k <= Count
      invariant forall j: nat | j < k :: test(j)
    {
      if !test(k) {
        return false;
      }
      k := k + 1;
    }
    return true;
  }

  /** None stands for the AttributeError of item.get on an item that is no object. */
  method CheckLiveRejections(document: Json, processes: map<string, Fields>) returns (r: Option<bool>)
    ensures r == Some(true) <==> Accepts(document, processes)
    ensures r == None <==>
      HeaderOk(document) && exists k :: 0 <= k < Count && !document.fields["cases"].items[k].Obj?
  {
    if !HeaderOk(document) {
      return Some(false);
    }
    var cases := document.fields["cases"].items;
    if exists k :: 0 <= k < Count && !cases[k].Obj? {
      assert !AllScenariosOk(cases);
      return None;
    }
    ScenariosMatch(cases);
    if Scenarios(cases) != Names() {
      return Some(false);
    }
    var service := CommonService(cases);
    if !IsControl(service) {
      return Some(false);
    }
    var process := ProcessOf(processes, service);
    var test := (k: nat) => k < Count && CaseOk(cases[k], k, service, process);
    var ok := CheckCases(test);
    assert forall k: nat | k < Count :: test(k) == CaseOk(cases[k], k, service, process);
    return Some(ok);
  }

  // ----- the list of scenarios, which skips items that are no objects

  lemma {:induction false} ScenariosShort(cases: seq<Json>)
    ensures |Scenarios(cases)| <= |cases|
    ensures |Scenarios(cases)| == |cases| ==> forall i | 0 <= i < |cases| :: cases[i].Obj?
  {
    if cases == [] {
    } else {
      ScenariosShort(cases[1..]);
      if |Scenarios(cases)| == |cases| {
        forall i | 0 <= i < |cases| ensures cases[i].Obj? {
          if i > 0 {
            assert cases[i] == cases[1..][i - 1];
          }
        }
      }
    }
  }

  lemma {:induction false} ScenariosAt(cases: seq<Json>)
    requires forall i | 0 <= i < |cases| :: cases[i].Obj?
    ensures |Scenarios(cases)| == |cases|
    ensures forall i | 0 <= i < |cases| :: Scenarios(cases)[i] == Get(cases[i].fields, "scenario")
  {
    if cases == [] {
    } else {
      ScenariosAt(cases[1..]);
    }
  }

  /** The scenario list is the expected one exactly when every item is an object
      naming its own scenario. */
  lemma {:induction false} ScenariosAre(cases: seq<Json>, names: seq<Json>)
    requires |cases| == |names|
    ensures Scenarios(cases) == names <==>
            forall k | 0 <= k < |cases| :: cases[k].Obj? && Get(cases[k].fields, "scenario") == names[k]
  {
    if Scenarios(cases) == names {
      ScenariosShort(cases);
      ScenariosAt(cases);
    }
    if forall k | 0 <= k < |cases| :: cases[k].Obj? && Get(cases[k].fields, "scenario") == names[k] {
      ScenariosAt(cases);
    }
  }

  lemma {:induction false} ScenariosMatch(cases: seq<Json>)
    requires |cases| == Count
    ensures Scenarios(cases) == Names() <==> AllScenariosOk(cases)
  {
    var names := Names();
    ScenariosAre(cases, names);
    forall k | 0 <= k < Count
      ensures ScenarioOk(cases[k], k) <==> cases[k].Obj? && Get(cases[k].fields, "scenario") == names[k]
    {
      assert names[k] == ScenarioOf(k);
    }
  }

  // ----- live_rejection_diagnostics

  /** What the diagnostics can say about one case. */
  datatype Fault = Schema | Identity | Service | Pid | Start | Before | Rejected | Recovered | Counter

  datatype Tag =
    | TopSchema
    | SchemaValue
    | CaseCount
    | ScenarioOrder
    | CommonServiceTag
    | CaseTag(index: nat, fault: Fault)

  /** When an item with the eight fields deserves fault f. */
  predicate ItemFaulty(i: Item, e: Expected, service: Json, process: Fields, f: Fault) {
    match f
    case Schema => false
    case Identity => i.scenario != e.scenario || i.kind != e.kind
    case Service => !PyEq(i.service, service)
    case Pid => !PidOk(i, process)
    case Start => !TokenOk(i, process)
    case Before => !StateOk(i.before, i.service, e, Null)
    case Rejected => !StateOk(i.rejected, i.service, e, e.kind)
    case Recovered => !StateOk(i.recovered, i.service, e, Null)
    case Counter => !CountersOk(i, e)
  }

  /** When case k deserves fault f. */
  predicate Faulty(item: Json, k: nat, service: Json, process: Fields, f: Fault)
    requires k < Count
  {
    if ReadItem(item).None? then f == Schema else ItemFaulty(ReadItem(item).value, Expect(k), service, process, f)
  }

  /** When a document deserves tag t. */
  predicate Explains(t: Tag, document: Json, processes: map<string, Fields>) {
    if !ExactKeys(document, {"schema", "cases"}) then
      t == TopSchema
    else if document.fields["schema"] != Str(SchemaName) then
      t == SchemaValue
    else if !HeaderOk(document) then
      t == CaseCount
    else
      CasesExplain(t, document.fields["cases"].items, Count, processes)
  }

  /** The tags that the first n cases of a well-formed document deserve. */
  predicate CasesExplain(t: Tag, cases: seq<Json>, n: nat, processes: map<string, Fields>)
    requires |cases| == Count && n <= Count
  {
    var service := CommonService(cases);
    match t
    case ScenarioOrder => !AllScenariosOk(cases)
    case CommonServiceTag => !IsControl(service)
    case CaseTag(k, f) => k < n && Faulty(cases[k], k, service, ProcessOf(processes, service), f)
    case _ => false
  }

  /** The tests of one item, in the order they are made. */
  method RunTests(failed: Fault -> bool) returns (faults: set<Fault>)
    ensures forall f :: f in faults <==> f != Schema && failed(f)
  {
    faults := {};
    if failed(Identity) {
      faults := faults + {Identity};
    }
    if failed(Service) {
      faults := faults + {Service};
    }
    if failed(Pid) {
      faults := faults + {Pid};
    }
    if failed(Start) {
      faults := faults + {Start};
    }
    if failed(Before) {
      faults := faults + {Before};
    }
    if failed(Rejected) {
      faults := faults + {Rejected};
    }
    if failed(Recovered) {
      faults := faults + {Recovered};
    }
    if failed(Counter) {
      faults := faults + {Counter};
    }
  }

  method DiagnoseCase(item: Json, k: nat, service: Json, process: Fields) returns (faults: set<Fault>)
    requires k < Count
    ensures forall f :: f in faults <==> Faulty(item, k, service, process, f)
  {
    var read := ReadItem(item);
    if read.None? {
      faults := {Schema};
    } else {
      var e := Expect(k);
      faults := RunTests(f => ItemFaulty(read.value, e, service, process, f));
    }
  }

  method DiagnoseCases(cases: seq<Json>, processes: map<string, Fields>, initial: set<Tag>)
    returns (tags: set<Tag>)
    requires |cases| == Count
    requires forall t :: t in initial <==> CasesExplain(t, cases, 0, processes)
    ensures forall t :: t in tags <==> CasesExplain(t, cases, Count, processes)
  {
    var service := CommonService(cases);
    var process := ProcessOf(processes, service);
    tags := initial;
    var k := 0;
    while k < Count
      invariant 0 <= k <= Count
      invariant forall t :: t in tags <==> CasesExplain(t, cases, k, processes)
    {
      var faults := DiagnoseCase(cases[k], k, service, process);
      tags := tags + (set f | f in faults :: CaseTag(k, f));
      k := k + 1;
    }
  }

  /** None stands for the TypeError of looking up an unhashable service. */
  method Diagnose(document: Json, processes: map<string, Fields>) returns (r: Option<set<Tag>>)
    ensures r == None <==> HeaderOk(document) && !Hashable(CommonService(document.fields["cases"].items))
    ensures r.Some? ==> forall t :: t in r.value <==> Explains(t, document, processes)
  {
    if !ExactKeys(document, {"schema", "cases"}) {
      return Some({TopSchema});
    }
    if document.fields["schema"] != Str(SchemaName) {
      return Some({SchemaValue});
    }
    if !document.fields["cases"].List? || |document.fields["cases"].items| != Count {
      return Some({CaseCount});
    }
    var cases := document.fields["cases"].items;
    var tags: set<Tag> := {};
    ScenariosMatch(cases);
    if Scenarios(cases) != Names() {
      tags := tags + {ScenarioOrder};
    }
    var service := CommonService(cases);
    if !IsControl(service) {
      tags := tags + {CommonServiceTag};
    }
    if !Hashable(service) {
      return None;
    }
    tags := DiagnoseCases(cases, processes, tags);
    return Some(tags);
  }

  // ----- the two agree

  lemma {:induction false} OkIsFaultless(i: Item, e: Expected, service: Json, process: Fields, f: Fault)
    requires i.scenario == e.scenario && ItemOk(i, e, service, process)
    ensures !ItemFaulty(i, e, service, process, f)
  {
  }

  lemma {:induction false} FaultlessIsOk(i: Item, e: Expected, service: Json, process: Fields)
    requires forall f :: !ItemFaulty(i, e, service, process, f)
    ensures i.scenario == e.scenario && ItemOk(i, e, service, process)
  {
    FaultlessIdentity(i, e, service, process);
    FaultlessStates(i, e, service, process);
  }

  lemma {:induction false} FaultlessIdentity(i: Item, e: Expected, service: Json, process: Fields)
    requires forall f :: !ItemFaulty(i, e, service, process, f)
    ensures i.scenario == e.scenario && i.kind == e.kind && PyEq(i.service, service)
    ensures PidOk(i, process) && TokenOk(i, process) && CountersOk(i, e)
  {
    assert !ItemFaulty(i, e, service, process, Identity);
    assert !ItemFaulty(i, e, service, process, Service);
    assert !ItemFaulty(i, e, service, process, Pid);
    assert !ItemFaulty(i, e, service, process, Start);
    assert !ItemFaulty(i, e, service, process, Counter);
  }

  lemma {:induction false} FaultlessStates(i: Item, e: Expected, service: Json, process: Fields)
    requires forall f :: !ItemFaulty(i, e, service, process, f)
    ensures StateOk(i.before, i.service, e, Null)
    ensures StateOk(i.rejected, i.service, e, e.kind)
    ensures StateOk(i.recovered, i.service, e, Null)
  {
    assert !ItemFaulty(i, e, service, process, Before);
    assert !ItemFaulty(i, e, service, process, Rejected);
    assert !ItemFaulty(i, e, service, process, Recovered);
  }

  /** A case is acceptable under its scenario exactly when it has no fault. */
  lemma {:induction false} CaseOkIffFaultless(item: Json, k: nat, service: Json, process: Fields)
    requires k < Count
    ensures ScenarioOk(item, k) && CaseOk(item, k, service, process) <==>
            forall f :: !Faulty(item, k, service, process, f)
  {
    if ReadItem(item).None? {
      assert Faulty(item, k, service, process, Schema);
    } else {
      var i, e := ReadItem(item).value, Expect(k);
      if forall f :: !Faulty(item, k, service, process, f) {
        forall f ensures !ItemFaulty(i, e, service, process, f) {
          assert !Faulty(item, k, service, process, f);
        }
        FaultlessIsOk(i, e, service, process);
      }
      if ScenarioOk(item, k) && CaseOk(item, k, service, process) {
        forall f ensures !Faulty(item, k, service, process, f) {
          OkIsFaultless(i, e, service, process, f);
        }
      }
    }
  }

  /** A document is accepted exactly when no tag explains a rejection. */
  lemma {:induction false} AcceptsIffUntagged(document: Json, processes: map<string, Fields>)
    ensures Accepts(document, processes) <==> forall t :: !Explains(t, document, processes)
  {
    if Accepts(document, processes) {
      Untagged(document, processes);
    } else if forall t :: !Explains(t, document, processes) {
      Tagged(document, processes);
      assert false;
    }
  }

  lemma {:induction false} Untagged(document: Json, processes: map<string, Fields>)
    requires Accepts(document, processes)
    ensures forall t :: !Explains(t, document, processes)
  {
    var cases := document.fields["cases"].items;
    var service := CommonService(cases);
    forall t ensures !Explains(t, document, processes) {
      if t.CaseTag? && t.index < Count {
        assert ScenarioOk(cases[t.index], t.index);
        CaseOkIffFaultless(cases[t.index], t.index, service, ProcessOf(processes, service));
      }
    }
  }

  lemma {:induction false} FindFault(cases: seq<Json>, service: Json, process: Fields) returns (k: nat, f: Fault)
    requires |cases| == Count && !AllCasesOk(cases, service, process)
    ensures k < Count && Faulty(cases[k], k, service, process, f)
  {
    k :| k < Count && !CaseOk(cases[k], k, service, process);
    CaseOkIffFaultless(cases[k], k, service, process);
    f :| Faulty(cases[k], k, service, process, f);
  }

  lemma {:induction false} Tagged(document: Json, processes: map<string, Fields>)
    requires !Accepts(document, processes)
    ensures exists t :: Explains(t, document, processes)
  {
    if !ExactKeys(document, {"schema", "cases"}) {
      assert Explains(TopSchema, document, processes);
    } else if document.fields["schema"] != Str(SchemaName) {
      assert Explains(SchemaValue, document, processes);
    } else if !HeaderOk(document) {
      assert Explains(CaseCount, document, processes);
    } else {
      var cases := document.fields["cases"].items;
      var service := CommonService(cases);
      var process := ProcessOf(processes, service);
      if !AllScenariosOk(cases) {
        assert Explains(ScenarioOrder, document, processes);
      } else if !IsControl(service) {
        assert Explains(CommonServiceTag, document, processes);
      } else {
        var k, f := FindFault(cases, service, process);
        assert Explains(CaseTag(k, f), document, processes);
      }
    }
  }

  /** Both validators on one document: the boolean one answers true exactly when the
      diagnostic one returns no tag. */
  method CheckBoth(document: Json, processes: map<string, Fields>)
    returns (accepted: Option<bool>, tags: Option<set<Tag>>)
    ensures accepted == Some(true) <==> tags == Some({})
    ensures accepted == Some(true) ==> Accepts(document, processes)
  {
    accepted := CheckLiveRejections(document, processes);
    tags := Diagnose(document, processes);
    AcceptsIffUntagged(document, processes);
    if tags.Some? && forall t :: !Explains(t, document, processes) {
      assert tags.value == {};
    }
    if tags == Some({}) {
      forall t ensures !Explains(t, document, processes) {
        assert t !in tags.value;
      }
    }
  }

  // ----- what acceptance means for the signer

  /** What a state says about the signer, as far as it is an object. */
  predicate Shows(state: Json, service: Json, credential: string, generation: int, rejected: int, error: Json) {
    && state.Obj?
    && PyEq(Get(state.fields, "service_id"), service)
    && Get(state.fields, "active_credential_id") == Str(credential)
    && Get(state.fields, "bundle_generation") == Int(generation)
    && Get(state.fields, "rejected_reloads") == Int(rejected)
    && Get(state.fields, "last_error_kind") == error
  }

  /** The states before, during and after the k-th rejection. */
  predicate ShowsRejection(i: Item, credential: string, generation: int, k: nat, error: Json) {
    && Shows(i.before, i.service, credential, generation, k, Null)
    && Shows(i.rejected, i.service, credential, generation, k + 1, error)
    && Shows(i.recovered, i.service, credential, generation, k + 1, Null)
  }

  lemma {:induction false} StateShows(state: Json, service: Json, e: Expected, error: Json, n: int)
    requires StateOk(state, service, e, error) && CountIs(state, n)
    ensures Shows(state, service, e.credential, e.generation, n, error)
  {
  }

  lemma {:induction false} ItemShows(i: Item, e: Expected, service: Json, process: Fields)
    requires ItemOk(i, e, service, process)
    ensures ShowsRejection(i, e.credential, e.generation, e.index, e.kind)
  {
    StateShows(i.before, i.service, e, Null, e.index);
    StateShows(i.rejected, i.service, e, e.kind, e.index + 1);
    StateShows(i.recovered, i.service, e, Null, e.index + 1);
  }

  lemma {:induction false} NewKeyCases(k: nat)
    requires k < Count
    ensures Expect(k).credential == (if k < 9 then "key-a" else "key-b")
    ensures Expect(k).generation == if k < 9 then 1 else 2
  {
    assert Cases[9].scenario == "stale" && Cases[10].scenario == "fork";
  }

  lemma {:induction false} CaseShows(item: Json, k: nat, service: Json, process: Fields)
    requires k < Count && CaseOk(item, k, service, process)
    ensures ReadItem(item).Some?
    ensures ShowsRejection(ReadItem(item).value, Expect(k).credential, Expect(k).generation, k, Expect(k).kind)
  {
    ItemShows(ReadItem(item).value, Expect(k), service, process);
  }

  /** In an accepted document a rejected bundle changes nothing but the counter: the k-th
      case keeps the signer on the credential it had, takes the counter from k to k + 1
      and leaves it there, and reports the case's own error only while it lasts. */
  lemma {:induction false} RejectionKeepsSigner(document: Json, processes: map<string, Fields>, k: nat)
    requires Accepts(document, processes) && k < Count
    ensures var read := ReadItem(document.fields["cases"].items[k]);
            && read.Some?
            && ShowsRejection(read.value, if k < 9 then "key-a" else "key-b", if k < 9 then 1 else 2, k, Expect(k).kind)
  {
    var cases := document.fields["cases"].items;
    var service := CommonService(cases);
    CaseShows(cases[k], k, service, ProcessOf(processes, service));
    NewKeyCases(k);
  }

  /** The integer a state shows in a field. */
  function Shown(state: Json, field: string): Option<int> {
    if state.Obj? && Get(state.fields, field).Int? then Some(Get(state.fields, field).n) else None
  }

  lemma {:induction false} ShownFields(
    state: Json, service: Json, credential: string, generation: int, n: int, error: Json)
    requires Shows(state, service, credential, generation, n, error)
    ensures Shown(state, "rejected_reloads") == Some(n) && Shown(state, "bundle_generation") == Some(generation)
  {
  }

  lemma {:induction false} ShownRejection(i: Item, credential: string, generation: int, k: nat, error: Json)
    requires ShowsRejection(i, credential, generation, k, error)
    ensures Shown(i.before, "rejected_reloads") == Some(k) && Shown(i.recovered, "rejected_reloads") == Some(k + 1)
    ensures Shown(i.before, "bundle_generation") == Shown(i.recovered, "bundle_generation") == Some(generation)
  {
    ShownFields(i.before, i.service, credential, generation, k, Null);
    ShownFields(i.recovered, i.service, credential, generation, k + 1, Null);
  }

  /** The numbers the k-th case shows before and after its rejection. */
  predicate Numbers(i: Item, k: nat) {
    && Shown(i.before, "rejected_reloads") == Some(k)
    && Shown(i.recovered, "rejected_reloads") == Some(k + 1)
    && Shown(i.before, "bundle_generation") == Shown(i.recovered, "bundle_generation") == Some(if k < 9 then 1 else 2)
  }

  lemma {:induction false} CaseNumbers(item: Json, k: nat, service: Json, process: Fields)
    requires k < Count && CaseOk(item, k, service, process)
    ensures ReadItem(item).Some? && Numbers(ReadItem(item).value, k)
  {
    CaseShows(item, k, service, process);
    NewKeyCases(k);
    ShownRejection(ReadItem(item).value, Expect(k).credential, Expect(k).generation, k, Expect(k).kind);
  }

  lemma {:induction false} ItemIdentity(i: Item, e: Expected, service: Json, process: Fields)
    requires IsControl(service) && ItemOk(i, e, service, process)
    ensures i.service == service && i.pid.Int?
    ensures Numeric(Get(process, "pid")) == Some(i.pid.n as real)
  {
  }

  lemma {:induction false} CaseIdentity(item: Json, k: nat, service: Json, process: Fields)
    requires k < Count && IsControl(service) && CaseOk(item, k, service, process)
    ensures ReadItem(item).Some? && ReadItem(item).value.service == service && ReadItem(item).value.pid.Int?
    ensures Numeric(Get(process, "pid")) == Some(ReadItem(item).value.pid.n as real)
  {
    ItemIdentity(ReadItem(item).value, Expect(k), service, process);
  }

  /** Case b continues case a, with the cases in between. */
  predicate Continues(a: Item, b: Item, j: nat, k: nat)
    requires j < k
  {
    && a.service == b.service
    && a.pid == b.pid
    && Shown(a.recovered, "rejected_reloads").Some?
    && Shown(b.before, "rejected_reloads") == Some(Shown(a.recovered, "rejected_reloads").value + (k - j - 1))
    && Shown(a.recovered, "bundle_generation").Some?
    && Shown(b.before, "bundle_generation")
       == Some(Shown(a.recovered, "bundle_generation").value + if j < 9 <= k then 1 else 0)
  }

  /** The k-th case comes from this service and this process, and shows its numbers. */
  predicate Told(i: Item, k: nat, service: Json, pid: Option<real>) {
    i.service == service && i.pid.Int? && pid == Some(i.pid.n as real) && Numbers(i, k)
  }

  lemma {:induction false} ToldContinue(a: Item, b: Item, j: nat, k: nat, service: Json, pid: Option<real>)
    requires j < k && Told(a, j, service, pid) && Told(b, k, service, pid)
    ensures Continues(a, b, j, k)
  {
  }

  lemma {:induction false} CaseTold(item: Json, k: nat, service: Json, process: Fields)
    requires k < Count && IsControl(service) && CaseOk(item, k, service, process)
    ensures ReadItem(item).Some? && Told(ReadItem(item).value, k, service, Numeric(Get(process, "pid")))
  {
    CaseNumbers(item, k, service, process);
    CaseIdentity(item, k, service, process);
  }

  lemma {:induction false} AcceptedTold(document: Json, processes: map<string, Fields>, k: nat)
    requires Accepts(document, processes) && k < Count
    ensures var cases := document.fields["cases"].items;
            var service := CommonService(cases);
            && ReadItem(cases[k]).Some?
            && Told(ReadItem(cases[k]).value, k, service, Numeric(Get(ProcessOf(processes, service), "pid")))
  {
    var cases := document.fields["cases"].items;
    var service := CommonService(cases);
    CaseTold(cases[k], k, service, ProcessOf(processes, service));
  }

  /** An accepted document tells one story: all cases come from one control and one
      process, each case takes up the counter where the cases in between have left it,
      the generation changes once, between the ninth and the tenth case, and the last
      case leaves eleven rejections. */
  lemma {:induction false} OneStory(document: Json, processes: map<string, Fields>, j: nat, k: nat)
    requires Accepts(document, processes) && j < k < Count
    ensures var a, b := ReadItem(document.fields["cases"].items[j]), ReadItem(document.fields["cases"].items[k]);
            && a.Some? && b.Some?
            && Continues(a.value, b.value, j, k)
            && (k == Count - 1 ==> Shown(b.value.recovered, "rejected_reloads") == Some(11))
  {
    var cases := document.fields["cases"].items;
    var service := CommonService(cases);
    AcceptedTold(document, processes, j);
    AcceptedTold(document, processes, k);
    ToldContinue(ReadItem(cases[j]).value, ReadItem(cases[k]).value, j, k, service,
                 Numeric(Get(ProcessOf(processes, service), "pid")));
  }
}
