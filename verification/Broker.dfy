/**
 The asynchronous operations of the BTP service broker (`components/btp-service-broker/btp/broker.go`):
 instances and bindings are custom resources that the broker writes and the BTP operator works off;
 a poll reads what the operator has reported about the resource's current generation.
 */
module Broker {
  import opened Prelude
  import opened Types
  import J = Json
  import Cr = Credentials
  import Cat = Catalogue

  const SUCCEEDED := "Succeeded"
  const FAILED := "Failed"

  /** A ServiceInstance or a ServiceBinding. `held`: the operator has put its finalizer on it. */
  datatype Resource = Resource(
    uid: nat,
    generation: int,
    deleting: bool,
    held: bool,
    spec: J.Fields,
    conditions: seq<Condition>,
    operationType: string)

  type Resources = map<string, Resource>

  // ----- what the API server makes of the broker's calls -----

  /** A write moves the generation exactly if it changes the spec. */
  function Rewritten(r: Resource, spec: J.Fields): Resource {
    if spec == r.spec then r else r.(spec := spec, generation := r.generation + 1)
  }

  function Created(rs: Resources, name: string, spec: J.Fields, uid: nat): Resources {
    rs[name := Resource(uid, 1, false, false, spec, [], "")]
  }

  /** controllerutil.CreateOrPatch with a mutation that replaces the spec. */
  function Sent(rs: Resources, name: string, spec: J.Fields, uid: nat): Resources {
    if name !in rs then Created(rs, name, spec, uid)
    else rs[name := Rewritten(rs[name], J.Merge(rs[name].spec, J.Diff(rs[name].spec, spec)))]
  }

  /** Marking for deletion moves the generation too. */
  function Removed(rs: Resources, name: string): Resources {
    if name !in rs then rs
    else if !rs[name].held then rs - {name}
    else if rs[name].deleting then rs
    else rs[name := rs[name].(deleting := true, generation := rs[name].generation + 1)]
  }

  // ----- reading the reported state -----

  function Observed(cs: seq<Condition>, generation: int): seq<Condition> {
    if cs == [] then []
    else if cs[0].observedGeneration == generation then [cs[0]] + Observed(cs[1..], generation)
    else Observed(cs[1..], generation)
  }

  function Latest(r: Resource): seq<Condition> {
    Observed(r.conditions, r.generation)
  }

  datatype OperationState = NoState | Succeeded | FailedOperation | InProgress

  datatype LastOperation = LastOperation(state: OperationState, description: string)

  datatype Poll = Answer(operation: LastOperation) | NotFound | PollError(message: string)

  lemma {:induction false} ObservedFound(cs: seq<Condition>, generation: int, kind: string)
    requires FindCondition(Observed(cs, generation), kind).Some?
    ensures FindCondition(cs, kind).Some?
    ensures FindCondition(Observed(cs, generation), kind).value.observedGeneration == generation
  {
    if cs[0].observedGeneration == generation {
      assert Observed(cs, generation)[1..] == Observed(cs[1..], generation);
    }
    if cs[0].observedGeneration != generation || cs[0].kind != kind {
      ObservedFound(cs[1..], generation, kind);
    }
  }

  /** The description comes from the unfiltered list. */
  function FailedDescription(r: Resource): string
    requires IsTrue(Latest(r), FAILED)
  {
    ObservedFound(r.conditions, r.generation, FAILED);
    FindCondition(r.conditions, FAILED).value.message
  }

  /** The state of creating an instance or a binding. */
  function CreateState(r: Resource): LastOperation {
    if IsTrue(Latest(r), SUCCEEDED) then LastOperation(Succeeded, "")
    else if IsTrue(Latest(r), FAILED) then LastOperation(FailedOperation, FailedDescription(r))
    else if r.operationType == "create" then LastOperation(InProgress, "")
    else LastOperation(NoState, "")
  }

  /** The state of deleting one. */
  function RemoveState(r: Resource): LastOperation {
    if IsTrue(Latest(r), FAILED) then LastOperation(FailedOperation, FailedDescription(r))
    else if r.operationType == "delete" then LastOperation(InProgress, "")
    else LastOperation(NoState, "")
  }

  function CreatePoll(rs: Resources, name: string, fault: Option<string>): Poll {
    if fault.Some? then PollError(fault.value)
    else if name !in rs then NotFound
    else Answer(CreateState(rs[name]))
  }

  function RemovePoll(rs: Resources, name: string, fault: Option<string>): Poll {
    if fault.Some? then PollError(fault.value)
    else if name !in rs then Answer(LastOperation(Succeeded, ""))
    else Answer(RemoveState(rs[name]))
  }

  /** The two operations of a kind, as they are named in the operation data. */
  datatype Verbs = Verbs(create: string, remove: string)

  const INSTANCE := Verbs("provision-", "deprovision-")
  const BINDING := Verbs("bind-", "unbind-")

  function LastOperationPoll(v: Verbs, rs: Resources, name: string, operationData: string, fault: Option<string>): Poll {
    if v.create <= operationData then CreatePoll(rs, name, fault)
    else if v.remove <= operationData then RemovePoll(rs, name, fault)
    else PollError("unknown operation")
  }

  /** The operation data of a request leads its polls to the right operation, whatever the id is. */
  lemma PollsTheRightOperation(rs: Resources, name: string, id: string, fault: Option<string>, v: Verbs)
    requires v == INSTANCE || v == BINDING
    ensures LastOperationPoll(v, rs, name, v.create + id, fault) == CreatePoll(rs, name, fault)
    ensures LastOperationPoll(v, rs, name, v.remove + id, fault) == RemovePoll(rs, name, fault)
  {
    assert (v.remove + id)[0] == v.remove[0];
    assert v.create[0] != v.remove[0];
  }

  // ----- requests -----

  /** The JSON of the two specs; an empty plan id is omitted, null parameters are not stored. */
  function WithParameters(spec: J.Fields, parameters: J.Json): J.Fields {
    if parameters.Null? then spec else spec["parameters" := parameters]
  }

  function InstanceSpec(offering: string, plan: string, planID: string, parameters: J.Json): J.Fields {
    var spec: J.Fields := map["serviceOfferingName" := J.Str(offering), "servicePlanName" := J.Str(plan)];
    WithParameters(if planID == "" then spec else spec["servicePlanID" := J.Str(planID)], parameters)
  }

  function BindingSpec(instanceID: string, bindingID: string, parameters: J.Json): J.Fields {
    WithParameters(map["serviceInstanceName" := J.Str(instanceID), "secretName" := J.Str(bindingID)], parameters)
  }

  datatype Accepted = Accepted(isAsync: bool, operationData: string)

  datatype Binding = Binding(credentials: Option<J.Json>, isAsync: bool, operationData: string)

  // ----- the API server and the broker -----

  /** The resources of one kind as the API server holds them. */
  class ResourceStore {
    var items: Resources
    var nextUid: nat

    constructor ()
      ensures items == map[] && nextUid == 0
    {
      items, nextUid := map[], 0;
    }

    method Create(name: string, spec: J.Fields) returns (ok: bool)
      modifies this
      ensures ok == (name !in old(items))
      ensures ok ==> items == Created(old(items), name, spec, old(nextUid)) && nextUid == old(nextUid) + 1
      ensures !ok ==> items == old(items) && nextUid == old(nextUid)
    {
      ok := name !in items;
      if ok {
        items := items[name := Resource(nextUid, 1, false, false, spec, [], "")];
        nextUid := nextUid + 1;
      }
    }

    method Patch(name: string, patch: J.Fields) returns (ok: bool)
      modifies this`items
      ensures ok == (name in old(items))
      ensures items == if ok then old(items)[name := Rewritten(old(items)[name], J.Merge(old(items)[name].spec, patch))]
                       else old(items)
    {
      ok := name in items;
      if ok {
        items := items[name := Rewritten(items[name], J.Merge(items[name].spec, patch))];
      }
    }

    method Delete(name: string) returns (found: bool)
      modifies this`items
      ensures found == (name in old(items))
      ensures items == Removed(old(items), name)
    {
      found := name in items;
      if found {
        if !items[name].held {
          items := items - {name};
        } else if !items[name].deleting {
          items := items[name := items[name].(deleting := true, generation := items[name].generation + 1)];
        }
      }
    }

    /** Read, replace the spec, and create or send the difference; no difference, no request. */
    method CreateOrPatch(name: string, spec: J.Fields)
      modifies this
      ensures items == Sent(old(items), name, spec, old(nextUid))
      ensures nextUid == if name in old(items) then old(nextUid) else old(nextUid) + 1
    {
      var ok;
      if name !in items {
        ok := Create(name, spec);
      } else {
        var before := items[name].spec;
        var patch := J.Diff(before, spec);
        if before != spec {
          ok := Patch(name, patch);
        } else {
          J.MergeUnchanged(before, spec);
          assert items == Sent(items, name, spec, nextUid);
        }
      }
    }
  }

  datatype Visible = Visible(bindings: Resources, secrets: map<string, Cr.SecretData>)

  /** The failures of the three requests of one Bind, and what the operator and other clients do between
      the write and the poll, and between the poll and the reading of the secret. */
  datatype BindFaults = BindFaults(
    send: Option<string>,
    poll: Option<string>,
    secret: Option<string>,
    beforePoll: Visible -> Visible,
    beforeSecret: Visible -> Visible)

  function Credentials(c: Cr.Codec, secrets: map<string, Cr.SecretData>, name: string, fault: Option<string>): Result<J.Json> {
    if fault.Some? then Err(fault.value)
    else if name !in secrets then Err("binding Secret not found")
    else Cr.DecodeBinding(c, secrets[name])
  }

  /** What Bind answers and leaves visible, given what is visible when it polls. */
  function BindEnd(c: Cr.Codec, v: Visible, bindingID: string, f: BindFaults): (Visible, Result<Binding>) {
    match LastOperationPoll(BINDING, v.bindings, bindingID, "bind-" + bindingID, f.poll)
    case PollError(m) => (v, Err(m))
    case NotFound => (v, Err("binding does not exist"))
    case Answer(op) =>
      if op.state != Succeeded then (v, Ok(Binding(None, true, "bind-" + bindingID))) else
      var v' := f.beforeSecret(v);
      (v', match Credentials(c, v'.secrets, bindingID, f.secret)
           case Err(m) => Err(m)
           case Ok(credentials) => Ok(Binding(Some(credentials), false, "bind-" + bindingID)))
  }

  class BTPBroker {
    const instances: ResourceStore
    const bindings: ResourceStore
    const codec: Cr.Codec
    /** The binding secrets, which only the operator writes. */
    var secrets: map<string, Cr.SecretData>

    constructor (instances: ResourceStore, bindings: ResourceStore, codec: Cr.Codec)
      requires instances != bindings
      ensures this.instances == instances && this.bindings == bindings && this.codec == codec
    {
      this.instances, this.bindings, this.codec := instances, bindings, codec;
      secrets := map[];
    }

    method Provision(instanceID: string, planID: string, serviceID: string, parameters: J.Json,
                     offerings: Result<seq<Cat.Offering>>, plans: Result<seq<Cat.Plan>>, fault: Option<string>)
      returns (r: Result<Accepted>)
      modifies instances
      ensures r.Ok? <==> fault.None? && Cat.PlanByID(plans, planID).Ok? && Cat.OfferingByID(offerings, serviceID).Ok?
      ensures r.Ok? ==>
                var spec := InstanceSpec(Cat.OfferingByID(offerings, serviceID).value.name,
                                         Cat.PlanByID(plans, planID).value.name, planID, parameters);
                && instances.items == Sent(old(instances.items), instanceID, spec, old(instances.nextUid))
                && r.value == Accepted(true, "provision-" + instanceID)
      ensures r.Err? ==>
                && instances.items == old(instances.items)
                && r.message == (if Cat.PlanByID(plans, planID).Err? then Cat.PlanByID(plans, planID).message
                                 else if Cat.OfferingByID(offerings, serviceID).Err? then Cat.OfferingByID(offerings, serviceID).message
                                 else fault.value)
    {
      var plan := Cat.GetPlanByID(plans, planID);
      if plan.Err? {
        return Err(plan.message);
      }
      var offering := Cat.GetOfferingByID(offerings, serviceID);
      if offering.Err? {
        return Err(offering.message);
      }
      if fault.Some? {
        return Err(fault.value);
      }
      instances.CreateOrPatch(instanceID, InstanceSpec(offering.value.name, plan.value.name, plan.value.id, parameters));
      return Ok(Accepted(true, "provision-" + instanceID));
    }

    method Deprovision(instanceID: string, fault: Option<string>) returns (r: Result<Accepted>)
      modifies instances`items
      ensures r == if fault.Some? then Err(fault.value) else Ok(Accepted(true, "deprovision-" + instanceID))
      ensures instances.items == if fault.Some? then old(instances.items) else Removed(old(instances.items), instanceID)
    {
      if fault.Some? {
        return Err(fault.value);
      }
      var found := instances.Delete(instanceID);
      r := Ok(Accepted(true, "deprovision-" + instanceID));
    }

    method Unbind(bindingID: string, fault: Option<string>) returns (r: Result<Accepted>)
      modifies bindings`items
      ensures r == if fault.Some? then Err(fault.value) else Ok(Accepted(true, "unbind-" + bindingID))
      ensures bindings.items == if fault.Some? then old(bindings.items) else Removed(old(bindings.items), bindingID)
    {
      if fault.Some? {
        return Err(fault.value);
      }
      var found := bindings.Delete(bindingID);
      r := Ok(Accepted(true, "unbind-" + bindingID));
    }

    method Interfere(others: Visible -> Visible)
      modifies this`secrets, bindings`items
      ensures Visible(bindings.items, secrets) == others(old(Visible(bindings.items, secrets)))
    {
      var seen := others(Visible(bindings.items, secrets));
      bindings.items, secrets := seen.bindings, seen.secrets;
    }

    method Bind(instanceID: string, bindingID: string, parameters: J.Json, f: BindFaults) returns (r: Result<Binding>)
      modifies this`secrets, bindings
      ensures f.send.Some? ==>
                r == Err(f.send.value) && bindings.items == old(bindings.items) && secrets == old(secrets)
      ensures f.send.None? ==>
                var spec := BindingSpec(instanceID, bindingID, parameters);
                var sent := Sent(old(bindings.items), bindingID, spec, old(bindings.nextUid));
                (Visible(bindings.items, secrets), r) == BindEnd(codec, f.beforePoll(Visible(sent, old(secrets))), bindingID, f)
    {
      if f.send.Some? {
        return Err(f.send.value);
      }
      bindings.CreateOrPatch(bindingID, BindingSpec(instanceID, bindingID, parameters));
      Interfere(f.beforePoll);
      var lastOperation := LastOperationPoll(BINDING, bindings.items, bindingID, "bind-" + bindingID, f.poll);
      match lastOperation
      case PollError(m) => r := Err(m);
      case NotFound => r := Err("binding does not exist");
      case Answer(op) =>
        if op.state == Succeeded {
          Interfere(f.beforeSecret);
          var credentials := GetCredentials(bindingID, f.secret);
          r := if credentials.Err? then Err(credentials.message)
               else Ok(Binding(Some(credentials.value), false, "bind-" + bindingID));
        } else {
          r := Ok(Binding(None, true, "bind-" + bindingID));
        }
    }

    method GetCredentials(name: string, fault: Option<string>) returns (r: Result<J.Json>)
      ensures r == Credentials(codec, secrets, name, fault)
    {
      if fault.Some? {
        return Err(fault.value);
      }
      if name !in secrets {
        return Err("binding Secret not found");
      }
      r := Cr.DecodeBindingSecretData(codec, secrets[name]);
    }
  }
}
