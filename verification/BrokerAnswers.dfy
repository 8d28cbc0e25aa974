/** What each request of the broker stores and each poll answers, read off the request and the resource. */
module BrokerAnswers {
  import opened Prelude
  import opened Types
  import opened Broker
  import opened BrokerRuns
  import opened BrokerFacts
  import J = Json
  import Cr = Credentials

  // ----- what is stored -----

  function NonNull(j: J.Json): Option<J.Json> {
    if j.Null? then None else Some(j)
  }

  /** The instance names its offering and its plan, and carries the plan's id and the parameters if there are any. */
  lemma InstanceSpecMeans(offering: string, plan: string, planID: string, parameters: J.Json, k: string)
    ensures J.Get(InstanceSpec(offering, plan, planID, parameters), k) ==
            if k == "serviceOfferingName" then Some(J.Str(offering))
            else if k == "servicePlanName" then Some(J.Str(plan))
            else if k == "servicePlanID" then (if planID == "" then None else Some(J.Str(planID)))
            else if k == "parameters" then NonNull(parameters)
            else None
  {
  }

  /** The binding names its instance, and the secret that its credentials will be read from: its own id. */
  lemma BindingSpecMeans(instanceID: string, bindingID: string, parameters: J.Json, k: string)
    ensures J.Get(BindingSpec(instanceID, bindingID, parameters), k) ==
            if k == "serviceInstanceName" then Some(J.Str(instanceID))
            else if k == "secretName" then Some(J.Str(bindingID))
            else if k == "parameters" then NonNull(parameters)
            else None
  {
  }

  ghost predicate OthersStay(rs: Resources, rs': Resources, name: string) {
    forall n :: n != name ==> (n in rs' <==> n in rs) && (n in rs ==> rs'[n] == rs[n])
  }

  /** A new resource is a first generation without any report; of an existing one only the spec changes, to the one
      sent (null members counting as absent), and the generation with it. */
  lemma SentMeans(rs: Resources, name: string, spec: J.Fields, uid: nat)
    ensures var rs' := Sent(rs, name, spec, uid);
            && OthersStay(rs, rs', name) && name in rs'
            && (name !in rs ==> rs'[name] == Resource(uid, 1, false, false, spec, [], ""))
            && (name in rs ==>
                  var r, r' := rs[name], rs'[name];
                  && r' == r.(spec := r'.spec, generation := r'.generation)
                  && J.NormFields(r'.spec) == J.NormFields(spec)
                  && r'.generation == r.generation + (if r'.spec == r.spec then 0 else 1))
  {
    if name in rs { J.MergeDiffIsModified(rs[name].spec, spec); }
  }

  /** Removing what nobody holds takes it away; what the operator holds is marked once, as a new generation. */
  lemma RemovedMeans(rs: Resources, name: string)
    ensures var rs' := Removed(rs, name);
            && OthersStay(rs, rs', name)
            && (name in rs' <==> name in rs && rs[name].held)
            && (name in rs' ==>
                  rs'[name] == rs[name].(deleting := true,
                                         generation := rs[name].generation + if rs[name].deleting then 0 else 1))
  {
  }

  // ----- polls -----

  /** The operation data tells the poll apart, for instances and for bindings; anything else is refused. */
  lemma PollByData(rs: Resources, name: string, data: string, fault: Option<string>)
    ensures "provision-" <= data ==> LastOperationPoll(INSTANCE, rs, name, data, fault) == CreatePoll(rs, name, fault)
    ensures "deprovision-" <= data ==> LastOperationPoll(INSTANCE, rs, name, data, fault) == RemovePoll(rs, name, fault)
    ensures !("provision-" <= data) && !("deprovision-" <= data) ==>
              LastOperationPoll(INSTANCE, rs, name, data, fault) == PollError("unknown operation")
    ensures "bind-" <= data ==> LastOperationPoll(BINDING, rs, name, data, fault) == CreatePoll(rs, name, fault)
    ensures "unbind-" <= data ==> LastOperationPoll(BINDING, rs, name, data, fault) == RemovePoll(rs, name, fault)
    ensures !("bind-" <= data) && !("unbind-" <= data) ==>
              LastOperationPoll(BINDING, rs, name, data, fault) == PollError("unknown operation")
  {
    assert "provision-"[0] != "deprovision-"[0] && "bind-"[0] != "unbind-"[0];
  }

  /** What the condition that reports a failure says about it. */
  function Failure(r: Resource): string
    requires ReportedTrue(r, "Failed")
  {
    FindCondition(r.conditions, "Failed").value.message
  }

  /** The Open Service Broker API knows three states of an operation. Over every run: a create poll answers succeeded exactly if the operator has reported success for the stored
      generation; failed, with its message, exactly if it has not and has reported a failure for it; in
      progress exactly if it has reported neither, and is creating; and no state otherwise. */
  lemma CreatePollMeans(steps: seq<Step>, name: string, fault: Option<string>)
    ensures var rs := Exec(INIT, steps).store;
            var poll := CreatePoll(rs, name, fault);
            && (fault.Some? ==> poll == PollError(fault.value))
            && (fault.None? && name !in rs ==> poll == NotFound)
            && (fault.None? && name in rs ==>
                  var r := rs[name];
                  var success, failure := ReportedTrue(r, "Succeeded"), ReportedTrue(r, "Failed");
                  && (success ==> poll == Answer(LastOperation(Succeeded, "")))
                  && (!success && failure ==> poll == Answer(LastOperation(FailedOperation, Failure(r))))
                  && (!success && !failure && r.operationType == "create" ==> poll == Answer(LastOperation(InProgress, "")))
                  && (!success && !failure && r.operationType != "create" ==> poll == Answer(LastOperation(NoState, ""))))
  {
    StoredTrue(steps, name);
  }

  /** A delete poll answers succeeded exactly if the resource is gone; failed exactly if the operator has reported a
      failure for the stored generation; in progress exactly if not, and it is deleting; and no state otherwise. */
  lemma RemovePollMeans(steps: seq<Step>, name: string, fault: Option<string>)
    ensures var rs := Exec(INIT, steps).store;
            var poll := RemovePoll(rs, name, fault);
            && (fault.Some? ==> poll == PollError(fault.value))
            && (fault.None? && name !in rs ==> poll == Answer(LastOperation(Succeeded, "")))
            && (fault.None? && name in rs ==>
                  var r := rs[name];
                  var failure := ReportedTrue(r, "Failed");
                  && (failure ==> poll == Answer(LastOperation(FailedOperation, Failure(r))))
                  && (!failure && r.operationType == "delete" ==> poll == Answer(LastOperation(InProgress, "")))
                  && (!failure && r.operationType != "delete" ==> poll == Answer(LastOperation(NoState, ""))))
  {
    StoredTrue(steps, name);
  }

  /** Among the conditions of a stored resource the filter by generation is a test of the one condition found. */
  lemma StoredTrue(steps: seq<Step>, name: string)
    ensures var rs := Exec(INIT, steps).store;
            name in rs ==>
              var r := rs[name];
              && (IsTrue(Latest(r), "Succeeded") <==> ReportedTrue(r, "Succeeded"))
              && (IsTrue(Latest(r), "Failed") <==> ReportedTrue(r, "Failed"))
  {
    ReachableInv(steps);
    var s := Exec(INIT, steps);
    if name in s.store {
      var r := s.store[name];
      assert ResourceOk(s, name, r);
      ObservedTrue(r.conditions, r.generation, "Succeeded");
      ObservedTrue(r.conditions, r.generation, "Failed");
    }
  }

  // ----- binding -----

  /** Bind answers at once exactly if its poll answers succeeded, with the decoded secret or the reason why there is
      none; otherwise it hands out the operation data of a bind to poll with. */
  lemma BindMeans(c: Cr.Codec, v: Visible, id: string, f: BindFaults)
    ensures var (v', r) := BindEnd(c, v, id, f);
            match CreatePoll(v.bindings, id, f.poll)
            case PollError(m) => v' == v && r == Err(m)
            case NotFound => v' == v && r == Err("binding does not exist")
            case Answer(op) =>
              && (op.state != Succeeded ==> v' == v && r == Ok(Binding(None, true, "bind-" + id)))
              && (op.state == Succeeded ==>
                    && v' == f.beforeSecret(v)
                    && (f.secret.Some? ==> r == Err(f.secret.value))
                    && (f.secret.None? && id !in v'.secrets ==> r == Err("binding Secret not found"))
                    && (f.secret.None? && id in v'.secrets ==>
                          match Cr.DecodeBinding(c, v'.secrets[id])
                          case Err(m) => r == Err(m)
                          case Ok(j) => r == Ok(Binding(Some(j), false, "bind-" + id))))
  {
    assert BINDING.create <= "bind-" + id;
  }
}
