/**
 Runs of the broker, the BTP operator and everybody else over the resources of one kind: requests
 that are sent, changed and sent again, deletions and recreations under the same name, reports the
 operator computed from a version that is no longer the stored one, and polls at any moment.
 */
module BrokerRuns {
  import opened Prelude
  import opened Types
  import opened Broker
  import J = Json
  import Cr = Credentials

  /** The version of a resource that the operator is working on. */
  datatype Snapshot = Snapshot(uid: nat, generation: int, spec: J.Fields)

  /** What the operator has finished: the outside operation for one version, and for a binding its secret. */
  datatype Output = Output(version: Snapshot, secret: Cr.SecretData)

  /** `sent` is history: the last spec requested under a name, until it is deleted or written by others. */
  datatype Sys = Sys(
    store: Resources,
    nextUid: nat,
    seen: map<string, Snapshot>,
    outputs: map<string, Output>,
    sent: map<string, J.Fields>)

  datatype Step =
    | Send(name: string, spec: J.Fields)
    | Remove(name: string)
    | OthersWrite(name: string, spec: J.Fields)
    | OperatorRead(name: string)
    | OperatorFinish(name: string, secret: Cr.SecretData)
    | OperatorReport(name: string, kind: string, status: Truth, message: string, operationType: string, now: int)
    | OperatorForget(name: string, kind: string)
    | OperatorHold(name: string)
    | OperatorRelease(name: string)

  function WithoutCondition(cs: seq<Condition>, kind: string): seq<Condition> {
    if cs == [] then []
    else if cs[0].kind == kind then WithoutCondition(cs[1..], kind)
    else [cs[0]] + WithoutCondition(cs[1..], kind)
  }

  /** The operator works for the stored resource, not for one that had its name before. */
  predicate WorksFor(s: Sys, name: string) {
    name in s.seen && name in s.store && s.seen[name].uid == s.store[name].uid
  }

  /** Success is reported only after the operation for that very version is finished. */
  predicate MayReport(s: Sys, name: string, kind: string, status: Truth) {
    && WorksFor(s, name)
    && (kind == SUCCEEDED && status.True? ==> name in s.outputs && s.outputs[name].version == s.seen[name])
  }

  function Reported(r: Resource, generation: int, step: Step): Resource
    requires step.OperatorReport?
  {
    r.(conditions := SetCondition(r.conditions,
                       Condition(step.kind, step.status, generation, step.now, "", step.message)),
       operationType := step.operationType)
  }

  function Next(s: Sys, step: Step): Sys {
    match step
    case Send(name, spec) =>
      s.(store := Sent(s.store, name, spec, s.nextUid),
         nextUid := if name in s.store then s.nextUid else s.nextUid + 1,
         sent := s.sent[name := spec])
    case Remove(name) => AfterRemoval(s, Removed(s.store, name), name)
    case OthersWrite(name, spec) =>
      if name !in s.store then s
      else s.(store := s.store[name := Rewritten(s.store[name], spec)], sent := s.sent - {name})
    case OperatorRead(name) =>
      if name !in s.store then s.(seen := s.seen - {name})
      else var r := s.store[name]; s.(seen := s.seen[name := Snapshot(r.uid, r.generation, r.spec)])
    case OperatorFinish(name, secret) =>
      if name !in s.seen then s else s.(outputs := s.outputs[name := Output(s.seen[name], secret)])
    case OperatorReport(name, kind, status, _, _, _) =>
      if !MayReport(s, name, kind, status) then s
      else s.(store := s.store[name := Reported(s.store[name], s.seen[name].generation, step)])
    case OperatorForget(name, kind) =>
      if !WorksFor(s, name) then s
      else s.(store := s.store[name := s.store[name].(conditions := WithoutCondition(s.store[name].conditions, kind))])
    case OperatorHold(name) =>
      if name !in s.store || s.store[name].deleting then s
      else s.(store := s.store[name := s.store[name].(held := true)])
    case OperatorRelease(name) =>
      if name !in s.store then s
      else if s.store[name].deleting then AfterRemoval(s, s.store - {name}, name)
      else s.(store := s.store[name := s.store[name].(held := false)])
  }

  function AfterRemoval(s: Sys, store: Resources, name: string): Sys {
    s.(store := store, sent := if name in store then s.sent else s.sent - {name})
  }

  function Exec(s: Sys, steps: seq<Step>): Sys
    decreases |steps|
  {
    if steps == [] then s else Next(Exec(s, steps[..|steps| - 1]), steps[|steps| - 1])
  }

  const INIT := Sys(map[], 0, map[], map[], map[])

  // ----- the invariant -----

  predicate Kinds(cs: seq<Condition>) {
    forall i, j :: 0 <= i < j < |cs| ==> cs[i].kind != cs[j].kind
  }

  predicate NotAhead(cs: seq<Condition>, generation: int) {
    forall i :: 0 <= i < |cs| ==> cs[i].observedGeneration <= generation
  }

  /** A success observed at the stored generation was reported by the operator's present work, which
      it has finished, on exactly the stored spec. */
  predicate SuccessBacked(s: Sys, name: string, r: Resource) {
    IsTrue(Latest(r), SUCCEEDED) ==>
      && name in s.seen && s.seen[name] == Snapshot(r.uid, r.generation, r.spec)
      && name in s.outputs && s.outputs[name].version == s.seen[name]
  }

  /** The operator's snapshot is an earlier version, or the stored one. */
  predicate SnapshotOk(s: Sys, name: string, r: Resource) {
    name in s.seen && s.seen[name].uid == r.uid ==>
      && s.seen[name].generation <= r.generation
      && (s.seen[name].generation == r.generation ==> s.seen[name].spec == r.spec)
  }

  /** The stored spec is what sending the last request once more would leave. */
  predicate Settled(spec: J.Fields, sent: J.Fields) {
    && J.Merge(spec, J.Diff(spec, sent)) == spec
    && J.NormFields(spec) == J.NormFields(sent)
  }

  predicate ResourceOk(s: Sys, name: string, r: Resource) {
    && r.uid < s.nextUid
    && Kinds(r.conditions) && NotAhead(r.conditions, r.generation)
    && SnapshotOk(s, name, r)
    && SuccessBacked(s, name, r)
    && (name in s.sent ==> Settled(r.spec, s.sent[name]))
  }

  predicate Inv(s: Sys) {
    && (forall name :: name in s.store ==> ResourceOk(s, name, s.store[name]))
    && (forall name :: name in s.sent ==> name in s.store)
    && (forall name :: name in s.seen ==> s.seen[name].uid < s.nextUid)
  }

  // ----- conditions -----

  lemma {:induction false} ObservedNone(cs: seq<Condition>, generation: int)
    requires forall i :: 0 <= i < |cs| ==> cs[i].observedGeneration < generation
    ensures Observed(cs, generation) == []
  {
    if cs != [] { ObservedNone(cs[1..], generation); }
  }

  lemma {:induction false} SetKeepsKinds(cs: seq<Condition>, c: Condition, generation: int)
    requires Kinds(cs) && NotAhead(cs, generation) && c.observedGeneration <= generation
    ensures Kinds(SetCondition(cs, c)) && NotAhead(SetCondition(cs, c), generation)
    ensures forall d :: d in SetCondition(cs, c) ==> d.kind == c.kind || d in cs
  {
    if cs != [] && cs[0].kind != c.kind {
      SetKeepsKinds(cs[1..], c, generation);
      var rest := SetCondition(cs[1..], c);
      forall d | d in rest ensures d.kind != cs[0].kind {
        if d.kind != c.kind { var i :| 0 <= i < |cs[1..]| && cs[1..][i] == d; }
      }
      assert forall j :: 0 < j < |[cs[0]] + rest| ==> ([cs[0]] + rest)[j] in rest;
    }
  }

  lemma {:induction false} ForgetKeepsKinds(cs: seq<Condition>, kind: string, generation: int)
    requires Kinds(cs) && NotAhead(cs, generation)
    ensures Kinds(WithoutCondition(cs, kind)) && NotAhead(WithoutCondition(cs, kind), generation)
    ensures forall d :: d in WithoutCondition(cs, kind) ==> d in cs
  {
    if cs != [] {
      ForgetKeepsKinds(cs[1..], kind, generation);
      var rest := WithoutCondition(cs[1..], kind);
      forall i | 0 <= i < |rest| ensures rest[i].kind != cs[0].kind {
        assert rest[i] in rest && rest[i] in cs[1..];
      }
    }
  }

  /** Among conditions of distinct kinds the filter is a test of the one condition found. */
  lemma {:induction false} ObservedTrue(cs: seq<Condition>, generation: int, kind: string)
    requires Kinds(cs)
    ensures IsTrue(Observed(cs, generation), kind) <==>
              IsTrue(cs, kind) && FindCondition(cs, kind).value.observedGeneration == generation
    ensures IsTrue(Observed(cs, generation), kind) ==>
              FindCondition(Observed(cs, generation), kind) == FindCondition(cs, kind)
  {
    if cs != [] {
      var rest := cs[1..];
      ObservedTrue(rest, generation, kind);
      if cs[0].observedGeneration == generation {
        assert Observed(cs, generation)[1..] == Observed(rest, generation);
      }
      if cs[0].kind == kind {
        NotFound(rest, kind);
        NotFoundObserved(rest, generation, kind);
      }
    }
  }

  lemma {:induction false} NotFound(cs: seq<Condition>, kind: string)
    requires forall i :: 0 <= i < |cs| ==> cs[i].kind != kind
    ensures FindCondition(cs, kind).None?
  {
    if cs != [] { NotFound(cs[1..], kind); }
  }

  lemma {:induction false} NotFoundObserved(cs: seq<Condition>, generation: int, kind: string)
    requires forall i :: 0 <= i < |cs| ==> cs[i].kind != kind
    ensures FindCondition(Observed(cs, generation), kind).None?
  {
    if FindCondition(Observed(cs, generation), kind).Some? {
      ObservedFound(cs, generation, kind);
      NotFound(cs, kind);
    }
  }

  lemma {:induction false} FindForgotten(cs: seq<Condition>, kind: string, other: string)
    ensures FindCondition(WithoutCondition(cs, kind), other) == if other == kind then None else FindCondition(cs, other)
  {
    if cs != [] {
      FindForgotten(cs[1..], kind, other);
      if cs[0].kind != kind {
        assert WithoutCondition(cs, kind)[1..] == WithoutCondition(cs[1..], kind);
      }
    }
  }

  // ----- each step keeps the invariant -----

  /** A resource whose name a step does not mention. */
  lemma Unaffected(s: Sys, s': Sys, n: string)
    requires n in s.store && n in s'.store && s.store[n] == s'.store[n] && ResourceOk(s, n, s.store[n])
    requires n in s.seen <==> n in s'.seen
    requires n in s.seen ==> s.seen[n] == s'.seen[n]
    requires n in s.outputs ==> n in s'.outputs && s.outputs[n] == s'.outputs[n]
    requires n in s'.sent ==> n in s.sent && s.sent[n] == s'.sent[n]
    requires s.nextUid <= s'.nextUid
    ensures ResourceOk(s', n, s'.store[n])
  {
  }

  lemma RewrittenKeeps(s: Sys, name: string, spec: J.Fields, sent: map<string, J.Fields>)
    requires Inv(s) && name in s.store
    requires name in sent ==> Settled(spec, sent[name])
    ensures ResourceOk(s.(sent := sent), name, Rewritten(s.store[name], spec))
  {
    var r := s.store[name];
    assert ResourceOk(s, name, r);
    if spec != r.spec {
      ObservedNone(r.conditions, r.generation + 1);
      assert Latest(Rewritten(r, spec)) == [];
    }
  }

  lemma SentResourceOk(s: Sys, name: string, spec: J.Fields)
    requires Inv(s)
    ensures var s' := Next(s, Send(name, spec)); ResourceOk(s', name, s'.store[name])
  {
    var s' := Next(s, Send(name, spec));
    if name in s.store {
      J.PatchAgain(s.store[name].spec, spec);
      J.MergeDiffIsModified(s.store[name].spec, spec);
      RewrittenKeeps(s, name, J.Merge(s.store[name].spec, J.Diff(s.store[name].spec, spec)), s'.sent);
    } else {
      J.MergeUnchanged(spec, spec);
    }
  }

  lemma SendKeeps(s: Sys, name: string, spec: J.Fields)
    requires Inv(s)
    ensures Inv(Next(s, Send(name, spec)))
  {
    var s' := Next(s, Send(name, spec));
    SentResourceOk(s, name, spec);
    forall n | n in s'.store && n != name ensures ResourceOk(s', n, s'.store[n]) {
      Unaffected(s, s', n);
    }
  }

  lemma WrittenResourceOk(s: Sys, name: string, spec: J.Fields)
    requires Inv(s) && name in s.store
    ensures var s' := Next(s, OthersWrite(name, spec)); ResourceOk(s', name, s'.store[name])
  {
    RewrittenKeeps(s, name, spec, s.sent - {name});
  }

  lemma OthersWriteKeeps(s: Sys, name: string, spec: J.Fields)
    requires Inv(s)
    ensures Inv(Next(s, OthersWrite(name, spec)))
  {
    if name in s.store {
      var s' := Next(s, OthersWrite(name, spec));
      WrittenResourceOk(s, name, spec);
      forall n | n in s'.store && n != name ensures ResourceOk(s', n, s'.store[n]) {
        Unaffected(s, s', n);
      }
    }
  }

  lemma RemovalKeeps(s: Sys, store: Resources, name: string)
    requires Inv(s) && store == s.store - {name}
    ensures Inv(AfterRemoval(s, store, name))
  {
    var s' := AfterRemoval(s, store, name);
    forall n | n in s'.store ensures ResourceOk(s', n, s'.store[n]) {
      Unaffected(s, s', n);
    }
  }

  lemma MarkedKeeps(s: Sys, name: string)
    requires Inv(s) && name in s.store && s.store[name].held && !s.store[name].deleting
    ensures Inv(Next(s, Remove(name)))
  {
    var r := s.store[name];
    var s' := Next(s, Remove(name));
    assert ResourceOk(s, name, r);
    ObservedNone(r.conditions, r.generation + 1);
    assert ResourceOk(s', name, s'.store[name]);
    forall n | n in s'.store && n != name ensures ResourceOk(s', n, s'.store[n]) {
      Unaffected(s, s', n);
    }
  }

  lemma RemoveKeeps(s: Sys, name: string)
    requires Inv(s)
    ensures Inv(Next(s, Remove(name)))
  {
    if name in s.store && s.store[name].held && !s.store[name].deleting {
      MarkedKeeps(s, name);
    } else if name in s.store && !s.store[name].held {
      RemovalKeeps(s, s.store - {name}, name);
    } else {
      assert s.sent - {name} == s.sent || name in s.store;
      assert Next(s, Remove(name)) == s;
    }
  }

  /** Replacing the conditions of one resource. */
  lemma ConditionsKeep(s: Sys, name: string, r: Resource)
    requires Inv(s) && name in s.store
    requires r == s.store[name].(conditions := r.conditions, operationType := r.operationType, held := r.held)
    requires Kinds(r.conditions) && NotAhead(r.conditions, r.generation) && SuccessBacked(s, name, r)
    ensures Inv(s.(store := s.store[name := r]))
  {
    var s' := s.(store := s.store[name := r]);
    forall n | n in s'.store ensures ResourceOk(s', n, s'.store[n]) {
      assert ResourceOk(s, n, s.store[n]);
    }
  }

  lemma ReportKeeps(s: Sys, step: Step)
    requires Inv(s) && step.OperatorReport?
    ensures Inv(Next(s, step))
  {
    var name := step.name;
    if MayReport(s, name, step.kind, step.status) {
      var r, seen := s.store[name], s.seen[name];
      assert ResourceOk(s, name, r);
      var c := Condition(step.kind, step.status, seen.generation, step.now, "", step.message);
      var r' := Reported(r, seen.generation, step);
      SetKeepsKinds(r.conditions, c, r.generation);
      SetThenFind(r.conditions, c, SUCCEEDED);
      ObservedTrue(r.conditions, r.generation, SUCCEEDED);
      ObservedTrue(r'.conditions, r.generation, SUCCEEDED);
      ConditionsKeep(s, name, r');
    }
  }

  lemma ForgetKeeps(s: Sys, name: string, kind: string)
    requires Inv(s)
    ensures Inv(Next(s, OperatorForget(name, kind)))
  {
    if WorksFor(s, name) {
      var r := s.store[name];
      assert ResourceOk(s, name, r);
      ForgetKeepsKinds(r.conditions, kind, r.generation);
      FindForgotten(r.conditions, kind, SUCCEEDED);
      var r' := r.(conditions := WithoutCondition(r.conditions, kind));
      ObservedTrue(r.conditions, r.generation, SUCCEEDED);
      ObservedTrue(r'.conditions, r.generation, SUCCEEDED);
      ConditionsKeep(s, name, r');
    }
  }

  lemma HeldKeeps(s: Sys, name: string, held: bool)
    requires Inv(s) && name in s.store
    ensures Inv(s.(store := s.store[name := s.store[name].(held := held)]))
  {
    assert ResourceOk(s, name, s.store[name]);
    ConditionsKeep(s, name, s.store[name].(held := held));
  }

  lemma ReadKeeps(s: Sys, name: string)
    requires Inv(s)
    ensures Inv(Next(s, OperatorRead(name)))
  {
    var s' := Next(s, OperatorRead(name));
    if name in s.store { assert ResourceOk(s, name, s.store[name]); }
    forall n | n in s'.store && n != name ensures ResourceOk(s', n, s'.store[n]) {
      Unaffected(s, s', n);
    }
  }

  lemma FinishKeeps(s: Sys, name: string, secret: Cr.SecretData)
    requires Inv(s)
    ensures Inv(Next(s, OperatorFinish(name, secret)))
  {
    var s' := Next(s, OperatorFinish(name, secret));
    if name in s.store { assert ResourceOk(s, name, s.store[name]); }
    forall n | n in s'.store && n != name ensures ResourceOk(s', n, s'.store[n]) {
      Unaffected(s, s', n);
    }
  }

  lemma NextKeepsInv(s: Sys, step: Step)
    requires Inv(s)
    ensures Inv(Next(s, step))
  {
    match step
    case Send(name, spec) => SendKeeps(s, name, spec);
    case Remove(name) => RemoveKeeps(s, name);
    case OthersWrite(name, spec) => OthersWriteKeeps(s, name, spec);
    case OperatorReport(_, _, _, _, _, _) => ReportKeeps(s, step);
    case OperatorForget(name, kind) => ForgetKeeps(s, name, kind);
    case OperatorHold(name) => if name in s.store && !s.store[name].deleting { HeldKeeps(s, name, true); }
    case OperatorRelease(name) =>
      if name in s.store {
        if s.store[name].deleting { RemovalKeeps(s, s.store - {name}, name); } else { HeldKeeps(s, name, false); }
      }
    case OperatorRead(name) => ReadKeeps(s, name);
    case OperatorFinish(name, secret) => FinishKeeps(s, name, secret);
  }

  lemma {:induction false} ExecKeepsInv(s: Sys, steps: seq<Step>)
    requires Inv(s)
    ensures Inv(Exec(s, steps))
    decreases |steps|
  {
    if steps != [] {
      ExecKeepsInv(s, steps[..|steps| - 1]);
      NextKeepsInv(Exec(s, steps[..|steps| - 1]), steps[|steps| - 1]);
    }
  }

  /** The invariant holds in every state of every run. */
  lemma ReachableInv(steps: seq<Step>)
    ensures Inv(Exec(INIT, steps))
  {
    ExecKeepsInv(INIT, steps);
  }
}
