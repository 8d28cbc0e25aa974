/** What the answers of the broker mean, over every run. */
module BrokerFacts {
  import opened Prelude
  import opened Types
  import opened Broker
  import opened BrokerRuns
  import J = Json
  import Cr = Credentials

  /** The state after a request and whatever follows it. */
  function After(steps: seq<Step>, request: Step, between: seq<Step>): Sys {
    Exec(Next(Exec(INIT, steps), request), between)
  }

  lemma AfterInv(steps: seq<Step>, request: Step, between: seq<Step>)
    ensures Inv(Exec(INIT, steps)) && Inv(Next(Exec(INIT, steps), request)) && Inv(After(steps, request, between))
  {
    ReachableInv(steps);
    NextKeepsInv(Exec(INIT, steps), request);
    ExecKeepsInv(Next(Exec(INIT, steps), request), between);
  }

  // ----- success -----

  predicate AnswersSucceeded(poll: Poll) {
    poll.Answer? && poll.operation.state == Succeeded
  }

  function Version(r: Resource): Snapshot {
    Snapshot(r.uid, r.generation, r.spec)
  }

  /** A create poll answers "succeeded" only if the operator has finished exactly the stored spec, at
      exactly the stored generation of exactly this resource. */
  lemma SucceededIsCurrent(steps: seq<Step>, name: string, fault: Option<string>)
    requires AnswersSucceeded(CreatePoll(Exec(INIT, steps).store, name, fault))
    ensures var s := Exec(INIT, steps);
            && name in s.store && name in s.outputs
            && s.outputs[name].version == Version(s.store[name])
  {
    ReachableInv(steps);
    var s := Exec(INIT, steps);
    assert ResourceOk(s, name, s.store[name]);
  }

  /** Sending the last request for a name once more changes nothing that is stored, so it never loses
      a success, and the next poll answers what the last one did. */
  lemma ResendKeepsEverything(steps: seq<Step>, name: string, fault: Option<string>)
    requires name in Exec(INIT, steps).sent
    ensures var s := Exec(INIT, steps);
            var s' := Next(s, Send(name, s.sent[name]));
            s' == s && CreatePoll(s'.store, name, fault) == CreatePoll(s.store, name, fault)
  {
    ReachableInv(steps);
    ResendChangesNothing(Exec(INIT, steps), name);
  }

  lemma ResendChangesNothing(s: Sys, name: string)
    requires Inv(s) && name in s.sent
    ensures Next(s, Send(name, s.sent[name])) == s
  {
    var r := s.store[name];
    assert ResourceOk(s, name, r);
    assert Settled(r.spec, s.sent[name]);
    assert Sent(s.store, name, s.sent[name], s.nextUid) == s.store[name := r] == s.store;
    assert s.sent[name := s.sent[name]] == s.sent;
  }

  predicate ReportsSuccess(step: Step, name: string) {
    step.OperatorReport? && step.name == name && step.kind == SUCCEEDED && step.status.True?
  }

  /** A success that is recorded for the name is one of an earlier version. */
  predicate SuccessIsOld(s: Sys, name: string) {
    name in s.store && IsTrue(s.store[name].conditions, SUCCEEDED) ==>
      FindCondition(s.store[name].conditions, SUCCEEDED).value.observedGeneration < s.store[name].generation
  }

  lemma SuccessStaysOld(s: Sys, name: string, step: Step)
    requires SuccessIsOld(s, name) && !ReportsSuccess(step, name)
    ensures SuccessIsOld(Next(s, step), name)
  {
    if name in s.store {
      var cs := s.store[name].conditions;
      match step
      case OperatorReport(_, kind, status, message, _, now) =>
        if name in s.seen {
          SetThenFind(cs, Condition(kind, status, s.seen[name].generation, now, "", message), SUCCEEDED);
        }
      case OperatorForget(_, kind) => FindForgotten(cs, kind, SUCCEEDED);
      case _ =>
    }
  }

  lemma {:induction false} SuccessStaysOldThrough(s: Sys, name: string, between: seq<Step>)
    requires SuccessIsOld(s, name) && forall i :: 0 <= i < |between| ==> !ReportsSuccess(between[i], name)
    ensures SuccessIsOld(Exec(s, between), name)
    decreases |between|
  {
    if between != [] {
      SuccessStaysOldThrough(s, name, between[..|between| - 1]);
      SuccessStaysOld(Exec(s, between[..|between| - 1]), name, between[|between| - 1]);
    }
  }

  lemma OldSuccessIsNoAnswer(s: Sys, name: string, fault: Option<string>)
    requires Inv(s) && SuccessIsOld(s, name)
    ensures !AnswersSucceeded(CreatePoll(s.store, name, fault))
  {
    if name in s.store {
      assert ResourceOk(s, name, s.store[name]);
      ObservedTrue(s.store[name].conditions, s.store[name].generation, SUCCEEDED);
    }
  }

  lemma ChangeMakesSuccessOld(s: Sys, name: string, spec: J.Fields)
    requires Inv(s) && name in s.store
    requires Next(s, Send(name, spec)).store[name].spec != s.store[name].spec
    ensures SuccessIsOld(Next(s, Send(name, spec)), name)
  {
    var r := s.store[name];
    assert ResourceOk(s, name, r);
    if IsTrue(r.conditions, SUCCEEDED) { FoundIsIn(r.conditions, SUCCEEDED); }
  }

  lemma {:induction false} FoundIsIn(cs: seq<Condition>, kind: string)
    requires FindCondition(cs, kind).Some?
    ensures exists i :: 0 <= i < |cs| && cs[i] == FindCondition(cs, kind).value
  {
    if cs[0].kind != kind {
      FoundIsIn(cs[1..], kind);
      var i :| 0 <= i < |cs[1..]| && cs[1..][i] == FindCondition(cs[1..], kind).value;
      assert cs[i + 1] == FindCondition(cs, kind).value;
    } else {
      assert cs[0] == FindCondition(cs, kind).value;
    }
  }

  /** A request that changes the stored spec loses an earlier success for good: whatever follows, be it
      further requests, deletions or recreations, no poll answers "succeeded" until the operator
      reports success for the name again. */
  lemma ChangeLosesSuccess(steps: seq<Step>, name: string, spec: J.Fields, between: seq<Step>, fault: Option<string>)
    requires name in Exec(INIT, steps).store
    requires Next(Exec(INIT, steps), Send(name, spec)).store[name].spec != Exec(INIT, steps).store[name].spec
    requires forall i :: 0 <= i < |between| ==> !ReportsSuccess(between[i], name)
    ensures !AnswersSucceeded(CreatePoll(After(steps, Send(name, spec), between).store, name, fault))
  {
    AfterInv(steps, Send(name, spec), between);
    ChangeMakesSuccessOld(Exec(INIT, steps), name, spec);
    SuccessStaysOldThrough(Next(Exec(INIT, steps), Send(name, spec)), name, between);
    OldSuccessIsNoAnswer(After(steps, Send(name, spec), between), name, fault);
  }

  /** A failure is described by the condition that reports it, not by an older one. */
  lemma FailureIsDescribedByItsOwnMessage(steps: seq<Step>, name: string)
    requires name in Exec(INIT, steps).store
    requires IsTrue(Latest(Exec(INIT, steps).store[name]), FAILED)
    ensures var r := Exec(INIT, steps).store[name];
            FailedDescription(r) == FindCondition(Latest(r), FAILED).value.message
  {
    ReachableInv(steps);
    var s := Exec(INIT, steps);
    assert ResourceOk(s, name, s.store[name]);
    ObservedTrue(s.store[name].conditions, s.store[name].generation, FAILED);
  }

  // ----- credentials -----

  /** Another request for the resource, or its end. */
  predicate Disturbs(step: Step, name: string) {
    match step
    case Send(n, _) => n == name
    case OthersWrite(n, _) => n == name
    case Remove(n) => n == name
    case OperatorRelease(n) => n == name
    case _ => false
  }

  ghost predicate Calm(between: seq<Step>, name: string) {
    forall i :: 0 <= i < |between| ==> !Disturbs(between[i], name)
  }

  lemma SentThen(s: Sys, name: string, step: Step)
    requires name in s.store && !Disturbs(step, name)
    ensures var s' := Next(s, step);
            && name in s'.store && Version(s'.store[name]) == Version(s.store[name])
            && (name in s.sent ==> name in s'.sent && s'.sent[name] == s.sent[name])
  {
  }

  lemma {:induction false} SentStays(s: Sys, name: string, between: seq<Step>)
    requires name in s.store && Calm(between, name)
    ensures var s' := Exec(s, between);
            && name in s'.store && Version(s'.store[name]) == Version(s.store[name])
            && (name in s.sent ==> name in s'.sent && s'.sent[name] == s.sent[name])
    decreases |between|
  {
    if between != [] {
      var before := between[..|between| - 1];
      SentStays(s, name, before);
      SentThen(Exec(s, before), name, between[|between| - 1]);
    }
  }

  /** Version `v` was the stored one at some moment of the run. */
  ghost predicate WasStored(s: Sys, between: seq<Step>, name: string, v: Snapshot) {
    exists k :: 0 <= k <= |between| && StoredAt(s, between, name, v, k)
  }

  predicate StoredAt(s: Sys, between: seq<Step>, name: string, v: Snapshot, k: nat)
    requires k <= |between|
  {
    var t := Exec(s, between[..k]);
    name in t.store && Version(t.store[name]) == v
  }

  lemma WasStoredLonger(s: Sys, before: seq<Step>, step: Step, name: string, v: Snapshot)
    requires WasStored(s, before, name, v)
    ensures WasStored(s, before + [step], name, v)
  {
    var k :| 0 <= k <= |before| && StoredAt(s, before, name, v, k);
    assert (before + [step])[..k] == before[..k];
    assert StoredAt(s, before + [step], name, v, k);
  }

  /** From a moment at which success was answered, the operator works on versions stored since then. */
  ghost predicate WorksOnRecent(s: Sys, between: seq<Step>, name: string, t: Sys) {
    && (name in t.seen ==> WasStored(s, between, name, t.seen[name]))
    && name in t.outputs && WasStored(s, between, name, t.outputs[name].version)
  }

  lemma {:induction false} WorkStaysRecent(s: Sys, between: seq<Step>, name: string)
    requires name in s.store && name in s.seen && s.seen[name] == Version(s.store[name])
    requires name in s.outputs && s.outputs[name].version == Version(s.store[name])
    ensures WorksOnRecent(s, between, name, Exec(s, between))
    decreases |between|
  {
    if between == [] {
      assert between[..0] == [];
      assert StoredAt(s, between, name, Version(s.store[name]), 0);
    } else {
      var before, step := between[..|between| - 1], between[|between| - 1];
      assert between == before + [step];
      WorkStaysRecent(s, before, name);
      RecentAfter(s, before, step, name);
    }
  }

  lemma OthersLeaveWork(t: Sys, step: Step, name: string)
    requires name in t.outputs
    requires !(step.OperatorRead? && step.name == name) && !(step.OperatorFinish? && step.name == name)
    ensures var t' := Next(t, step);
            && name in t'.outputs && t'.outputs[name] == t.outputs[name]
            && (name in t'.seen ==> name in t.seen && t'.seen[name] == t.seen[name])
  {
  }

  lemma StoredLast(s: Sys, before: seq<Step>, step: Step, name: string)
    requires name in Exec(s, before).store
    ensures WasStored(s, before + [step], name, Version(Exec(s, before).store[name]))
  {
    var between := before + [step];
    assert between[..|before|] == before;
    assert StoredAt(s, between, name, Version(Exec(s, before).store[name]), |before|);
  }

  lemma RecentAfter(s: Sys, before: seq<Step>, step: Step, name: string)
    requires WorksOnRecent(s, before, name, Exec(s, before))
    ensures WorksOnRecent(s, before + [step], name, Next(Exec(s, before), step))
  {
    var t := Exec(s, before);
    WasStoredLonger(s, before, step, name, t.outputs[name].version);
    if name in t.seen { WasStoredLonger(s, before, step, name, t.seen[name]); }
    if step.OperatorRead? && step.name == name {
      if name in t.store { StoredLast(s, before, step, name); }
    } else if !(step.OperatorFinish? && step.name == name) {
      OthersLeaveWork(t, step, name);
    }
  }

  /** The secrets in the cluster are those that the operator has produced. */
  function View(s: Sys): Visible {
    Visible(s.store, map n | n in s.outputs :: s.outputs[n].secret)
  }

  lemma CredentialsAreRecent(s: Sys, later: seq<Step>, name: string, c: Cr.Codec, f: BindFaults)
    requires Inv(s) && f.beforeSecret(View(s)) == View(Exec(s, later))
    requires var r := BindEnd(c, View(s), name, f).1; r.Ok? && r.value.credentials.Some?
    ensures var t := Exec(s, later);
            && name in s.store && name in t.outputs
            && Ok(BindEnd(c, View(s), name, f).1.value.credentials.value) == Cr.DecodeBinding(c, t.outputs[name].secret)
            && WasStored(s, later, name, t.outputs[name].version)
  {
    assert BINDING.create <= "bind-" + name;
    assert ResourceOk(s, name, s.store[name]);
    WorkStaysRecent(s, later, name);
  }

  lemma OnlyOneVersion(s: Sys, later: seq<Step>, name: string, v: Snapshot)
    requires name in s.store && Calm(later, name) && WasStored(s, later, name, v)
    ensures v == Version(s.store[name])
  {
    var k :| 0 <= k <= |later| && StoredAt(s, later, name, v, k);
    SentStays(s, name, later[..k]);
  }

  /** What Bind hands out, whatever happens between its write, its poll and its reading of the secret: the
      decoded secret that the operator produced for a version that was the stored one at some moment
      from the poll on. If nobody writes or deletes the binding between poll and reading, that is the
      version stored throughout; if nobody does before the poll either, its spec is the requested
      one, up to null members. */
  lemma BindHandsOutRecentCredentials(steps: seq<Step>, name: string, spec: J.Fields, between: seq<Step>, later: seq<Step>,
                                      c: Cr.Codec, f: BindFaults)
    requires f.beforeSecret(View(After(steps, Send(name, spec), between))) ==
             View(Exec(After(steps, Send(name, spec), between), later))
    requires var r := BindEnd(c, View(After(steps, Send(name, spec), between)), name, f).1;
             r.Ok? && r.value.credentials.Some?
    ensures var s := After(steps, Send(name, spec), between);
            var t := Exec(s, later);
            && name in s.store && name in t.outputs
            && Ok(BindEnd(c, View(s), name, f).1.value.credentials.value) == Cr.DecodeBinding(c, t.outputs[name].secret)
            && WasStored(s, later, name, t.outputs[name].version)
            && (Calm(later, name) ==>
                  && name in t.store && t.outputs[name].version == Version(t.store[name]) == Version(s.store[name]))
            && (Calm(between, name) && Calm(later, name) ==>
                  J.NormFields(t.outputs[name].version.spec) == J.NormFields(spec))
  {
    var s1 := Next(Exec(INIT, steps), Send(name, spec));
    var s := After(steps, Send(name, spec), between);
    AfterInv(steps, Send(name, spec), between);
    CredentialsAreRecent(s, later, name, c, f);
    if Calm(later, name) {
      OnlyOneVersion(s, later, name, Exec(s, later).outputs[name].version);
      SentStays(s, name, later);
    }
    if Calm(between, name) {
      SentStays(s1, name, between);
      assert ResourceOk(s, name, s.store[name]);
    }
  }

  // ----- credentials of the stored version -----

  /** A version that was finished is not ahead of the store; as long as it is the stored one, it is also
      the one that the operator works on and has finished last. */
  predicate Tracked(s: Sys, name: string, v: Snapshot) {
    && v.uid < s.nextUid
    && (name in s.store && s.store[name].uid == v.uid ==> v.generation <= s.store[name].generation)
    && (name in s.store && Version(s.store[name]) == v ==>
          name in s.seen && s.seen[name] == v && name in s.outputs && s.outputs[name].version == v)
  }

  /** The stored version is ahead of the tracked one, or gone: there is nothing left to keep. */
  lemma TrackedBehind(s: Sys, name: string, v: Snapshot)
    requires v.uid < s.nextUid
    requires name in s.store && s.store[name].uid == v.uid ==> v.generation < s.store[name].generation
    ensures Tracked(s, name, v)
  {
  }

  /** Writes of the name: a changed spec moves on, an unchanged one changes nothing. */
  lemma TrackedByWrite(s: Sys, s': Sys, name: string, v: Snapshot, spec: J.Fields)
    requires Tracked(s, name, v) && name in s.store
    requires s' == s.(store := s.store[name := Rewritten(s.store[name], spec)], sent := s'.sent)
    ensures Tracked(s', name, v)
  {
    if spec != s.store[name].spec { TrackedBehind(s', name, v); }
  }

  lemma TrackedByRequest(s: Sys, name: string, v: Snapshot, step: Step)
    requires Tracked(s, name, v) && (step.Send? || step.OthersWrite? || step.Remove?) && step.name == name
    ensures Tracked(Next(s, step), name, v)
  {
    var s' := Next(s, step);
    match step
    case Send(_, spec) =>
      if name in s.store {
        TrackedByWrite(s, s', name, v, J.Merge(s.store[name].spec, J.Diff(s.store[name].spec, spec)));
      } else {
        TrackedBehind(s', name, v);
      }
    case OthersWrite(_, spec) => if name in s.store { TrackedByWrite(s, s', name, v, spec); }
    case Remove(_) => if s'.store != s.store { TrackedBehind(s', name, v); }
  }

  lemma TrackedByWork(s: Sys, name: string, v: Snapshot, step: Step)
    requires Tracked(s, name, v) && (step.OperatorRead? || step.OperatorFinish?) && step.name == name
    ensures Tracked(Next(s, step), name, v)
  {
  }

  /** Nothing about the version or the work on it changes. */
  lemma TrackedStill(s: Sys, s': Sys, name: string, v: Snapshot)
    requires Tracked(s, name, v) && s.nextUid <= s'.nextUid
    requires name in s'.store ==> name in s.store && Version(s'.store[name]) == Version(s.store[name])
    requires name in s.seen ==> name in s'.seen && s'.seen[name] == s.seen[name]
    requires name in s.outputs ==> name in s'.outputs && s'.outputs[name] == s.outputs[name]
    ensures Tracked(s', name, v)
  {
  }

  predicate RequestOrWork(step: Step, name: string) {
    (step.Send? || step.OthersWrite? || step.Remove? || step.OperatorRead? || step.OperatorFinish?) && step.name == name
  }

  lemma OthersKeepVersion(s: Sys, name: string, step: Step)
    requires !RequestOrWork(step, name)
    ensures var s' := Next(s, step);
            && s.nextUid <= s'.nextUid
            && (name in s'.store ==> name in s.store && Version(s'.store[name]) == Version(s.store[name]))
            && (name in s.seen ==> name in s'.seen && s'.seen[name] == s.seen[name])
            && (name in s.outputs ==> name in s'.outputs && s'.outputs[name] == s.outputs[name])
  {
  }

  lemma StaysTracked(s: Sys, name: string, v: Snapshot, step: Step)
    requires Tracked(s, name, v)
    ensures Tracked(Next(s, step), name, v)
  {
    if !RequestOrWork(step, name) {
      OthersKeepVersion(s, name, step);
      TrackedStill(s, Next(s, step), name, v);
    } else if step.OperatorRead? || step.OperatorFinish? {
      TrackedByWork(s, name, v, step);
    } else {
      TrackedByRequest(s, name, v, step);
    }
  }

  lemma {:induction false} StaysTrackedThrough(s: Sys, name: string, v: Snapshot, later: seq<Step>)
    requires Tracked(s, name, v)
    ensures Tracked(Exec(s, later), name, v)
    decreases |later|
  {
    if later != [] {
      var before := later[..|later| - 1];
      StaysTrackedThrough(s, name, v, before);
      StaysTracked(Exec(s, before), name, v, later[|later| - 1]);
    }
  }

  /** Step `k` of the run finishes the work on version `v`. */
  predicate Finishes(s: Sys, later: seq<Step>, name: string, v: Snapshot, k: nat)
    requires k < |later|
  {
    && later[k].OperatorFinish? && later[k].name == name
    && (var t := Exec(s, later[..k]); name in t.seen && t.seen[name] == v)
  }

  ghost predicate Finished(s: Sys, later: seq<Step>, name: string, v: Snapshot) {
    exists k: nat :: k < |later| && Finishes(s, later, name, v, k)
  }

  lemma FinishedLonger(s: Sys, before: seq<Step>, step: Step, name: string, v: Snapshot)
    requires Finished(s, before, name, v)
    ensures Finished(s, before + [step], name, v)
  {
    var k: nat :| k < |before| && Finishes(s, before, name, v, k);
    assert (before + [step])[..k] == before[..k];
    assert Finishes(s, before + [step], name, v, k);
  }

  /** The last finished version is that of the start, or was finished on the way. */
  lemma {:induction false} OutputIsFinished(s: Sys, later: seq<Step>, name: string)
    requires name in s.outputs
    ensures var t := Exec(s, later);
            name in t.outputs &&
            (t.outputs[name].version == s.outputs[name].version || Finished(s, later, name, t.outputs[name].version))
    decreases |later|
  {
    if later != [] {
      var before, step := later[..|later| - 1], later[|later| - 1];
      assert later == before + [step];
      OutputIsFinished(s, before, name);
      var t := Exec(s, before);
      if step.OperatorFinish? && step.name == name && name in t.seen {
        assert later[..|before|] == before;
        assert Finishes(s, later, name, t.seen[name], |before|);
      } else {
        OutputUnchanged(t, step, name);
        if Finished(s, before, name, t.outputs[name].version) { FinishedLonger(s, before, step, name, t.outputs[name].version); }
      }
    }
  }

  lemma OutputUnchanged(t: Sys, step: Step, name: string)
    requires name in t.outputs && !(step.OperatorFinish? && step.name == name && name in t.seen)
    ensures name in Next(t, step).outputs && Next(t, step).outputs[name] == t.outputs[name]
  {
  }

  lemma FinishTracks(t: Sys, name: string, secret: Cr.SecretData)
    requires Inv(t) && name in t.seen
    ensures Tracked(Next(t, OperatorFinish(name, secret)), name, t.seen[name])
  {
    if name in t.store { assert ResourceOk(t, name, t.store[name]); }
  }

  lemma FinishedIsTracked(s: Sys, later: seq<Step>, name: string, v: Snapshot)
    requires Inv(s) && Finished(s, later, name, v)
    ensures Tracked(Exec(s, later), name, v)
  {
    var k: nat :| k < |later| && Finishes(s, later, name, v, k);
    var t := Exec(s, later[..k]);
    ExecKeepsInv(s, later[..k]);
    FinishTracks(t, name, later[k].secret);
    StaysTrackedThrough(Next(t, later[k]), name, v, later[k + 1..]);
    ExecFrom(s, later, k);
  }

  lemma {:induction false} ExecFrom(s: Sys, steps: seq<Step>, k: nat)
    requires k < |steps|
    ensures Exec(Next(Exec(s, steps[..k]), steps[k]), steps[k + 1..]) == Exec(s, steps)
    decreases |steps|
  {
    var most := steps[..|steps| - 1];
    if k == |steps| - 1 {
      assert steps[k + 1..] == [];
    } else {
      assert most[..k] == steps[..k] && most[k + 1..] == steps[k + 1..][..|steps[k + 1..]| - 1];
      ExecFrom(s, most, k);
    }
  }

  lemma OutputIsStoredIff(s: Sys, later: seq<Step>, name: string)
    requires Inv(s) && name in s.store && AnswersSucceeded(CreatePoll(s.store, name, None))
    ensures var t := Exec(s, later);
            && name in s.outputs && name in t.outputs
            && (name in t.store ==>
                  (t.outputs[name].version == Version(t.store[name]) <==>
                     || Version(t.store[name]) == Version(s.store[name])
                     || Finished(s, later, name, Version(t.store[name]))))
  {
    var t := Exec(s, later);
    assert ResourceOk(s, name, s.store[name]);
    OutputIsFinished(s, later, name);
    StaysTrackedThrough(s, name, Version(s.store[name]), later);
    if name in t.store && Finished(s, later, name, Version(t.store[name])) {
      FinishedIsTracked(s, later, name, Version(t.store[name]));
    }
  }

  lemma HandedOutIsStoredIff(s: Sys, later: seq<Step>, name: string, c: Cr.Codec, f: BindFaults)
    requires Inv(s) && f.beforeSecret(View(s)) == View(Exec(s, later))
    requires var r := BindEnd(c, View(s), name, f).1; r.Ok? && r.value.credentials.Some?
    ensures var t := Exec(s, later);
            && name in s.store && name in t.outputs
            && Ok(BindEnd(c, View(s), name, f).1.value.credentials.value) == Cr.DecodeBinding(c, t.outputs[name].secret)
            && (name in t.store ==>
                  (t.outputs[name].version == Version(t.store[name]) <==>
                     || Version(t.store[name]) == Version(s.store[name])
                     || Finished(s, later, name, Version(t.store[name]))))
  {
    CredentialsAreRecent(s, later, name, c, f);
    assert BINDING.create <= "bind-" + name;
    OutputIsStoredIff(s, later, name);
  }

  /** "Bind hands out credentials of the stored spec" holds, for a binding that still is stored when the
      secret is read, exactly if the version then stored is the one that was polled, or the operator
      has finished it since. */
  lemma CredentialsAreStoredIff(steps: seq<Step>, name: string, spec: J.Fields, between: seq<Step>, later: seq<Step>,
                                c: Cr.Codec, f: BindFaults)
    requires f.beforeSecret(View(After(steps, Send(name, spec), between))) ==
             View(Exec(After(steps, Send(name, spec), between), later))
    requires var r := BindEnd(c, View(After(steps, Send(name, spec), between)), name, f).1;
             r.Ok? && r.value.credentials.Some?
    requires name in Exec(After(steps, Send(name, spec), between), later).store
    ensures var s := After(steps, Send(name, spec), between);
            var t := Exec(s, later);
            && name in s.store && name in t.outputs
            && Ok(BindEnd(c, View(s), name, f).1.value.credentials.value) == Cr.DecodeBinding(c, t.outputs[name].secret)
            && (t.outputs[name].version == Version(t.store[name]) <==>
                  || Version(t.store[name]) == Version(s.store[name])
                  || Finished(s, later, name, Version(t.store[name])))
  {
    AfterInv(steps, Send(name, spec), between);
    HandedOutIsStoredIff(After(steps, Send(name, spec), between), later, name, c, f);
  }

  // ----- a run in which they are not -----

  /** A binding is requested and worked off. */
  function Bound(name: string, spec: J.Fields, secret: Cr.SecretData): seq<Step> {
    [Send(name, spec), OperatorRead(name), OperatorFinish(name, secret),
     OperatorReport(name, SUCCEEDED, True, "", "create", 0)]
  }

  function BoundSys(name: string, spec: J.Fields, secret: Cr.SecretData): Sys {
    var v := Snapshot(0, 1, spec);
    var r := Resource(0, 1, false, false, spec, [Condition(SUCCEEDED, True, 1, 0, "", "")], "create");
    Sys(map[name := r], 1, map[name := v], map[name := Output(v, secret)], map[name := spec])
  }

  lemma ExecNext(s: Sys, steps: seq<Step>, step: Step)
    ensures Exec(s, steps + [step]) == Next(Exec(s, steps), step)
  {
    assert (steps + [step])[..|steps|] == steps;
  }

  lemma BoundWorks(name: string, spec: J.Fields, secret: Cr.SecretData)
    ensures var v := Snapshot(0, 1, spec);
            var s := Next(Next(Next(INIT, Send(name, spec)), OperatorRead(name)), OperatorFinish(name, secret));
            s == Sys(map[name := Resource(0, 1, false, false, spec, [], "")], 1, map[name := v],
                     map[name := Output(v, secret)], map[name := spec])
  {
  }

  lemma BoundReported(name: string, spec: J.Fields, secret: Cr.SecretData)
    ensures var v := Snapshot(0, 1, spec);
            var s := Sys(map[name := Resource(0, 1, false, false, spec, [], "")], 1, map[name := v],
                         map[name := Output(v, secret)], map[name := spec]);
            Next(s, OperatorReport(name, SUCCEEDED, True, "", "create", 0)) == BoundSys(name, spec, secret)
  {
  }

  lemma BoundRuns(name: string, spec: J.Fields, secret: Cr.SecretData)
    ensures Exec(INIT, Bound(name, spec, secret)) == BoundSys(name, spec, secret)
    ensures AnswersSucceeded(CreatePoll(BoundSys(name, spec, secret).store, name, None))
  {
    var a, b, c, d := Send(name, spec), OperatorRead(name), OperatorFinish(name, secret),
      OperatorReport(name, SUCCEEDED, True, "", "create", 0);
    ExecNext(INIT, [], a);
    ExecNext(INIT, [a], b);
    ExecNext(INIT, [a, b], c);
    ExecNext(INIT, [a, b, c], d);
    assert [] + [a] == [a] && [a] + [b] == [a, b] && [a, b] + [c] == [a, b, c];
    assert [a, b, c] + [d] == Bound(name, spec, secret);
    BoundWorks(name, spec, secret);
    BoundReported(name, spec, secret);
    BoundAnswers(name, spec, secret);
  }

  lemma BoundAnswers(name: string, spec: J.Fields, secret: Cr.SecretData)
    ensures AnswersSucceeded(CreatePoll(BoundSys(name, spec, secret).store, name, None))
  {
    var r := BoundSys(name, spec, secret).store[name];
    assert r.conditions[1..] == [] && Observed(r.conditions[1..], 1) == [];
    assert Latest(r) == [r.conditions[0]];
  }

  /** The binding is requested again, Bind polls "succeeded", somebody changes the spec, and Bind reads the
      secret of the spec that is no longer stored. */
  lemma BindHandsOutOldCredentials(name: string, spec: J.Fields, other: J.Fields, secret: Cr.SecretData,
                                   c: Cr.Codec, f: BindFaults)
    requires J.Merge(spec, J.Diff(spec, other)) != spec
    requires f.poll.None? && f.secret.None? && Cr.DecodeBinding(c, secret).Ok?
    requires f.beforeSecret(View(BoundSys(name, spec, secret))) ==
             View(Next(BoundSys(name, spec, secret), Send(name, other)))
    ensures var s := After(Bound(name, spec, secret), Send(name, spec), []);
            var t := Exec(s, [Send(name, other)]);
            && s == BoundSys(name, spec, secret)
            && BindEnd(c, View(s), name, f).1 == Ok(Binding(Some(Cr.DecodeBinding(c, secret).value), false, "bind-" + name))
            && name in t.store && name in t.outputs && t.outputs[name].secret == secret
            && t.outputs[name].version != Version(t.store[name])
  {
    var s, t := BoundSys(name, spec, secret), Next(BoundSys(name, spec, secret), Send(name, other));
    BoundRuns(name, spec, secret);
    BoundAgain(name, spec, secret);
    ExecNext(s, [], Send(name, other));
    assert [] + [Send(name, other)] == [Send(name, other)];
    BoundHandsOut(name, spec, secret, t, c, f);
    BoundChanged(name, spec, other, secret);
  }

  lemma BoundAgain(name: string, spec: J.Fields, secret: Cr.SecretData)
    ensures After(Bound(name, spec, secret), Send(name, spec), []) == BoundSys(name, spec, secret)
  {
    BoundRuns(name, spec, secret);
    ReachableInv(Bound(name, spec, secret));
    ResendChangesNothing(BoundSys(name, spec, secret), name);
  }

  lemma BoundHandsOut(name: string, spec: J.Fields, secret: Cr.SecretData, t: Sys, c: Cr.Codec, f: BindFaults)
    requires f.poll.None? && f.secret.None? && Cr.DecodeBinding(c, secret).Ok?
    requires f.beforeSecret(View(BoundSys(name, spec, secret))) == View(t) && name in t.outputs && t.outputs[name].secret == secret
    ensures BindEnd(c, View(BoundSys(name, spec, secret)), name, f).1 ==
            Ok(Binding(Some(Cr.DecodeBinding(c, secret).value), false, "bind-" + name))
  {
    BoundAnswers(name, spec, secret);
    assert BINDING.create <= "bind-" + name;
  }

  lemma BoundChanged(name: string, spec: J.Fields, other: J.Fields, secret: Cr.SecretData)
    requires J.Merge(spec, J.Diff(spec, other)) != spec
    ensures var t := Next(BoundSys(name, spec, secret), Send(name, other));
            && name in t.store && name in t.outputs && t.outputs[name].secret == secret
            && t.outputs[name].version != Version(t.store[name])
  {
  }

  // ----- the answers a platform may see -----

  predicate ReportedTrue(r: Resource, kind: string) {
    var c := FindCondition(r.conditions, kind);
    c.Some? && c.value.status.True? && c.value.observedGeneration == r.generation
  }

  predicate Reports(step: Step, name: string) {
    step.OperatorReport? && step.name == name
  }

  /** The resource is deleted, or let go. */
  predicate Ends(step: Step, name: string) {
    (step.Remove? && step.name == name) || (step.OperatorRelease? && step.name == name)
  }

  const STATELESS := Answer(LastOperation(NoState, ""))

  predicate Unreported(s: Sys, name: string) {
    name in s.store && s.store[name].conditions == [] && s.store[name].operationType == ""
  }

  lemma StaysUnreported(s: Sys, name: string, step: Step)
    requires Unreported(s, name) && !Reports(step, name) && !Ends(step, name)
    ensures Unreported(Next(s, step), name)
  {
  }

  /** So every poll after a request for a new name has no state, whatever else goes on, until the operator's
      first report about it or its end. */
  lemma {:induction false} FirstPollsHaveNoState(s: Sys, name: string, spec: J.Fields, between: seq<Step>)
    requires name !in s.store
    requires forall i :: 0 <= i < |between| ==> !Reports(between[i], name) && !Ends(between[i], name)
    ensures var s' := Exec(Next(s, Send(name, spec)), between);
            Unreported(s', name) && CreatePoll(s'.store, name, None) == STATELESS
    decreases |between|
  {
    if between != [] {
      FirstPollsHaveNoState(s, name, spec, between[..|between| - 1]);
      StaysUnreported(Exec(Next(s, Send(name, spec)), between[..|between| - 1]), name, between[|between| - 1]);
    }
  }

  // ----- deletion -----

  predicate Doomed(s: Sys, name: string, uid: nat) {
    name in s.store && s.store[name].uid == uid && s.store[name].deleting && s.store[name].held
  }

  lemma StaysDoomed(s: Sys, name: string, uid: nat, step: Step)
    requires Doomed(s, name, uid) && step != OperatorRelease(name)
    ensures Doomed(Next(s, step), name, uid)
  {
  }

  lemma {:induction false} StaysDoomedThrough(s: Sys, name: string, uid: nat, between: seq<Step>)
    requires Doomed(s, name, uid) && OperatorRelease(name) !in between
    ensures Doomed(Exec(s, between), name, uid)
    decreases |between|
  {
    if between != [] {
      var before := between[..|between| - 1];
      assert between == before + [between[|between| - 1]];
      StaysDoomedThrough(s, name, uid, before);
      StaysDoomed(Exec(s, before), name, uid, between[|between| - 1]);
    }
  }

  /** A held resource that is removed stays the stored one, and no delete poll answers "succeeded", until the
      operator lets it go; then it is gone and the next delete poll says so. */
  lemma DeletedMeansReleased(steps: seq<Step>, name: string, between: seq<Step>, fault: Option<string>)
    requires name in Exec(INIT, steps).store && Exec(INIT, steps).store[name].held
    requires OperatorRelease(name) !in between
    ensures var s := After(steps, Remove(name), between);
            && name in s.store && s.store[name].uid == Exec(INIT, steps).store[name].uid
            && !AnswersSucceeded(RemovePoll(s.store, name, fault))
            && RemovePoll(Next(s, OperatorRelease(name)).store, name, None) == Answer(LastOperation(Succeeded, ""))
  {
    StaysDoomedThrough(Next(Exec(INIT, steps), Remove(name)), name, Exec(INIT, steps).store[name].uid, between);
  }

  /** Marked and held, and the operator has reported nothing about it since. */
  predicate Unanswered(r: Resource) {
    && r.deleting && r.held && r.operationType != "delete"
    && NotAhead(r.conditions, r.generation - 1)
  }

  predicate NotYetDeleting(s: Sys, name: string) {
    name in s.store && Unanswered(s.store[name])
  }

  lemma RewrittenUnanswered(r: Resource, spec: J.Fields)
    requires Unanswered(r)
    ensures Unanswered(Rewritten(r, spec))
  {
  }

  lemma ForgottenUnanswered(r: Resource, kind: string)
    requires Unanswered(r) && Kinds(r.conditions)
    ensures Unanswered(r.(conditions := WithoutCondition(r.conditions, kind)))
  {
    ForgetKeepsKinds(r.conditions, kind, r.generation - 1);
  }

  /** A write of the resource, or of its conditions. */
  predicate Writes(step: Step, name: string) {
    || (step.Send? && step.name == name) || (step.OthersWrite? && step.name == name)
    || (step.OperatorForget? && step.name == name)
  }

  lemma OthersLeaveMarked(s: Sys, name: string, step: Step)
    requires name in s.store && s.store[name].deleting && s.store[name].held
    requires !Writes(step, name) && !Reports(step, name) && step != OperatorRelease(name)
    ensures name in Next(s, step).store && Next(s, step).store[name] == s.store[name]
  {
  }

  lemma WritesLeaveUnanswered(s: Sys, name: string, step: Step)
    requires name in s.store && Unanswered(s.store[name]) && Kinds(s.store[name].conditions) && Writes(step, name)
    ensures NotYetDeleting(Next(s, step), name)
  {
    var r := s.store[name];
    match step
    case Send(_, spec) => RewrittenUnanswered(r, J.Merge(r.spec, J.Diff(r.spec, spec)));
    case OthersWrite(_, spec) => RewrittenUnanswered(r, spec);
    case OperatorForget(_, kind) => ForgottenUnanswered(r, kind);
  }

  lemma StaysNotYetDeleting(s: Sys, name: string, step: Step)
    requires Inv(s) && NotYetDeleting(s, name) && !Reports(step, name) && step != OperatorRelease(name)
    ensures NotYetDeleting(Next(s, step), name)
  {
    assert ResourceOk(s, name, s.store[name]);
    if Writes(step, name) { WritesLeaveUnanswered(s, name, step); } else { OthersLeaveMarked(s, name, step); }
  }

  lemma {:induction false} StaysNotYetDeletingThrough(s: Sys, name: string, between: seq<Step>)
    requires Inv(s) && NotYetDeleting(s, name) && OperatorRelease(name) !in between
    requires forall i :: 0 <= i < |between| ==> !Reports(between[i], name)
    ensures NotYetDeleting(Exec(s, between), name)
    decreases |between|
  {
    if between != [] {
      var before := between[..|between| - 1];
      assert between == before + [between[|between| - 1]];
      StaysNotYetDeletingThrough(s, name, before);
      ExecKeepsInv(s, before);
      StaysNotYetDeleting(Exec(s, before), name, between[|between| - 1]);
    }
  }

  lemma RemovalIsNotYetReported(s: Sys, name: string)
    requires Inv(s) && name in s.store
    requires s.store[name].held && !s.store[name].deleting && s.store[name].operationType != "delete"
    ensures NotYetDeleting(Next(s, Remove(name)), name)
  {
    assert ResourceOk(s, name, s.store[name]);
  }

  /** Nor has any delete poll a state after the removal of a held resource, until the operator's first report
      about it. */
  lemma FirstDeletePollsHaveNoState(steps: seq<Step>, name: string, between: seq<Step>)
    requires name in Exec(INIT, steps).store
    requires var r := Exec(INIT, steps).store[name]; r.held && !r.deleting && r.operationType != "delete"
    requires OperatorRelease(name) !in between && forall i :: 0 <= i < |between| ==> !Reports(between[i], name)
    ensures RemovePoll(After(steps, Remove(name), between).store, name, None) == STATELESS
  {
    AfterInv(steps, Remove(name), between);
    RemovalIsNotYetReported(Exec(INIT, steps), name);
    var s := After(steps, Remove(name), between);
    StaysNotYetDeletingThrough(Next(Exec(INIT, steps), Remove(name)), name, between);
    ObservedNone(s.store[name].conditions, s.store[name].generation);
  }
}
