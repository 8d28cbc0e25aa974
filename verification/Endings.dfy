/**
 How one reconcile of the CFAPI object ends: which state, conditions, URL, finalizers and request to come
 back each answer of the installables leads to, in terms of what was answered.
 */
module Endings {
  import opened Prelude
  import opened Types
  import opened Cluster
  import opened Installables
  import opened Controller
  import opened ControllerFacts
  import opened CompileFacts
  import opened InstallableAnswers
  import R = Reconcile

  // ----- the aggregate -----

  predicate Any(rs: seq<Report>, s: ResultState) {
    exists i :: 0 <= i < |rs| && rs[i].state == s
  }

  predicate FirstOfState(rs: seq<Report>, s: ResultState, r: Report) {
    exists i :: 0 <= i < |rs| && rs[i] == r && r.state == s && forall j :: 0 <= j < i ==> rs[j].state != s
  }

  /** One failure makes the aggregate a failure; otherwise one result in progress makes it in progress. It is the
      first result of its state. */
  lemma AggregateByState(rs: seq<Report>)
    requires rs != []
    ensures var a := Aggregate(rs);
            && (a.state.Failed? <==> Any(rs, Failed))
            && (a.state.InProgress? <==> !Any(rs, Failed) && Any(rs, InProgress))
            && (a.state.Success? <==> !Any(rs, Failed) && !Any(rs, InProgress))
            && FirstOfState(rs, a.state, a)
  {
    var i := AggregateIsEarliestWorst(rs);
    forall j | 0 <= j < |rs| ensures rs[j].state.Failed? ==> rs[i].state.Failed? { }
    assert rs[i].state == Aggregate(rs).state;
  }

  // ----- what the body writes -----

  /** The condition is the one now found for its kind; its transition time is the earlier one's if the status
      value stays. */
  predicate Wrote(before: seq<Condition>, after: seq<Condition>, c: Condition) {
    FindCondition(after, c.kind) ==
    Some(match FindCondition(before, c.kind)
         case None => c
         case Some(e) => if e.status == c.status then c.(transition := e.transition) else c)
  }

  ghost predicate OthersStay(before: seq<Condition>, after: seq<Condition>, kinds: set<string>) {
    forall k :: k !in kinds ==> FindCondition(after, k) == FindCondition(before, k)
  }

  /** Nothing but finalizers and status is touched, and the status observes the generation. */
  predicate SameButStatus(o: Object, end: Object) {
    && end == o.(finalizers := end.finalizers, status := end.status)
    && end.status.observedGeneration == o.generation
  }

  /** Ours is on, and of the others none is added, lost or moved. */
  predicate OursOn(o: Object, end: Object) {
    end.finalizers == if FINALIZER in o.finalizers then o.finalizers else o.finalizers + [FINALIZER]
  }

  lemma WroteOne(cs: seq<Condition>, c: Condition)
    ensures Wrote(cs, SetCondition(cs, c), c) && OthersStay(cs, SetCondition(cs, c), {c.kind})
  {
    forall k { SetThenFind(cs, c, k); }
  }

  lemma WroteTwo(cs: seq<Condition>, c: Condition, d: Condition)
    requires c.kind != d.kind
    ensures var after := SetCondition(SetCondition(cs, c), d);
            Wrote(cs, after, c) && Wrote(cs, after, d) && OthersStay(cs, after, {c.kind, d.kind})
  {
    WroteOne(cs, c);
    WroteOne(SetCondition(cs, c), d);
  }

  // ----- a spec that does not compile -----

  /** State Warning, with the first obstacle as the message; nothing is installed and nothing else is said. */
  lemma RejectedEnding(p: Params, o: Object, w: World, l: Lookups, now: int, faults: nat -> Faults)
    requires ValidOrder(p.installOrder) && !o.deleting && First(Obstacles(o.spec, l)).Some?
    ensures var end := Body(p, o, w, l, now, faults);
            var m := First(Obstacles(o.spec, l)).value;
            var before, after := o.status, end.obj.status;
            && SameButStatus(o, end.obj) && OursOn(o, end.obj)
            && after.state == Warning && after.url == before.url && after.config == before.config
            && Wrote(before.conditions, after.conditions,
                     Condition("Configuration", False, o.generation, now, "InvalidConfiguration", m))
            && OthersStay(before.conditions, after.conditions, {"Configuration"})
            && end.world == w
            && R.Mapped(end.result, end.error) == (CtrlResult(false, p.interval), None)
  {
    CompileFailsIff(o.spec, l);
    var m := First(Obstacles(o.spec, l)).value;
    WroteOne(o.status.conditions, Condition("Configuration", False, o.generation, now, "InvalidConfiguration", m));
  }

  // ----- an install pass -----

  ghost predicate AllAnswer(order: seq<Installable>, config: Config, w: World, faults: nat -> Faults)
    requires ValidOrder(order)
  {
    forall i :: 0 <= i < |order| ==> AnswerAt(order, config, w, faults, i).Done?
  }

  function Answers(order: seq<Installable>, config: Config, w: World, faults: nat -> Faults): seq<Report>
    requires ValidOrder(order)
  {
    seq(|order|, i requires 0 <= i < |order| =>
      match AnswerAt(order, config, w, faults, i)
      case Done(r) => r
      case Errored(m) => Report(Failed, m))
  }

  /** A component that returns an error ends the reconcile with it: the state stays Processing, the configuration
      is accepted, and nothing is said about the installation. */
  lemma BrokenEnding(p: Params, o: Object, w: World, l: Lookups, now: int, faults: nat -> Faults, config: Config, n: nat)
    requires ValidOrder(p.installOrder) && !o.deleting && Compile(o.spec, l) == Ok(config)
    requires n < |p.installOrder| && FirstError(p.installOrder, config, w, faults, n)
    ensures var end := Body(p, o, w, l, now, faults);
            var before, after := o.status, end.obj.status;
            && SameButStatus(o, end.obj) && OursOn(o, end.obj)
            && after.state == Processing && after.url == before.url && after.config == config
            && Wrote(before.conditions, after.conditions,
                     Condition("Configuration", True, o.generation, now, "ValidConiguration", ""))
            && OthersStay(before.conditions, after.conditions, {"Configuration"})
            && end.world == WorldAfter(p.installOrder, config, w, faults, n + 1)
            && R.Mapped(end.result, end.error) ==
               (CtrlResult(false, 0), Some(AnswerAt(p.installOrder, config, w, faults, n).message))
  {
    var k := InstallPassIsPrefix(p.installOrder, config, w, faults);
    FirstErrorOnce(p.installOrder, config, w, faults, n, k);
    WroteOne(o.status.conditions, Condition("Configuration", True, o.generation, now, "ValidConiguration", ""));
  }

  lemma FirstErrorOnce(order: seq<Installable>, config: Config, w: World, faults: nat -> Faults, n: nat, k: nat)
    requires forall inst :: inst in order ==> CanInstall(inst)
    requires FirstError(order, config, w, faults, n) && FirstError(order, config, w, faults, k)
    ensures n == k
  {
  }

  /** What the status says after a pass in which every component answered. */
  predicate Concludes(o: Object, end: BodyEnd, state: State, url: string, now: int, truth: Truth, reason: string,
                      message: string, result: CtrlResult) {
    && end.obj.status.state == state && end.obj.status.url == url
    && Wrote(o.status.conditions, end.obj.status.conditions,
             Condition("Installation", truth, o.generation, now, reason, message))
    && R.Mapped(end.result, end.error) == (result, None)
  }

  lemma InstallPassAnswers(p: Params, o: Object, w: World, l: Lookups, now: int, faults: nat -> Faults, config: Config)
    requires ValidOrder(p.installOrder) && !o.deleting && Compile(o.spec, l) == Ok(config)
    requires AllAnswer(p.installOrder, config, w, faults)
    ensures var rs := Answers(p.installOrder, config, w, faults);
            && rs != []
            && Body(p, o, w, l, now, faults) ==
               BodyEnd(ApplyInstallResult(Accepted(Begin(o), config, now), Aggregate(rs), now),
                       WorldAfter(p.installOrder, config, w, faults, |p.installOrder|),
                       InstallRequeue(Aggregate(rs), p.interval), NoError)
  {
    var n := InstallPassIsPrefix(p.installOrder, config, w, faults);
    if n < |p.installOrder| {
      assert false;
    } else {
      assert InstallFrom(p.installOrder, config, w, faults, []).1.value == Answers(p.installOrder, config, w, faults);
    }
  }

  lemma ConditionsOfPass(o: Object, config: Config, r: Report, now: int)
    ensures var end := ApplyInstallResult(Accepted(Begin(o), config, now), r, now);
            && SameButStatus(o, end) && OursOn(o, end) && end.status.config == config
            && Wrote(o.status.conditions, end.status.conditions,
                     Condition("Configuration", True, o.generation, now, "ValidConiguration", ""))
            && OthersStay(o.status.conditions, end.status.conditions, {"Configuration", "Installation"})
            && Wrote(o.status.conditions, end.status.conditions,
                     match r.state
                     case Success => Condition("Installation", True, o.generation, now, "InstallationSuccess", "")
                     case Failed => Condition("Installation", False, o.generation, now, "InstallationFailed", r.message)
                     case InProgress => Condition("Installation", Unknown, o.generation, now, "InstallationInProgress", r.message))
  {
    var c := Condition("Configuration", True, o.generation, now, "ValidConiguration", "");
    match r.state
    case Success => WroteTwo(o.status.conditions, c, Condition("Installation", True, o.generation, now, "InstallationSuccess", ""));
    case Failed => WroteTwo(o.status.conditions, c, Condition("Installation", False, o.generation, now, "InstallationFailed", r.message));
    case InProgress =>
      WroteTwo(o.status.conditions, c, Condition("Installation", Unknown, o.generation, now, "InstallationInProgress", r.message));
  }

  /** If every component answers, one failure ends the reconcile in Error, else one in progress in Processing, else
      it ends Ready under the domain that was looked up; each with the message of the first such component. Only
      Processing asks to come back. */
  lemma InstallEndings(p: Params, o: Object, w: World, l: Lookups, now: int, faults: nat -> Faults, config: Config)
    requires ValidOrder(p.installOrder) && !o.deleting && Compile(o.spec, l) == Ok(config)
    requires AllAnswer(p.installOrder, config, w, faults)
    ensures var end := Body(p, o, w, l, now, faults);
            var rs := Answers(p.installOrder, config, w, faults);
            && SameButStatus(o, end.obj) && OursOn(o, end.obj) && end.obj.status.config == config
            && Wrote(o.status.conditions, end.obj.status.conditions,
                     Condition("Configuration", True, o.generation, now, "ValidConiguration", ""))
            && OthersStay(o.status.conditions, end.obj.status.conditions, {"Configuration", "Installation"})
            && end.world == WorldAfter(p.installOrder, config, w, faults, |p.installOrder|)
            && (Any(rs, Failed) ==> exists r ::
                  FirstOfState(rs, Failed, r) &&
                  Concludes(o, end, Error, "", now, False, "InstallationFailed", r.message, CtrlResult(false, 0)))
            && (!Any(rs, Failed) && Any(rs, InProgress) ==> exists r ::
                  FirstOfState(rs, InProgress, r) &&
                  Concludes(o, end, Processing, "", now, Unknown, "InstallationInProgress", r.message,
                            CtrlResult(false, p.interval)))
            && (!Any(rs, Failed) && !Any(rs, InProgress) ==>
                  l.kymaDomain.Ok? &&
                  Concludes(o, end, Ready, "https://cfapi." + l.kymaDomain.value, now, True, "InstallationSuccess", "",
                            CtrlResult(false, 0)))
  {
    InstallPassAnswers(p, o, w, l, now, faults, config);
    var r := Aggregate(Answers(p.installOrder, config, w, faults));
    AggregateByState(Answers(p.installOrder, config, w, faults));
    ConditionsOfPass(o, config, r, now);
    CompiledMeans(o.spec, l);
  }

  /** So the state tells the ending, for every object, world, lookup and fault. */
  lemma StateTellsEnding(p: Params, o: Object, w: World, l: Lookups, now: int, faults: nat -> Faults)
    requires ValidOrder(p.installOrder)
    ensures var state := Body(p, o, w, l, now, faults).obj.status.state;
            && (state == Deleting <==> o.deleting)
            && (state == Warning <==> !o.deleting && First(Obstacles(o.spec, l)).Some?)
            && (!o.deleting && First(Obstacles(o.spec, l)).None? ==>
                  && Compile(o.spec, l).Ok?
                  && var config := Compile(o.spec, l).value;
                     var all, rs := AllAnswer(p.installOrder, config, w, faults), Answers(p.installOrder, config, w, faults);
                     && (state == Error <==> all && Any(rs, Failed))
                     && (state == Ready <==> all && !Any(rs, Failed) && !Any(rs, InProgress))
                     && (state == Processing <==> !all || (!Any(rs, Failed) && Any(rs, InProgress))))
  {
    CompileFailsIff(o.spec, l);
    if o.deleting {
      DeletedIsDeleting(p, o, w, l, now, faults);
    } else if Compile(o.spec, l).Err? {
      RejectedEnding(p, o, w, l, now, faults);
    } else {
      var config := Compile(o.spec, l).value;
      var n := InstallPassIsPrefix(p.installOrder, config, w, faults);
      if n < |p.installOrder| {
        BrokenEnding(p, o, w, l, now, faults, config, n);
      } else {
        InstallEndings(p, o, w, l, now, faults, config);
      }
    }
  }

  lemma DeletedIsDeleting(p: Params, o: Object, w: World, l: Lookups, now: int, faults: nat -> Faults)
    requires ValidOrder(p.installOrder) && o.deleting
    ensures Body(p, o, w, l, now, faults).obj.status.state == Deleting
  {
  }

  // ----- faults that are waited for, and faults that are final -----

  /** An undisturbed call whose installables all answer stores its ending, and asks to come back exactly if nothing
      failed and something is in progress. */
  lemma UndisturbedEnding(p: Params, o: Object, w: World, e: R.Env, config: Config)
    requires ValidOrder(p.installOrder) && R.Undisturbed(e) && !o.deleting && Compile(o.spec, e.lookups) == Ok(config)
    requires AllAnswer(p.installOrder, config, w, e.faults)
    ensures var r := R.ReconcileOnce(p, Some(o), w, e);
            var rs := Answers(p.installOrder, config, w, e.faults);
            && r.error.None? && r.server.Some?
            && (Any(rs, Failed) ==> r.server.value.status.state == Error && r.result == CtrlResult(false, 0))
            && (!Any(rs, Failed) && Any(rs, InProgress) ==>
                  r.server.value.status.state == Processing && r.result == CtrlResult(false, p.interval))
            && (!Any(rs, Failed) && !Any(rs, InProgress) ==>
                  r.server.value.status.state == Ready && r.result == CtrlResult(false, 0))
  {
    var end := Body(p, o, w, e.lookups, e.now, e.faults);
    InstallEndings(p, o, w, e.lookups, e.now, e.faults, config);
    R.UndisturbedCommit(o, end.obj, e);
  }

  predicate MissesValues(order: seq<Installable>, config: Config, faults: nat -> Faults, i: nat)
    requires i < |order|
  {
    EnabledChart(order[i], config) && faults(i).values.Some?
  }

  /** If nothing is wrong but that values of some charts cannot be had yet, the object is Processing and the call
      asks for another. */
  lemma MissingValuesAskAgain(p: Params, o: Object, w: World, e: R.Env, config: Config)
    requires ValidOrder(p.installOrder) && R.Undisturbed(e) && !o.deleting && Compile(o.spec, e.lookups) == Ok(config)
    requires forall i: nat :: i < |p.installOrder| ==>
               AnswerAt(p.installOrder, config, w, e.faults, i).Succeeded() || MissesValues(p.installOrder, config, e.faults, i)
    requires exists i: nat :: i < |p.installOrder| && MissesValues(p.installOrder, config, e.faults, i)
    ensures var r := R.ReconcileOnce(p, Some(o), w, e);
            && r.error.None? && r.result == CtrlResult(false, p.interval)
            && r.server.Some? && r.server.value.status.state == Processing
            && (p.interval > 0 ==> !R.Dropped(r))
  {
    var order, rs := p.installOrder, Answers(p.installOrder, config, w, e.faults);
    forall i: nat | i < |order|
      ensures AnswerAt(order, config, w, e.faults, i).Done? && !rs[i].state.Failed?
      ensures MissesValues(order, config, e.faults, i) ==> rs[i].state.InProgress?
    {
      if MissesValues(order, config, e.faults, i) {
        ChartFaults(order[i], config, WorldAfter(order, config, w, e.faults, i), e.faults(i));
      }
    }
    assert !Any(rs, Failed) && Any(rs, InProgress) by {
      var i: nat :| i < |order| && MissesValues(order, config, e.faults, i);
      assert rs[i].state.InProgress?;
    }
    UndisturbedEnding(p, o, w, e, config);
  }

  /** If every component answers, and for one chart Apply returns an error, the object is in Error and the work
      queue forgets it. */
  lemma FailedApplyIsFinal(p: Params, o: Object, w: World, e: R.Env, config: Config, i: nat)
    requires ValidOrder(p.installOrder) && R.Undisturbed(e) && !o.deleting && Compile(o.spec, e.lookups) == Ok(config)
    requires AllAnswer(p.installOrder, config, w, e.faults)
    requires i < |p.installOrder| && EnabledChart(p.installOrder[i], config)
    requires ApplyFails(p.installOrder[i], config, WorldAfter(p.installOrder, config, w, e.faults, i), e.faults(i))
    ensures var r := R.ReconcileOnce(p, Some(o), w, e);
            && R.Dropped(r) && r.server.Some? && r.server.value.status.state == Error
  {
    ChartFaults(p.installOrder[i], config, WorldAfter(p.installOrder, config, w, e.faults, i), e.faults(i));
    var rs := Answers(p.installOrder, config, w, e.faults);
    assert rs[i].state.Failed?;
    UndisturbedEnding(p, o, w, e, config);
  }

  // ----- an uninstall pass -----

  function WorldAfterRemovals(order: seq<Installable>, config: Config, w: World, faults: nat -> Faults, n: nat): World
    requires n <= |order|
  {
    if n == 0 then w
    else Uninstall(order[n - 1], config, WorldAfterRemovals(order, config, w, faults, n - 1), faults(n - 1)).0
  }

  /** What the i-th component of the uninstall order answers when its turn comes. */
  function RemovalAt(order: seq<Installable>, config: Config, w: World, faults: nat -> Faults, i: nat): Answer
    requires i < |order|
  {
    Uninstall(order[i], config, WorldAfterRemovals(order, config, w, faults, i), faults(i)).1
  }

  /** The first component that does not answer Success. */
  ghost predicate FirstLeft(order: seq<Installable>, config: Config, w: World, faults: nat -> Faults, n: nat) {
    && n <= |order|
    && (forall i :: 0 <= i < n ==> RemovalAt(order, config, w, faults, i).Succeeded())
    && (n < |order| ==> !RemovalAt(order, config, w, faults, n).Succeeded())
  }

  lemma {:induction false} UninstallFromPrefix(order: seq<Installable>, config: Config, w: World, faults: nat -> Faults,
                                               done: seq<Report>) returns (n: nat)
    requires |done| <= |order|
    requires forall i :: 0 <= i < |done| ==> RemovalAt(order, config, w, faults, i).Succeeded()
    ensures FirstLeft(order, config, w, faults, n) && |done| <= n
    ensures var (w', end) := UninstallFrom(order, config, WorldAfterRemovals(order, config, w, faults, |done|), faults, done);
            && (n == |order| ==> end.Complete? && w' == WorldAfterRemovals(order, config, w, faults, n))
            && (n < |order| ==>
                  && w' == WorldAfterRemovals(order, config, w, faults, n + 1)
                  && end == match RemovalAt(order, config, w, faults, n)
                            case Errored(m) => Broken(m)
                            case Done(r) => Pending(r))
    decreases |order| - |done|
  {
    n := |done|;
    if n < |order| {
      var a := RemovalAt(order, config, w, faults, n);
      if a.Succeeded() {
        n := UninstallFromPrefix(order, config, w, faults, done + [a.result]);
      }
    }
  }

  /** An uninstall pass calls the components in order up to and including the first that does not answer Success,
      and ends as that one answers. */
  lemma UninstallPassIsPrefix(order: seq<Installable>, config: Config, w: World, faults: nat -> Faults) returns (n: nat)
    ensures FirstLeft(order, config, w, faults, n)
    ensures var (w', end) := UninstallFrom(order, config, w, faults, []);
            && (n == |order| ==> end.Complete? && w' == WorldAfterRemovals(order, config, w, faults, n))
            && (n < |order| ==>
                  && w' == WorldAfterRemovals(order, config, w, faults, n + 1)
                  && end == match RemovalAt(order, config, w, faults, n)
                            case Errored(m) => Broken(m)
                            case Done(r) => Pending(r))
  {
    n := UninstallFromPrefix(order, config, w, faults, []);
  }

  /** What every finalize leaves: state Deleting, the configuration and the URL as they were. */
  predicate Deletes(o: Object, end: Object) {
    && SameButStatus(o, end)
    && end.status.state == Deleting && end.status.url == o.status.url && end.status.config == o.status.config
  }

  /** Without a committed configuration nothing is called and our finalizer goes. */
  lemma UnstartedDeletionEnding(p: Params, o: Object, w: World, l: Lookups, now: int, faults: nat -> Faults)
    requires ValidOrder(p.installOrder) && o.deleting
    requires o.status.config == Config("", "", false, "", "", "", "", [], "", "", false, "")
    ensures var end := Body(p, o, w, l, now, faults);
            && Deletes(o, end.obj) && end.obj.status.conditions == o.status.conditions
            && end.obj.finalizers == RemoveFinalizer(o.finalizers, FINALIZER)
            && end.world == w && R.Mapped(end.result, end.error) == (CtrlResult(false, 0), None)
  {
    AddThenRemove(o.finalizers, FINALIZER);
  }

  /** With one, the first component that does not succeed decides: an error is returned, and anything else is
      said in the Deletion condition and asks to come back; either way our finalizer stays. It goes exactly
      if every component succeeds. */
  lemma DeletionEndings(p: Params, o: Object, w: World, l: Lookups, now: int, faults: nat -> Faults, n: nat)
    requires ValidOrder(p.installOrder) && o.deleting
    requires o.status.config != Config("", "", false, "", "", "", "", [], "", "", false, "")
    requires FirstLeft(p.uninstallOrder, o.status.config, w, faults, n)
    ensures var end := Body(p, o, w, l, now, faults);
            var order, config := p.uninstallOrder, o.status.config;
            && Deletes(o, end.obj)
            && (n == |order| ==>
                  && end.obj.finalizers == RemoveFinalizer(o.finalizers, FINALIZER)
                  && end.obj.status.conditions == o.status.conditions
                  && end.world == WorldAfterRemovals(order, config, w, faults, n)
                  && R.Mapped(end.result, end.error) == (CtrlResult(false, 0), None))
            && (n < |order| ==>
                  && OursOn(o, end.obj)
                  && end.world == WorldAfterRemovals(order, config, w, faults, n + 1)
                  && match RemovalAt(order, config, w, faults, n)
                     case Errored(m) =>
                       && end.obj.status.conditions == o.status.conditions
                       && R.Mapped(end.result, end.error) == (CtrlResult(false, 0), Some(m))
                     case Done(r) =>
                       && Wrote(o.status.conditions, end.obj.status.conditions,
                                Condition("Deletion", False, o.generation, now, "DeletionInProgress", r.message))
                       && OthersStay(o.status.conditions, end.obj.status.conditions, {"Deletion"})
                       && R.Mapped(end.result, end.error) == (CtrlResult(false, p.interval), None))
  {
    var k := UninstallPassIsPrefix(p.uninstallOrder, o.status.config, w, faults);
    FirstLeftOnce(p.uninstallOrder, o.status.config, w, faults, n, k);
    AddThenRemove(o.finalizers, FINALIZER);
    if n < |p.uninstallOrder| {
      var a := RemovalAt(p.uninstallOrder, o.status.config, w, faults, n);
      if a.Done? {
        WroteOne(o.status.conditions, Condition("Deletion", False, o.generation, now, "DeletionInProgress", a.result.message));
      }
    }
  }

  lemma FirstLeftOnce(order: seq<Installable>, config: Config, w: World, faults: nat -> Faults, n: nat, k: nat)
    requires FirstLeft(order, config, w, faults, n) && FirstLeft(order, config, w, faults, k)
    ensures n == k
  {
  }
}
