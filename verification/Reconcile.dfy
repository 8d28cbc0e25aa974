/**
 The generic reconciler (`tools/k8s/reconcile.go`) around the CFAPI body: one call reads the object,
 runs the body on a copy, commits it in two patches, and answers the work queue. Other clients may
 change the stored object before either patch.
 */
module Reconcile {
  import opened Prelude
  import opened Types
  import opened Cluster
  import opened Installables
  import opened Controller
  import A = ApiServer
  import CF = ControllerFacts

  type Others = Option<Object> -> Option<Object>

  /** What one call of Reconcile meets. */
  datatype Env = Env(
    getError: Option<string>,
    lookups: Lookups,
    now: int,
    faults: nat -> Faults,
    convertFails: bool,
    beforeMain: Others,
    mainFails: bool,
    beforeStatus: Others,
    statusFails: bool,
    copyFails: bool)

  datatype Reply = Reply(server: Option<Object>, world: World, result: CtrlResult, error: Option<string>)

  const NOT_CONVERTED := "conversion failed"
  const NOT_COPIED := "copying back failed"
  const MAIN_FAILED := "patching-main-obj-failed"
  const STATUS_FAILED := "patching-status-failed"

  /** The three flags of a NotReadyError are looked at one after the other, so the last one wins. */
  function Mapped(result: CtrlResult, error: BodyError): (CtrlResult, Option<string>) {
    match error
    case NoError => (result, None)
    case Failure(m) => (result, Some(m))
    case NotReady(requeueAfter, requeue, noRequeue) =>
      if requeue then (CtrlResult(true, 0), None)
      else if requeueAfter.Some? then (After(requeueAfter.value), None)
      else if noRequeue then (EMPTY, None)
      else (result, Some("not ready"))
  }

  /** What is stored after the main patch, or why it was not. */
  function CommitMain(server: Option<Object>, o: Object, m: Object, e: Env): (Option<Object>, bool) {
    var s := e.beforeMain(server);
    if e.mainFails || s.None? then (s, false) else
    match A.PatchMain(s.value, o, m)
    case Refused => (s, false)
    case Gone => (None, true)
    case Kept(kept) => (Some(kept), true)
  }

  function CommitStatus(server: Option<Object>, o: Object, m: Object, e: Env): (Option<Object>, bool) {
    var s := e.beforeStatus(server);
    if e.statusFails || s.None? then (s, false) else (Some(A.PatchedStatus(s.value, o, m)), true)
  }

  function Commit(server: Option<Object>, o: Object, m: Object, e: Env): (Option<Object>, Option<string>) {
    if e.convertFails then (server, Some(NOT_CONVERTED)) else
    var (s, ok) := CommitMain(server, o, m, e);
    if !ok then (s, Some(MAIN_FAILED)) else
    var (s', ok') := CommitStatus(s, o, m, e);
    (s', if !ok' then Some(STATUS_FAILED) else if e.copyFails then Some(NOT_COPIED) else None)
  }

  function ReconcileOnce(p: Params, server: Option<Object>, w: World, e: Env): Reply
    requires ValidOrder(p.installOrder)
  {
    if e.getError.Some? then Reply(server, w, EMPTY, e.getError)
    else if server.None? then Reply(server, w, EMPTY, None)
    else
      var end := Body(p, server.value, w, e.lookups, e.now, e.faults);
      var (s, failed) := Commit(server, server.value, end.obj, e);
      var (result, error) := Mapped(end.result, end.error);
      if failed.Some? then Reply(s, end.world, EMPTY, failed) else Reply(s, end.world, result, error)
  }

  // ----- the reconciler -----

  /** The stored CFAPI object as its clients see it. */
  class Store {
    var stored: Option<Object>

    method Interfere(others: Others)
      modifies this
      ensures stored == others(old(stored))
    {
      stored := others(stored);
    }

    method PatchMain(original: Object, modified: Object, fails: bool) returns (ok: bool)
      modifies this
      ensures (stored, ok) ==
              if fails || old(stored).None? then (old(stored), false)
              else match A.PatchMain(old(stored).value, original, modified)
                   case Refused => (old(stored), false)
                   case Gone => (None, true)
                   case Kept(kept) => (Some(kept), true)
    {
      if fails || stored.None? {
        return false;
      }
      var reply := A.PatchMain(stored.value, original, modified);
      match reply
      case Refused =>
        ok := false;
      case Gone =>
        stored := None;
        ok := true;
      case Kept(kept) =>
        stored := Some(kept);
        ok := true;
    }

    method PatchStatus(original: Object, modified: Object, fails: bool) returns (ok: bool)
      modifies this
      ensures (stored, ok) ==
              if fails || old(stored).None? then (old(stored), false)
              else (Some(A.PatchedStatus(old(stored).value, original, modified)), true)
    {
      if fails || stored.None? {
        return false;
      }
      stored := Some(A.PatchedStatus(stored.value, original, modified));
      return true;
    }
  }

  class PatchingReconciler {
    const store: Store
    const objectReconciler: Reconciler

    constructor (store: Store, objectReconciler: Reconciler)
      ensures this.store == store && this.objectReconciler == objectReconciler
    {
      this.store, this.objectReconciler := store, objectReconciler;
    }

    method Reconcile(e: Env) returns (result: CtrlResult, error: Option<string>)
      requires ValidOrder(objectReconciler.params.installOrder)
      modifies store, objectReconciler.cluster
      ensures Reply(store.stored, objectReconciler.cluster.View(), result, error) ==
              ReconcileOnce(objectReconciler.params, old(store.stored), old(objectReconciler.cluster.View()), e)
    {
      if e.getError.Some? {
        return EMPTY, e.getError;
      }
      if store.stored.None? {
        return EMPTY, None;
      }
      var objCopy := store.stored.value;
      var runtimeObj := new CFAPI(objCopy);
      var bodyResult, bodyError := objectReconciler.ReconcileResource(runtimeObj, e.lookups, e.now, e.faults);
      var modifiedObj := runtimeObj.View();

      if e.convertFails {
        return EMPTY, Some(NOT_CONVERTED);
      }
      store.Interfere(e.beforeMain);
      var ok := store.PatchMain(objCopy, modifiedObj, e.mainFails);
      if !ok {
        return EMPTY, Some(MAIN_FAILED);
      }
      store.Interfere(e.beforeStatus);
      ok := store.PatchStatus(objCopy, modifiedObj, e.statusFails);
      if !ok {
        return EMPTY, Some(STATUS_FAILED);
      }
      if e.copyFails {
        return EMPTY, Some(NOT_COPIED);
      }
      var mapped := Mapped(bodyResult, bodyError);
      return mapped.0, mapped.1;
    }
  }

  // ----- what a call answers -----

  /** A NotReadyError with any flag is no error for the work queue; of several flags requeue counts before a delay,
      and a delay before no requeue. Any other error is passed on. */
  lemma MappedMeans(result: CtrlResult, error: BodyError)
    ensures var (r, e) := Mapped(result, error);
            match error
            case NoError => r == result && e.None?
            case Failure(m) => e == Some(m)
            case NotReady(delay, requeue, noRequeue) =>
              && (e.None? <==> requeue || delay.Some? || noRequeue)
              && (requeue ==> r == CtrlResult(true, 0))
              && (!requeue && delay.Some? ==> r == CtrlResult(false, delay.value))
              && (!requeue && delay.None? && noRequeue ==> r == CtrlResult(false, 0))
  {
  }

  /** The stored object is the main patch's unless that fails, and the status patch's on top unless that fails;
      a request fails also if the object is gone by then or the server refuses it. The first failure is the
      error. */
  lemma CommitMeans(server: Option<Object>, o: Object, m: Object, e: Env)
    ensures var (s, error) := Commit(server, o, m, e);
            var s0 := e.beforeMain(server);
            var mainFails := e.mainFails || s0.None? || A.PatchMain(s0.value, o, m).Refused?;
            && (e.convertFails ==> s == server && error == Some("conversion failed"))
            && (!e.convertFails && mainFails ==> s == s0 && error == Some("patching-main-obj-failed"))
            && (!e.convertFails && !mainFails ==>
                  var s1 := match A.PatchMain(s0.value, o, m) case Kept(kept) => Some(kept) case _ => None;
                  var s2 := e.beforeStatus(s1);
                  && (e.statusFails || s2.None? ==> s == s2 && error == Some("patching-status-failed"))
                  && (!e.statusFails && s2.Some? ==>
                        && s == Some(A.PatchedStatus(s2.value, o, m))
                        && error == if e.copyFails then Some("copying back failed") else None))
  {
  }

  /** A failing read ends the call; an absent object is no error; otherwise the body runs exactly once, and a
      failing commit hides what the body asks for. */
  lemma ReplyMeans(p: Params, server: Option<Object>, w: World, e: Env)
    requires ValidOrder(p.installOrder)
    ensures var r := ReconcileOnce(p, server, w, e);
            && (e.getError.Some? ==> r == Reply(server, w, CtrlResult(false, 0), e.getError))
            && (e.getError.None? && server.None? ==> r == Reply(None, w, CtrlResult(false, 0), None))
            && (e.getError.None? && server.Some? ==>
                  var end := Body(p, server.value, w, e.lookups, e.now, e.faults);
                  var (s, failed) := Commit(server, server.value, end.obj, e);
                  && r.server == s && r.world == end.world
                  && (failed.Some? ==> r.error == failed && r.result == CtrlResult(false, 0))
                  && (failed.None? ==> (r.result, r.error) == Mapped(end.result, end.error)))
  {
  }

  // ----- no reconcile is silently dropped -----

  /** Neither an error nor a requeue: the work queue forgets the object until it changes. */
  predicate Dropped(r: Reply) {
    r.error.None? && !r.result.requeue && r.result.requeueAfter <= 0
  }

  /** Nothing more to do: installed, failed for good, or finalized. */
  predicate Settled(o: Object) {
    o.status.state.Ready? || o.status.state.Error? || (o.deleting && FINALIZER !in o.finalizers)
  }

  lemma BodyAnswers(p: Params, o: Object, w: World, l: Lookups, now: int, faults: nat -> Faults)
    requires ValidOrder(p.installOrder)
    ensures var end := Body(p, o, w, l, now, faults);
            && (end.error.Failure? ==> !Settled(end.obj))
            && (!end.error.Failure? && Settled(end.obj) ==> Mapped(end.result, end.error) == (EMPTY, None))
            && (!end.error.Failure? && !Settled(end.obj) ==> Mapped(end.result, end.error) == (After(p.interval), None))
  {
    if !o.deleting && Compile(o.spec, l).Ok? {
      InstallFromLength(p.installOrder, Compile(o.spec, l).value, w, faults, []);
    }
  }

  /** A call ends without error and without requeue exactly if the object was absent, or the body
      settled it and both patches were stored. With an interval that is not positive, waiting would
      be forgotten as well. */
  lemma NoSilentDrop(p: Params, server: Option<Object>, w: World, e: Env)
    requires ValidOrder(p.installOrder)
    ensures Dropped(ReconcileOnce(p, server, w, e)) <==>
              e.getError.None? &&
              (server.Some? ==>
                 var end := Body(p, server.value, w, e.lookups, e.now, e.faults);
                 && Commit(server, server.value, end.obj, e).1.None?
                 && !end.error.Failure?
                 && (Settled(end.obj) || p.interval <= 0))
  {
    if e.getError.None? && server.Some? {
      BodyAnswers(p, server.value, w, e.lookups, e.now, e.faults);
    }
  }

  // ----- undisturbed calls -----

  ghost predicate Undisturbed(e: Env) {
    && e.getError.None? && !e.convertFails && !e.mainFails && !e.statusFails && !e.copyFails
    && (forall s :: e.beforeMain(s) == s) && (forall s :: e.beforeStatus(s) == s)
  }

  /** Undisturbed, the modified object is stored as it is; one that loses its last finalizer on the
      way out is gone before its status can be patched, and the call reports that as an error. */
  lemma UndisturbedCommit(o: Object, m: Object, e: Env)
    requires Undisturbed(e) && m == o.(finalizers := m.finalizers, status := m.status)
    requires o.deleting ==> forall f :: f in m.finalizers ==> f in o.finalizers
    ensures Commit(Some(o), o, m, e) ==
            if o.deleting && m.finalizers == [] then (None, Some(STATUS_FAILED)) else (Some(m), None)
  {
    A.MergeFromRead(o.status, m.status);
  }

  lemma BodyKeepsIdentity(p: Params, o: Object, w: World, l: Lookups, now: int, faults: nat -> Faults)
    requires ValidOrder(p.installOrder)
    ensures var m := Body(p, o, w, l, now, faults).obj;
            && m == o.(finalizers := m.finalizers, status := m.status)
            && (FINALIZER in o.finalizers ==> forall f :: f in m.finalizers ==> f in o.finalizers)
            && (FINALIZER in m.finalizers ==> m.finalizers == AddFinalizer(o.finalizers, FINALIZER))
  {
  }

  /** A marked object without our finalizer takes it back only if the API server lets it, which it does not. */
  lemma RefusedCommit(o: Object, m: Object, e: Env)
    requires Undisturbed(e) && o.deleting && m.finalizers != o.finalizers
    requires exists f :: f in m.finalizers && f !in o.finalizers
    ensures Commit(Some(o), o, m, e) == (Some(o), Some(MAIN_FAILED))
  {
  }

  /** A second undisturbed call with the same answers stores nothing new and answers the same. */
  lemma SecondReconcileWritesNothing(p: Params, o: Object, w: World, e: Env, w': World, e': Env)
    requires ValidOrder(p.installOrder) && Undisturbed(e) && Undisturbed(e')
    requires e.lookups == e'.lookups && CF.SameAnswers(p, o, e.lookups, w, e.faults, w', e'.faults)
    ensures var first := ReconcileOnce(p, Some(o), w, e);
            first.server.Some? ==>
              var second := ReconcileOnce(p, first.server, w', e');
              second.server == first.server && second.result == first.result && second.error == first.error
  {
    var end := Body(p, o, w, e.lookups, e.now, e.faults);
    BodyKeepsIdentity(p, o, w, e.lookups, e.now, e.faults);
    if o.deleting && FINALIZER in end.obj.finalizers && FINALIZER !in o.finalizers {
      BothRefused(p, o, w, e, w', e');
    } else {
      SecondStored(p, o, w, e, w', e');
    }
  }

  lemma BothRefused(p: Params, o: Object, w: World, e: Env, w': World, e': Env)
    requires ValidOrder(p.installOrder) && Undisturbed(e) && Undisturbed(e')
    requires e.lookups == e'.lookups && CF.SameAnswers(p, o, e.lookups, w, e.faults, w', e'.faults)
    requires o.deleting && FINALIZER !in o.finalizers
    requires FINALIZER in Body(p, o, w, e.lookups, e.now, e.faults).obj.finalizers
    ensures ReconcileOnce(p, Some(o), w, e).server == Some(o)
    ensures ReconcileOnce(p, Some(o), w, e).error == ReconcileOnce(p, Some(o), w', e').error == Some(MAIN_FAILED)
    ensures ReconcileOnce(p, Some(o), w, e).result == ReconcileOnce(p, Some(o), w', e').result == EMPTY
    ensures ReconcileOnce(p, Some(o), w', e').server == Some(o)
  {
    RefusedCommit(o, Body(p, o, w, e.lookups, e.now, e.faults).obj, e);
    assert FINALIZER in Body(p, o, w', e'.lookups, e'.now, e'.faults).obj.finalizers;
    RefusedCommit(o, Body(p, o, w', e'.lookups, e'.now, e'.faults).obj, e');
  }

  lemma SecondStored(p: Params, o: Object, w: World, e: Env, w': World, e': Env)
    requires ValidOrder(p.installOrder) && Undisturbed(e) && Undisturbed(e')
    requires e.lookups == e'.lookups && CF.SameAnswers(p, o, e.lookups, w, e.faults, w', e'.faults)
    requires o.deleting ==> forall f :: f in Body(p, o, w, e.lookups, e.now, e.faults).obj.finalizers ==> f in o.finalizers
    ensures var first := ReconcileOnce(p, Some(o), w, e);
            first.server.Some? ==>
              var second := ReconcileOnce(p, first.server, w', e');
              second.server == first.server && second.result == first.result && second.error == first.error
  {
    var end := Body(p, o, w, e.lookups, e.now, e.faults);
    BodyKeepsIdentity(p, o, w, e.lookups, e.now, e.faults);
    UndisturbedCommit(o, end.obj, e);
    if !(o.deleting && end.obj.finalizers == []) {
      CF.ReconcileIsFixpoint(p, o, e.lookups, w, e.now, e.faults, w', e'.now, e'.faults);
      UndisturbedCommit(end.obj, end.obj, e');
    }
  }
}
