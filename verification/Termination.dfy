/** Deleting a CFAPI object comes to an end: when, after how many passes, and when never. */
module Termination {
  import opened Prelude
  import opened Types
  import opened Cluster
  import opened Installables
  import opened InstallableFacts
  import opened Controller
  import CF = ControllerFacts
  import H = Helm
  import R = Reconcile
  import A = ApiServer

  // ----- live resources -----

  /** How much of a component is left. */
  function LiveOf(inst: Installable, w: World): nat {
    |ObjectKeys(inst) * w.objects.Keys| + |ReleaseNames(inst) * H.ShownNames(w.releases)|
      + if HandlesOrgs(inst) then |OrgMap(w).Keys| else 0
  }

  function Sum(xs: seq<nat>): nat {
    if xs == [] then 0 else xs[0] + Sum(xs[1..])
  }

  function Live(order: seq<Installable>, w: World): nat {
    Sum(seq(|order|, i requires 0 <= i < |order| => LiveOf(order[i], w)))
  }

  lemma {:induction false} SubsetIsSmaller<T>(a: set<T>, b: set<T>)
    requires a <= b
    ensures |a| <= |b| && (a != b ==> |a| < |b|)
  {
    assert b == a + (b - a);
    assert |b| == |a| + |b - a|;
    if a != b {
      assert b - a != {};
    }
  }

  lemma ShrunkIsSmaller(inst: Installable, w: World, w': World)
    requires Shrunk(w, w')
    ensures LiveOf(inst, w') <= LiveOf(inst, w)
  {
    SubsetIsSmaller(ObjectKeys(inst) * w'.objects.Keys, ObjectKeys(inst) * w.objects.Keys);
    SubsetIsSmaller(ReleaseNames(inst) * H.ShownNames(w'.releases), ReleaseNames(inst) * H.ShownNames(w.releases));
    SubsetIsSmaller(OrgMap(w').Keys, OrgMap(w).Keys);
  }

  lemma {:induction false} SumIsMonotone(xs: seq<nat>, ys: seq<nat>)
    requires |xs| == |ys| && forall i :: 0 <= i < |xs| ==> xs[i] <= ys[i]
    ensures Sum(xs) <= Sum(ys)
    ensures (exists i :: 0 <= i < |xs| && xs[i] < ys[i]) ==> Sum(xs) < Sum(ys)
  {
    if xs != [] {
      SumIsMonotone(xs[1..], ys[1..]);
      if i :| 0 <= i < |xs| && xs[i] < ys[i] {
        assert i > 0 ==> xs[1..][i - 1] < ys[1..][i - 1];
      }
    }
  }

  lemma ShrunkOrderIsSmaller(order: seq<Installable>, w: World, w': World, k: nat)
    requires Shrunk(w, w')
    ensures Live(order, w') <= Live(order, w)
    ensures k < |order| && LiveOf(order[k], w') < LiveOf(order[k], w) ==> Live(order, w') < Live(order, w)
  {
    var before := seq(|order|, i requires 0 <= i < |order| => LiveOf(order[i], w));
    var after := seq(|order|, i requires 0 <= i < |order| => LiveOf(order[i], w'));
    forall i | 0 <= i < |order| ensures after[i] <= before[i] { ShrunkIsSmaller(order[i], w, w'); }
    SumIsMonotone(after, before);
    assert k < |order| ==> after[k] == LiveOf(order[k], w') && before[k] == LiveOf(order[k], w);
  }

  // ----- one pass -----

  /** The component that stops the pass has lost something in it. */
  ghost predicate Drains(order: seq<Installable>, config: Config, w: World, faults: nat -> Faults, done: seq<Report>)
    requires |done| <= |order|
    decreases |order| - |done|
  {
    var i := |done|;
    i < |order| ==>
      var (w', a) := Uninstall(order[i], config, w, faults(i));
      if a.Succeeded() then Drains(order, config, w', faults, done + [a.result])
      else LiveOf(order[i], w') < LiveOf(order[i], w)
  }

  /** Although only a prefix of the order runs, the sum over the whole order goes down. */
  lemma {:induction false} PassShrinksLive(order: seq<Installable>, config: Config, w: World, faults: nat -> Faults, done: seq<Report>)
    requires |done| <= |order| && Drains(order, config, w, faults, done)
    ensures var (w', end) := UninstallFrom(order, config, w, faults, done);
            && Shrunk(w, w')
            && (!end.Complete? ==> Live(order, w') < Live(order, w))
    decreases |order| - |done|
  {
    var i := |done|;
    if i < |order| {
      var (w1, a) := Uninstall(order[i], config, w, faults(i));
      UninstallShrinks(order[i], config, w, faults(i));
      if a.Succeeded() {
        PassShrinksLive(order, config, w1, faults, done + [a.result]);
        ShrunkOrderIsSmaller(order, w, w1, i);
        ShrunkTwice(w, w1, UninstallFrom(order, config, w1, faults, done + [a.result]).0);
      } else {
        ShrunkOrderIsSmaller(order, w, w1, i);
      }
    }
  }

  lemma ShrunkTwice(w: World, w1: World, w2: World)
    requires Shrunk(w, w1) && Shrunk(w1, w2)
    ensures Shrunk(w, w2)
  {
    assert OrgMap(w2).Keys <= OrgMap(w1).Keys <= OrgMap(w).Keys;
  }

  // ----- pass after pass -----

  /** What happens around the n-th pass: the faults it meets, and what others remove after it. */
  datatype Round = Round(faults: nat -> Faults, others: World -> World)

  function WorldBefore(order: seq<Installable>, config: Config, w: World, rounds: nat -> Round, n: nat): World {
    if n == 0 then w else
    var before := WorldBefore(order, config, w, rounds, n - 1);
    rounds(n - 1).others(UninstallFrom(order, config, before, rounds(n - 1).faults, []).0)
  }

  function WorldAfterPass(order: seq<Installable>, config: Config, w: World, rounds: nat -> Round, n: nat): World {
    UninstallFrom(order, config, WorldBefore(order, config, w, rounds, n), rounds(n).faults, []).0
  }

  function EndOf(order: seq<Installable>, config: Config, w: World, rounds: nat -> Round, n: nat): UninstallEnd {
    UninstallFrom(order, config, WorldBefore(order, config, w, rounds, n), rounds(n).faults, []).1
  }

  /** After the n-th pass others add no more to the components than they take away. */
  predicate OthersAddNothingAt(order: seq<Installable>, config: Config, w: World, rounds: nat -> Round, n: nat) {
    Live(order, WorldBefore(order, config, w, rounds, n + 1)) <= Live(order, WorldAfterPass(order, config, w, rounds, n))
  }

  ghost predicate DrainsAt(order: seq<Installable>, config: Config, w: World, rounds: nat -> Round, n: nat) {
    Drains(order, config, WorldBefore(order, config, w, rounds, n), rounds(n).faults, [])
  }

  predicate CompleteAt(order: seq<Installable>, config: Config, w: World, rounds: nat -> Round, n: nat) {
    EndOf(order, config, w, rounds, n).Complete?
  }

  lemma RoundShrinksLive(order: seq<Installable>, config: Config, w: World, rounds: nat -> Round, n: nat)
    requires OthersAddNothingAt(order, config, w, rounds, n)
    requires DrainsAt(order, config, w, rounds, n) && !CompleteAt(order, config, w, rounds, n)
    ensures Live(order, WorldBefore(order, config, w, rounds, n + 1)) < Live(order, WorldBefore(order, config, w, rounds, n))
  {
    PassShrinksLive(order, config, WorldBefore(order, config, w, rounds, n), rounds(n).faults, []);
  }

  predicate StepsDown(m: nat -> nat, i: nat) {
    m(i + 1) < m(i)
  }

  lemma {:induction false} Descends(m: nat -> nat, n: nat)
    requires forall i: nat :: i < n ==> StepsDown(m, i)
    ensures m(n) + n <= m(0)
  {
    if n > 0 {
      Descends(m, n - 1);
      assert StepsDown(m, n - 1);
    }
  }

  lemma {:induction false} FirstWhere(p: nat -> bool, bound: nat) returns (n: nat)
    ensures n <= bound + 1 && (n <= bound ==> p(n))
    ensures forall i: nat :: i < n ==> !p(i)
  {
    n := 0;
    while n <= bound && !p(n)
      invariant n <= bound + 1
      invariant forall i: nat :: i < n ==> !p(i)
    {
      n := n + 1;
    }
  }

  ghost predicate FirstComplete(order: seq<Installable>, config: Config, w: World, rounds: nat -> Round, n: nat) {
    && CompleteAt(order, config, w, rounds, n)
    && forall i: nat :: i < n ==> !CompleteAt(order, config, w, rounds, i)
  }

  /** If the component at which each pass stops has lost something in that pass, the passes come to a
      complete one within the number of live resources, plus one. */
  lemma UninstallTerminates(order: seq<Installable>, config: Config, w: World, rounds: nat -> Round) returns (n: nat)
    requires forall i: nat :: i <= Live(order, w) ==>
               DrainsAt(order, config, w, rounds, i) && OthersAddNothingAt(order, config, w, rounds, i)
    ensures n <= Live(order, w) && FirstComplete(order, config, w, rounds, n)
  {
    var bound := Live(order, w);
    var m := (i: nat) => Live(order, WorldBefore(order, config, w, rounds, i));
    var complete := (i: nat) => CompleteAt(order, config, w, rounds, i);
    assert m(0) == bound;
    n := FirstWhere(complete, bound);
    forall i: nat | i < n ensures !CompleteAt(order, config, w, rounds, i) {
      assert !complete(i);
    }
    if n > bound {
      forall i: nat | i <= bound ensures StepsDown(m, i) {
        RoundShrinksLive(order, config, w, rounds, i);
      }
      Descends(m, bound + 1);
      assert false;
    }
  }

  // ----- what never goes away -----

  predicate BlockedObject(w: World, k: Key) { k in w.objects && w.objects[k].held }

  predicate BlockedRelease(w: World, name: string) { name in H.ShownNames(w.releases) && w.releases[name].status.Uninstalling? }

  predicate BlockedOrg(w: World, config: Config, id: string) {
    id in OrgMap(w) && (OrgMap(w)[id].held || OrgMap(w)[id].namespace != config.rootNamespace)
  }

  /** Nothing of the component will stay for ever: no object or org that something holds, no org
      outside the root namespace, no release that is already being uninstalled. */
  ghost predicate Drainable(inst: Installable, config: Config, w: World) {
    && (forall k :: k in ObjectKeys(inst) ==> !BlockedObject(w, k))
    && (forall n :: n in ReleaseNames(inst) ==> !BlockedRelease(w, n))
    && (HandlesOrgs(inst) ==> forall id :: id in OrgMap(w) ==> !BlockedOrg(w, config, id))
  }

  ghost predicate AllDrainable(order: seq<Installable>, config: Config, w: World) {
    forall inst :: inst in order ==> Drainable(inst, config, w)
  }

  ghost predicate SameBlocks(config: Config, w: World, w': World) {
    && (forall k :: BlockedObject(w, k) <==> BlockedObject(w', k))
    && (forall n :: BlockedRelease(w, n) <==> BlockedRelease(w', n))
    && (forall id :: BlockedOrg(w, config, id) <==> BlockedOrg(w', config, id))
  }

  lemma SameBlocksSameDrainable(order: seq<Installable>, config: Config, w: World, w': World)
    requires SameBlocks(config, w, w')
    ensures AllDrainable(order, config, w) <==> AllDrainable(order, config, w')
  {
    forall inst ensures Drainable(inst, config, w) <==> Drainable(inst, config, w') {
      if Drainable(inst, config, w) { DrainableCarries(inst, config, w, w'); }
      if Drainable(inst, config, w') { DrainableCarries(inst, config, w', w); }
    }
  }

  lemma DrainableCarries(inst: Installable, config: Config, w: World, w': World)
    requires SameBlocks(config, w, w') && Drainable(inst, config, w)
    ensures Drainable(inst, config, w')
  {
    if HandlesOrgs(inst) {
      forall id | id in OrgMap(w') ensures !BlockedOrg(w', config, id) {
        assert BlockedOrg(w, config, id) <==> BlockedOrg(w', config, id);
      }
    }
  }

  /** A clean uninstall leaves every blocked resource blocked, and no other one behind. */
  lemma {:induction false} CleanUninstallBlocks(inst: Installable, config: Config, w: World, f: Faults)
    requires Clean(f)
    ensures SameBlocks(config, w, Uninstall(inst, config, w, f).0)
    ensures Uninstall(inst, config, w, f).1.Done?
  {
    match inst
    case Yaml(docs) => YamlUninstallPurges(docs, w, f);
    case Conditional(_, d) => CleanUninstallBlocks(d, config, w, f);
    case HelmChart(_, _, _) =>
    case Orgs =>
  }

  /** Without blocked resources one clean uninstall removes the whole component; it answers Success
      or there was something to remove. */
  lemma {:induction false} CleanUninstallDrains(inst: Installable, config: Config, w: World, f: Faults)
    requires Clean(f) && Drainable(inst, config, w)
    ensures var (w', a) := Uninstall(inst, config, w, f);
            Absent(inst, w') && (!a.Succeeded() ==> !Absent(inst, w))
  {
    match inst
    case Yaml(docs) =>
      YamlUninstallPurges(docs, w, f);
      assert docs[..|docs|] == docs;
      forall k | k in KeysOf(docs) ensures k !in Uninstall(inst, config, w, f).0.objects {
        assert !BlockedObject(w, k);
      }
    case Conditional(_, d) =>
      assert Drainable(d, config, w);
      CleanUninstallDrains(d, config, w, f);
    case HelmChart(name, _, _) => assert !BlockedRelease(w, name);
    case Orgs => CleanOrgsDrain(config, w, f);
  }

  lemma CleanOrgsDrain(config: Config, w: World, f: Faults)
    requires Clean(f) && Drainable(Orgs, config, w)
    ensures Uninstall(Orgs, config, w, f).1.Succeeded() && NoOrgs(Uninstall(Orgs, config, w, f).0)
  {
    var w' := Uninstall(Orgs, config, w, f).0;
    forall id ensures id !in OrgMap(w') {
      assert id in OrgMap(w) ==> !BlockedOrg(w, config, id);
    }
    assert OrgMap(w') == map[];
  }

  lemma NoCommon<T>(a: set<T>, b: set<T>)
    ensures a !! b <==> |a * b| == 0
  {
    if x :| x in a && x in b {
      assert x in a * b;
    } else {
      assert a * b == {};
    }
  }

  lemma AbsentIsZero(inst: Installable, w: World)
    ensures Absent(inst, w) <==> LiveOf(inst, w) == 0
  {
    NoCommon(ObjectKeys(inst), w.objects.Keys);
    NoCommon(ReleaseNames(inst), H.ShownNames(w.releases));
  }

  lemma {:induction false} CleanPassBlocks(order: seq<Installable>, config: Config, w: World, faults: nat -> Faults, done: seq<Report>)
    requires |done| <= |order| && forall i :: Clean(faults(i))
    ensures SameBlocks(config, w, UninstallFrom(order, config, w, faults, done).0)
    ensures !UninstallFrom(order, config, w, faults, done).1.Broken?
    decreases |order| - |done|
  {
    var i := |done|;
    if i < |order| {
      var (w1, a) := Uninstall(order[i], config, w, faults(i));
      CleanUninstallBlocks(order[i], config, w, faults(i));
      if a.Succeeded() {
        CleanPassBlocks(order, config, w1, faults, done + [a.result]);
      }
    }
  }

  lemma {:induction false} CleanPassDrains(order: seq<Installable>, config: Config, w: World, faults: nat -> Faults, done: seq<Report>)
    requires |done| <= |order| && AllDrainable(order, config, w) && forall i :: Clean(faults(i))
    ensures Drains(order, config, w, faults, done)
    decreases |order| - |done|
  {
    var i := |done|;
    if i < |order| {
      var (w1, a) := Uninstall(order[i], config, w, faults(i));
      CleanUninstallDrains(order[i], config, w, faults(i));
      CleanUninstallBlocks(order[i], config, w, faults(i));
      if a.Succeeded() {
        SameBlocksSameDrainable(order, config, w, w1);
        CleanPassDrains(order, config, w1, faults, done + [a.result]);
      } else {
        AbsentIsZero(order[i], w);
        AbsentIsZero(order[i], w1);
      }
    }
  }

  ghost predicate CleanRounds(rounds: nat -> Round) {
    && (forall n, i :: Clean(rounds(n).faults(i)))
    && (forall n, w :: rounds(n).others(w) == w)
  }

  lemma {:induction false} CleanRoundsBlock(order: seq<Installable>, config: Config, w: World, rounds: nat -> Round, n: nat)
    requires CleanRounds(rounds)
    ensures SameBlocks(config, w, WorldBefore(order, config, w, rounds, n))
  {
    if n > 0 {
      CleanRoundsBlock(order, config, w, rounds, n - 1);
      CleanPassBlocks(order, config, WorldBefore(order, config, w, rounds, n - 1), rounds(n - 1).faults, []);
    }
  }

  /** A complete pass needs every component drainable. */
  lemma CompleteMeansDrainable(order: seq<Installable>, config: Config, w: World, faults: nat -> Faults)
    requires forall i :: Clean(faults(i))
    requires UninstallFrom(order, config, w, faults, []).1.Complete?
    ensures AllDrainable(order, config, w)
  {
    var w' := UninstallFrom(order, config, w, faults, []).0;
    CF.UninstallPassLeavesNothing(order, config, w, faults, []);
    forall inst | inst in order ensures Drainable(inst, config, w') { AbsentIsDrainable(inst, config, w'); }
    CleanPassBlocks(order, config, w, faults, []);
    SameBlocksSameDrainable(order, config, w, w');
  }

  lemma AbsentIsDrainable(inst: Installable, config: Config, w: World)
    requires Absent(inst, w)
    ensures Drainable(inst, config, w)
  {
    if HandlesOrgs(inst) {
      assert OrgMap(w) == map[];
    }
  }

  /** Left alone with a healthy cluster, uninstalling completes if and only if nothing is blocked, and
      then within the number of live resources, plus one; with anything blocked it never does. */
  lemma UninstallCompletesIff(order: seq<Installable>, config: Config, w: World, rounds: nat -> Round)
    requires CleanRounds(rounds)
    ensures AllDrainable(order, config, w) ==>
              exists n: nat :: n <= Live(order, w) && FirstComplete(order, config, w, rounds, n)
    ensures !AllDrainable(order, config, w) ==> forall n: nat :: !CompleteAt(order, config, w, rounds, n)
  {
    forall n: nat
      ensures AllDrainable(order, config, w) ==> DrainsAt(order, config, w, rounds, n)
      ensures OthersAddNothingAt(order, config, w, rounds, n)
      ensures CompleteAt(order, config, w, rounds, n) ==> AllDrainable(order, config, w)
    {
      var before := WorldBefore(order, config, w, rounds, n);
      CleanRoundsBlock(order, config, w, rounds, n);
      SameBlocksSameDrainable(order, config, w, before);
      if AllDrainable(order, config, w) {
        CleanPassDrains(order, config, before, rounds(n).faults, []);
      }
      if CompleteAt(order, config, w, rounds, n) {
        CompleteMeansDrainable(order, config, before, rounds(n).faults);
      }
    }
    if AllDrainable(order, config, w) {
      var n := UninstallTerminates(order, config, w, rounds);
    }
  }

  /** For one, a manifest object that something holds. */
  lemma HeldObjectBlocksForEver(d: Doc, config: Config, rounds: nat -> Round, n: nat)
    requires CleanRounds(rounds)
    ensures var w := World(map[d.key := Stored(d.body, 1, true, false)], map[], None);
            !CompleteAt([Yaml([d])], config, w, rounds, n)
  {
    var order, w := [Yaml([d])], World(map[d.key := Stored(d.body, 1, true, false)], map[], None);
    assert d in [d] && d.key in ObjectKeys(order[0]) && BlockedObject(w, d.key);
    assert order[0] in order && !Drainable(order[0], config, w);
    UninstallCompletesIff(order, config, w, rounds);
  }

  // ----- reconcile after reconcile -----

  /** One call of Reconcile: what it meets, and what others do to the world after it. */
  datatype Call = Call(env: R.Env, others: World -> World)

  /** The stored object and the world before the n-th call of Reconcile. */
  function Served(p: Params, o: Object, w: World, calls: nat -> Call, n: nat): (Option<Object>, World)
    requires ValidOrder(p.installOrder)
    decreases n, 0
  {
    if n == 0 then (Some(o), w) else
    var r := ReplyAt(p, o, w, calls, n - 1);
    (r.server, calls(n - 1).others(r.world))
  }

  function ReplyAt(p: Params, o: Object, w: World, calls: nat -> Call, n: nat): R.Reply
    requires ValidOrder(p.installOrder)
    decreases n, 1
  {
    var (server, world) := Served(p, o, w, calls, n);
    R.ReconcileOnce(p, server, world, calls(n).env)
  }

  lemma ServedNext(p: Params, o: Object, w: World, calls: nat -> Call, n: nat)
    requires ValidOrder(p.installOrder)
    ensures var served := Served(p, o, w, calls, n);
            var r := R.ReconcileOnce(p, served.0, served.1, calls(n).env);
            Served(p, o, w, calls, n + 1) == (r.server, calls(n).others(r.world))
  {
  }

  /** Nobody else writes the object during the call; any request may fail. */
  ghost predicate Unwatched(e: R.Env) {
    (forall s :: e.beforeMain(s) == s) && (forall s :: e.beforeStatus(s) == s)
  }

  /** The call reads the object, and its main patch is stored. */
  predicate StoresMain(e: R.Env) {
    e.getError.None? && !e.convertFails && !e.mainFails
  }

  predicate Fails(e: R.Env) {
    e.getError.Some? || e.convertFails || e.mainFails || e.statusFails || e.copyFails
  }

  /** A marked object on its way out: same configuration, same finalizers. */
  predicate SameDeletion(o: Object, o': Object) {
    o'.deleting && o'.status.config == o.status.config && o'.finalizers == o.finalizers
  }

  ghost predicate Deletion(o: Object) {
    o.deleting && FINALIZER in o.finalizers && o.status.config != ZERO_CONFIG
  }

  /** The object stays, and the queue is asked to come back: by an error exactly if the pass broke or a
      request failed. */
  predicate AsksToReturn(p: Params, o: Object, r: R.Reply, end: UninstallEnd, e: R.Env) {
    && r.server.Some? && SameDeletion(o, r.server.value)
    && (r.error.Some? <==> Fails(e) || end.Broken?)
    && (r.error.None? ==> r.result == After(p.interval))
  }

  lemma KeptCommit(o: Object, m: Object, e: R.Env)
    requires Unwatched(e) && o.finalizers != [] && m == o.(status := m.status)
    ensures var (s, failed) := R.Commit(Some(o), o, m, e);
            && (s == Some(o) || s == Some(m))
            && (failed.Some? <==> e.convertFails || e.mainFails || e.statusFails || e.copyFails)
  {
    A.MergeFromRead(o.status, m.status);
  }

  lemma UnstoredCommit(o: Object, m: Object, e: R.Env)
    requires Unwatched(e) && (e.convertFails || e.mainFails)
    ensures var (s, failed) := R.Commit(Some(o), o, m, e); s == Some(o) && failed.Some?
  {
  }

  lemma StoredCommit(o: Object, m: Object, e: R.Env)
    requires Unwatched(e) && o.deleting && m == o.(finalizers := m.finalizers, status := m.status)
    requires !e.convertFails && !e.mainFails && forall f :: f in m.finalizers ==> f in o.finalizers
    ensures var (s, failed) := R.Commit(Some(o), o, m, e);
            && (m.finalizers == [] ==> s.None? && failed == Some(R.STATUS_FAILED))
            && (m.finalizers != [] ==>
                  && s.Some? && s.value.finalizers == m.finalizers
                  && (failed.Some? <==> e.statusFails || e.copyFails))
  {
  }

  /** One call that does not finish: its pass is not complete, or the main patch is not stored. */
  lemma CallStays(p: Params, o: Object, w: World, e: R.Env)
    requires ValidOrder(p.installOrder) && Unwatched(e) && Deletion(o)
    requires !(StoresMain(e) && UninstallFrom(p.uninstallOrder, o.status.config, w, e.faults, []).1.Complete?)
    ensures var r := R.ReconcileOnce(p, Some(o), w, e);
            var (w', end) := UninstallFrom(p.uninstallOrder, o.status.config, w, e.faults, []);
            && r.world == (if e.getError.Some? then w else w')
            && AsksToReturn(p, o, r, end, e)
  {
    if e.getError.None? {
      var m := Body(p, o, w, e.lookups, e.now, e.faults).obj;
      R.BodyKeepsIdentity(p, o, w, e.lookups, e.now, e.faults);
      if StoresMain(e) { KeptCommit(o, m, e); } else { UnstoredCommit(o, m, e); }
    }
  }

  /** One call whose pass is complete and whose main patch is stored: the finalizer goes, and with the last
      finalizer the object. */
  lemma CallFinishes(p: Params, o: Object, w: World, e: R.Env)
    requires ValidOrder(p.installOrder) && Unwatched(e) && Deletion(o) && StoresMain(e)
    requires UninstallFrom(p.uninstallOrder, o.status.config, w, e.faults, []).1.Complete?
    ensures var r := R.ReconcileOnce(p, Some(o), w, e);
            var others := RemoveFinalizer(o.finalizers, FINALIZER);
            && (others == [] ==> r.server.None? && r.error == Some(R.STATUS_FAILED))
            && (others != [] ==> r.server.Some? && r.server.value.finalizers == others && (R.Dropped(r) <==> !Fails(e)))
  {
    var m := Body(p, o, w, e.lookups, e.now, e.faults).obj;
    R.BodyKeepsIdentity(p, o, w, e.lookups, e.now, e.faults);
    StoredCommit(o, m, e);
  }

  ghost predicate AllUnwatched(calls: nat -> Call) {
    forall i :: Unwatched(calls(i).env)
  }

  function PassAt(p: Params, o: Object, w: World, calls: nat -> Call, n: nat): (World, UninstallEnd)
    requires ValidOrder(p.installOrder)
  {
    UninstallFrom(p.uninstallOrder, o.status.config, Served(p, o, w, calls, n).1, calls(n).env.faults, [])
  }

  /** The n-th call makes a complete pass and stores its main patch. */
  predicate FinishesAt(p: Params, o: Object, w: World, calls: nat -> Call, n: nat)
    requires ValidOrder(p.installOrder)
  {
    StoresMain(calls(n).env) && PassAt(p, o, w, calls, n).1.Complete?
  }

  ghost predicate NoneFinishes(p: Params, o: Object, w: World, calls: nat -> Call, n: nat)
    requires ValidOrder(p.installOrder)
  {
    forall i: nat :: i < n ==> !FinishesAt(p, o, w, calls, i)
  }

  lemma {:induction false} DeletionStays(p: Params, o: Object, w: World, calls: nat -> Call, n: nat)
    requires ValidOrder(p.installOrder) && Deletion(o) && AllUnwatched(calls) && NoneFinishes(p, o, w, calls, n)
    ensures var server := Served(p, o, w, calls, n).0; server.Some? && SameDeletion(o, server.value)
  {
    if n > 0 {
      DeletionStays(p, o, w, calls, n - 1);
      var (server, world) := Served(p, o, w, calls, n - 1);
      assert !FinishesAt(p, o, w, calls, n - 1) && Unwatched(calls(n - 1).env);
      CallStays(p, server.value, world, calls(n - 1).env);
      ServedNext(p, o, w, calls, n - 1);
    }
  }

  /** The n-th call keeps the object and asks to be repeated. */
  predicate Waits(p: Params, o: Object, w: World, calls: nat -> Call, n: nat)
    requires ValidOrder(p.installOrder)
  {
    AsksToReturn(p, o, ReplyAt(p, o, w, calls, n), PassAt(p, o, w, calls, n).1, calls(n).env)
  }

  lemma WaitsUnlessFinished(p: Params, o: Object, w: World, calls: nat -> Call, n: nat)
    requires ValidOrder(p.installOrder) && Deletion(o) && AllUnwatched(calls) && NoneFinishes(p, o, w, calls, n + 1)
    ensures Waits(p, o, w, calls, n)
    ensures ReplyAt(p, o, w, calls, n).world ==
            if calls(n).env.getError.Some? then Served(p, o, w, calls, n).1 else PassAt(p, o, w, calls, n).0
  {
    DeletionStays(p, o, w, calls, n);
    var (server, world) := Served(p, o, w, calls, n);
    assert !FinishesAt(p, o, w, calls, n) && Unwatched(calls(n).env);
    CallStays(p, server.value, world, calls(n).env);
  }

  /** The n-th call ends the deletion: every call before it kept the object and asked to be repeated,
      this one takes the finalizer off, and if that was the last one the next call finds nothing. */
  ghost predicate EndsAt(p: Params, o: Object, w: World, calls: nat -> Call, n: nat)
    requires ValidOrder(p.installOrder)
  {
    var r := ReplyAt(p, o, w, calls, n);
    var others := RemoveFinalizer(o.finalizers, FINALIZER);
    && (forall i: nat :: i < n ==> Waits(p, o, w, calls, i))
    && (others != [] ==> r.server.Some? && r.server.value.finalizers == others && (R.Dropped(r) <==> !Fails(calls(n).env)))
    && (others == [] ==> r.server.None? && r.error == Some(R.STATUS_FAILED) && FindsNothing(p, o, w, calls, n + 1))
  }

  predicate FindsNothing(p: Params, o: Object, w: World, calls: nat -> Call, n: nat)
    requires ValidOrder(p.installOrder)
  {
    ReplyAt(p, o, w, calls, n) == R.Reply(None, Served(p, o, w, calls, n).1, EMPTY, calls(n).env.getError)
  }

  lemma EndsWhereFinished(p: Params, o: Object, w: World, calls: nat -> Call, n: nat)
    requires ValidOrder(p.installOrder) && Deletion(o) && AllUnwatched(calls)
    requires NoneFinishes(p, o, w, calls, n) && FinishesAt(p, o, w, calls, n)
    ensures EndsAt(p, o, w, calls, n)
  {
    forall i: nat | i < n ensures Waits(p, o, w, calls, i) { WaitsUnlessFinished(p, o, w, calls, i); }
    DeletionStays(p, o, w, calls, n);
    var (server, world) := Served(p, o, w, calls, n);
    assert Unwatched(calls(n).env);
    CallFinishes(p, server.value, world, calls(n).env);
    ServedNext(p, o, w, calls, n);
  }

  // ----- how long it takes -----

  /** How many of the first `n` calls store their main patch. */
  function Storing(calls: nat -> Call, n: nat): nat {
    if n == 0 then 0 else Storing(calls, n - 1) + if StoresMain(calls(n - 1).env) then 1 else 0
  }

  lemma {:induction false} AllStoring(calls: nat -> Call, n: nat)
    requires forall i: nat :: i < n ==> StoresMain(calls(i).env)
    ensures Storing(calls, n) == n
  {
    if n > 0 {
      AllStoring(calls, n - 1);
      assert StoresMain(calls(n - 1).env);
    }
  }

  /** The component at which the pass of the n-th call stops, if there is a pass, has lost something in it; and
      after the call others add no more to the components than they take away. */
  ghost predicate DrainsInCall(p: Params, o: Object, w: World, calls: nat -> Call, n: nat)
    requires ValidOrder(p.installOrder)
  {
    && (calls(n).env.getError.None? ==>
          Drains(p.uninstallOrder, o.status.config, Served(p, o, w, calls, n).1, calls(n).env.faults, []))
    && Live(p.uninstallOrder, Served(p, o, w, calls, n + 1).1) <= Live(p.uninstallOrder, ReplyAt(p, o, w, calls, n).world)
  }

  ghost predicate AllDrain(p: Params, o: Object, w: World, calls: nat -> Call, n: nat)
    requires ValidOrder(p.installOrder)
  {
    forall i: nat :: i < n ==> DrainsInCall(p, o, w, calls, i)
  }

  /** Each main patch stored so far has cost a live resource. */
  predicate Drained(p: Params, o: Object, w: World, calls: nat -> Call, n: nat)
    requires ValidOrder(p.installOrder)
  {
    Live(p.uninstallOrder, Served(p, o, w, calls, n).1) + Storing(calls, n) <= Live(p.uninstallOrder, w)
  }

  lemma DrainedAtFirst(p: Params, o: Object, w: World, calls: nat -> Call)
    requires ValidOrder(p.installOrder)
    ensures Drained(p, o, w, calls, 0)
  {
  }

  lemma DrainedNext(p: Params, o: Object, w: World, calls: nat -> Call, n: nat)
    requires ValidOrder(p.installOrder) && Deletion(o) && AllUnwatched(calls) && NoneFinishes(p, o, w, calls, n + 1)
    requires AllDrain(p, o, w, calls, n + 1) && Drained(p, o, w, calls, n)
    ensures Drained(p, o, w, calls, n + 1)
  {
    CallDrains(p, o, w, calls, n);
  }

  lemma CallDrains(p: Params, o: Object, w: World, calls: nat -> Call, n: nat)
    requires ValidOrder(p.installOrder) && Deletion(o) && AllUnwatched(calls) && NoneFinishes(p, o, w, calls, n + 1)
    requires DrainsInCall(p, o, w, calls, n)
    ensures var before, after := Served(p, o, w, calls, n).1, Served(p, o, w, calls, n + 1).1;
            && Live(p.uninstallOrder, after) <= Live(p.uninstallOrder, before)
            && (StoresMain(calls(n).env) ==> Live(p.uninstallOrder, after) < Live(p.uninstallOrder, before))
  {
    WaitsUnlessFinished(p, o, w, calls, n);
    if calls(n).env.getError.None? {
      var before := Served(p, o, w, calls, n).1;
      PassShrinksLive(p.uninstallOrder, o.status.config, before, calls(n).env.faults, []);
      ShrunkOrderIsSmaller(p.uninstallOrder, before, PassAt(p, o, w, calls, n).0, |p.uninstallOrder|);
      assert !FinishesAt(p, o, w, calls, n);
    }
  }

  lemma {:induction false} StoringDrains(p: Params, o: Object, w: World, calls: nat -> Call, n: nat)
    requires ValidOrder(p.installOrder) && Deletion(o) && AllUnwatched(calls) && NoneFinishes(p, o, w, calls, n)
    requires AllDrain(p, o, w, calls, n)
    ensures Drained(p, o, w, calls, n)
  {
    if n == 0 {
      DrainedAtFirst(p, o, w, calls);
    } else {
      StoringDrains(p, o, w, calls, n - 1);
      DrainedNext(p, o, w, calls, n - 1);
    }
  }

  /** Whatever the installables answer and whatever requests fail: if the component at which a pass stops has
      lost something in it, a deleted object with a committed configuration loses its finalizer, at the
      first complete pass whose main patch is stored. That comes before more main patches are stored than
      there were live resources, plus one. */
  lemma DeletionTerminates(p: Params, o: Object, w: World, calls: nat -> Call, bound: nat) returns (n: nat)
    requires ValidOrder(p.installOrder) && Deletion(o) && AllUnwatched(calls)
    requires AllDrain(p, o, w, calls, bound)
    requires Storing(calls, bound) > Live(p.uninstallOrder, w)
    ensures n < bound && FinishesAt(p, o, w, calls, n) && NoneFinishes(p, o, w, calls, n) && EndsAt(p, o, w, calls, n)
  {
    var finishes := (i: nat) => FinishesAt(p, o, w, calls, i);
    n := FirstWhere(finishes, bound - 1);
    forall i: nat | i < n ensures !FinishesAt(p, o, w, calls, i) { assert !finishes(i); }
    if n == bound {
      StoringDrains(p, o, w, calls, bound);
      assert false;
    }
    EndsWhereFinished(p, o, w, calls, n);
  }

  /** If every main patch is stored, that is within as many calls as there were live resources, plus one. */
  lemma DeletionTerminatesSoon(p: Params, o: Object, w: World, calls: nat -> Call) returns (n: nat)
    requires ValidOrder(p.installOrder) && Deletion(o) && AllUnwatched(calls)
    requires AllDrain(p, o, w, calls, Live(p.uninstallOrder, w) + 1)
    requires forall i: nat :: i <= Live(p.uninstallOrder, w) ==> StoresMain(calls(i).env)
    ensures n <= Live(p.uninstallOrder, w) && EndsAt(p, o, w, calls, n)
  {
    AllStoring(calls, Live(p.uninstallOrder, w) + 1);
    n := DeletionTerminates(p, o, w, calls, Live(p.uninstallOrder, w) + 1);
  }

  // ----- left alone -----

  ghost predicate CleanCall(c: Call) {
    R.Undisturbed(c.env) && (forall i :: Clean(c.env.faults(i))) && (forall w :: c.others(w) == w)
  }

  function RoundsOf(calls: nat -> Call): nat -> Round {
    (n: nat) => Round(calls(n).env.faults, calls(n).others)
  }

  lemma CleanCallsAreCleanRounds(calls: nat -> Call)
    requires forall i :: CleanCall(calls(i))
    ensures AllUnwatched(calls) && CleanRounds(RoundsOf(calls)) && forall i: nat :: !Fails(calls(i).env)
  {
    var rounds := RoundsOf(calls);
    forall n, i ensures Clean(rounds(n).faults(i)) { assert CleanCall(calls(n)); }
    forall n, w ensures rounds(n).others(w) == w { assert CleanCall(calls(n)); }
    forall n ensures Unwatched(calls(n).env) && !Fails(calls(n).env) { assert CleanCall(calls(n)); }
  }

  lemma {:induction false} ServedMatchesPasses(p: Params, o: Object, w: World, calls: nat -> Call, n: nat)
    requires ValidOrder(p.installOrder) && Deletion(o) && AllUnwatched(calls) && NoneFinishes(p, o, w, calls, n)
    requires forall i: nat :: !Fails(calls(i).env)
    ensures MatchesPasses(p, o, w, calls, n)
  {
    if n == 0 {
      MatchesAtFirst(p, o, w, calls);
    } else {
      ServedMatchesPasses(p, o, w, calls, n - 1);
      MatchesNext(p, o, w, calls, n - 1);
    }
  }

  predicate MatchesPasses(p: Params, o: Object, w: World, calls: nat -> Call, n: nat)
    requires ValidOrder(p.installOrder)
  {
    Served(p, o, w, calls, n).1 == WorldBefore(p.uninstallOrder, o.status.config, w, RoundsOf(calls), n)
  }

  lemma MatchesAtFirst(p: Params, o: Object, w: World, calls: nat -> Call)
    requires ValidOrder(p.installOrder)
    ensures MatchesPasses(p, o, w, calls, 0)
  {
  }

  lemma MatchesNext(p: Params, o: Object, w: World, calls: nat -> Call, n: nat)
    requires ValidOrder(p.installOrder) && Deletion(o) && AllUnwatched(calls) && NoneFinishes(p, o, w, calls, n + 1)
    requires forall i: nat :: !Fails(calls(i).env)
    requires MatchesPasses(p, o, w, calls, n)
    ensures MatchesPasses(p, o, w, calls, n + 1)
  {
    ServedAfterPass(p, o, w, calls, n);
    WorldBeforeNext(p.uninstallOrder, o.status.config, w, RoundsOf(calls), n);
  }

  lemma ServedAfterPass(p: Params, o: Object, w: World, calls: nat -> Call, n: nat)
    requires ValidOrder(p.installOrder) && Deletion(o) && AllUnwatched(calls) && NoneFinishes(p, o, w, calls, n + 1)
    requires !Fails(calls(n).env)
    ensures Served(p, o, w, calls, n + 1).1 == calls(n).others(PassAt(p, o, w, calls, n).0)
  {
    WaitsUnlessFinished(p, o, w, calls, n);
    ServedNext(p, o, w, calls, n);
  }

  lemma WorldBeforeNext(order: seq<Installable>, config: Config, w: World, rounds: nat -> Round, n: nat)
    ensures WorldBefore(order, config, w, rounds, n + 1) ==
            rounds(n).others(UninstallFrom(order, config, WorldBefore(order, config, w, rounds, n), rounds(n).faults, []).0)
  {
  }

  /** While no call finishes, passes and calls agree. */
  lemma FinishesWithPass(p: Params, o: Object, w: World, calls: nat -> Call, n: nat)
    requires ValidOrder(p.installOrder) && Deletion(o) && AllUnwatched(calls) && NoneFinishes(p, o, w, calls, n)
    requires forall i: nat :: !Fails(calls(i).env)
    ensures PassAt(p, o, w, calls, n).1 == EndOf(p.uninstallOrder, o.status.config, w, RoundsOf(calls), n)
    ensures FinishesAt(p, o, w, calls, n) <==> CompleteAt(p.uninstallOrder, o.status.config, w, RoundsOf(calls), n)
  {
    ServedMatchesPasses(p, o, w, calls, n);
    assert !Fails(calls(n).env);
  }

  lemma {:induction false} NoneFinishesWithPasses(p: Params, o: Object, w: World, calls: nat -> Call, n: nat)
    requires ValidOrder(p.installOrder) && Deletion(o) && AllUnwatched(calls)
    requires forall i: nat :: !Fails(calls(i).env)
    requires forall i: nat :: i < n ==> !CompleteAt(p.uninstallOrder, o.status.config, w, RoundsOf(calls), i)
    ensures NoneFinishes(p, o, w, calls, n)
  {
    if n > 0 {
      NoneFinishesWithPasses(p, o, w, calls, n - 1);
      FinishesWithPass(p, o, w, calls, n - 1);
    }
  }

  predicate WaitsQuietly(p: Params, o: Object, w: World, calls: nat -> Call, n: nat)
    requires ValidOrder(p.installOrder)
  {
    Waits(p, o, w, calls, n) && ReplyAt(p, o, w, calls, n).error.None?
  }

  ghost predicate EndsQuietlyAt(p: Params, o: Object, w: World, calls: nat -> Call, n: nat)
    requires ValidOrder(p.installOrder)
  {
    EndsAt(p, o, w, calls, n) && forall i: nat :: i < n ==> WaitsQuietly(p, o, w, calls, i)
  }

  lemma CleanCallWaits(p: Params, o: Object, w: World, calls: nat -> Call, n: nat)
    requires ValidOrder(p.installOrder) && Deletion(o) && NoneFinishes(p, o, w, calls, n + 1)
    requires forall i :: CleanCall(calls(i))
    ensures WaitsQuietly(p, o, w, calls, n)
  {
    CleanCallsAreCleanRounds(calls);
    WaitsUnlessFinished(p, o, w, calls, n);
    assert CleanCall(calls(n));
    CleanPassBlocks(p.uninstallOrder, o.status.config, Served(p, o, w, calls, n).1, calls(n).env.faults, []);
  }

  lemma DrainableDeletionEnds(p: Params, o: Object, w: World, calls: nat -> Call) returns (n: nat)
    requires ValidOrder(p.installOrder) && Deletion(o) && forall i :: CleanCall(calls(i))
    requires AllDrainable(p.uninstallOrder, o.status.config, w)
    ensures n <= Live(p.uninstallOrder, w) && EndsQuietlyAt(p, o, w, calls, n)
  {
    var order, config, rounds := p.uninstallOrder, o.status.config, RoundsOf(calls);
    CleanCallsAreCleanRounds(calls);
    UninstallCompletesIff(order, config, w, rounds);
    n :| n <= Live(order, w) && FirstComplete(order, config, w, rounds, n);
    NoneFinishesWithPasses(p, o, w, calls, n);
    FinishesWithPass(p, o, w, calls, n);
    EndsWhereFinished(p, o, w, calls, n);
    forall i: nat | i < n ensures WaitsQuietly(p, o, w, calls, i) { CleanCallWaits(p, o, w, calls, i); }
  }

  lemma BlockedDeletionWaits(p: Params, o: Object, w: World, calls: nat -> Call, n: nat)
    requires ValidOrder(p.installOrder) && Deletion(o) && forall i :: CleanCall(calls(i))
    requires !AllDrainable(p.uninstallOrder, o.status.config, w)
    ensures WaitsQuietly(p, o, w, calls, n)
  {
    CleanCallsAreCleanRounds(calls);
    UninstallCompletesIff(p.uninstallOrder, o.status.config, w, RoundsOf(calls));
    NoneFinishesWithPasses(p, o, w, calls, n + 1);
    CleanCallWaits(p, o, w, calls, n);
  }

  /** Left alone with a healthy cluster, a deleted object with a committed configuration loses its
      finalizer if and only if nothing is blocked, after at most as many calls as there were live
      resources, plus one; otherwise every call there will ever be asks for another. None does so by an error. */
  lemma DeletionEndsIff(p: Params, o: Object, w: World, calls: nat -> Call)
    requires ValidOrder(p.installOrder) && Deletion(o) && forall i :: CleanCall(calls(i))
    ensures AllDrainable(p.uninstallOrder, o.status.config, w) ==>
              exists n: nat :: n <= Live(p.uninstallOrder, w) && EndsQuietlyAt(p, o, w, calls, n)
    ensures !AllDrainable(p.uninstallOrder, o.status.config, w) ==>
              forall n: nat :: WaitsQuietly(p, o, w, calls, n)
  {
    if AllDrainable(p.uninstallOrder, o.status.config, w) {
      var n := DrainableDeletionEnds(p, o, w, calls);
    } else {
      forall n: nat ensures WaitsQuietly(p, o, w, calls, n) { BlockedDeletionWaits(p, o, w, calls, n); }
    }
  }
}
