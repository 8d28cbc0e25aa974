/** The broker's catalogue (`components/btp-service-broker/btp/broker.go`): offerings joined with their plans. */
module Catalogue {
  import opened Prelude

  /** A raw JSON member: missing, readable, or not. */
  datatype Raw = Missing | Readable(text: string) | Malformed(message: string)

  datatype Plan = Plan(id: string, name: string, description: string, free: bool, bindable: bool,
                       offeringID: string, metadata: Raw)

  datatype Offering = Offering(id: string, name: string, description: string, bindable: bool, updatable: bool,
                               tags: Raw, metadata: Raw, permissions: Raw)

  datatype ServicePlan = ServicePlan(id: string, name: string, description: string, free: bool, bindable: bool,
                                     metadata: Option<string>)

  datatype Service = Service(id: string, name: string, description: string, bindable: bool, updatable: bool,
                             tags: string, plans: seq<ServicePlan>, permissions: string, metadata: Option<string>)

  function Unmarshal(raw: Raw): Result<Option<string>> {
    match raw
    case Missing => Ok(None)
    case Readable(t) => Ok(Some(t))
    case Malformed(m) => Err(m)
  }

  function ZeroIfNil(text: Option<string>): string {
    if text.Some? then text.value else ""
  }

  function ToPlan(p: Plan): Result<ServicePlan> {
    match Unmarshal(p.metadata)
    case Err(m) => Err(m)
    case Ok(metadata) => Ok(ServicePlan(p.id, p.name, p.description, p.free, p.bindable, metadata))
  }

  function PlansFor(offeringID: string, plans: seq<Plan>): seq<Plan> {
    if plans == [] then []
    else (if plans[0].offeringID == offeringID then [plans[0]] else []) + PlansFor(offeringID, plans[1..])
  }

  /** Mapping stops at the first error. */
  function TryMap<A, B>(f: A -> Result<B>, xs: seq<A>): Result<seq<B>> {
    if xs == [] then Ok([])
    else match f(xs[0])
         case Err(m) => Err(m)
         case Ok(y) => match TryMap(f, xs[1..])
                       case Err(m) => Err(m)
                       case Ok(ys) => Ok([y] + ys)
  }

  function SelectPlansForOffering(offeringID: string, plans: seq<Plan>): Result<seq<ServicePlan>> {
    TryMap(ToPlan, PlansFor(offeringID, plans))
  }

  function ToService(plans: seq<Plan>, o: Offering): Result<Service> {
    if Unmarshal(o.tags).Err? then Err(Unmarshal(o.tags).message)
    else if Unmarshal(o.metadata).Err? then Err(Unmarshal(o.metadata).message)
    else if SelectPlansForOffering(o.id, plans).Err? then Err(SelectPlansForOffering(o.id, plans).message)
    else if Unmarshal(o.permissions).Err? then Err(Unmarshal(o.permissions).message)
    else Ok(Service(o.id, o.name, o.description, o.bindable, o.updatable, ZeroIfNil(Unmarshal(o.tags).value),
                    SelectPlansForOffering(o.id, plans).value, ZeroIfNil(Unmarshal(o.permissions).value),
                    Unmarshal(o.metadata).value))
  }

  function Services(offerings: Result<seq<Offering>>, plans: Result<seq<Plan>>): Result<seq<Service>> {
    if offerings.Err? then Err(offerings.message)
    else if plans.Err? then Err(plans.message)
    else TryMap((o: Offering) => ToService(plans.value, o), offerings.value)
  }

  // ----- lookups -----

  function PlanAt(plans: seq<Plan>, id: string): Option<Plan> {
    if plans == [] then None else if plans[0].id == id then Some(plans[0]) else PlanAt(plans[1..], id)
  }

  function OfferingAt(offerings: seq<Offering>, id: string): Option<Offering> {
    if offerings == [] then None else if offerings[0].id == id then Some(offerings[0]) else OfferingAt(offerings[1..], id)
  }

  function PlanByID(plans: Result<seq<Plan>>, id: string): (r: Result<Plan>)
    ensures r.Ok? ==> r.value.id == id
  {
    if plans.Err? then Err(plans.message)
    else match PlanAt(plans.value, id)
         case None => Err("plan not found")
         case Some(p) => PlanAtHas(plans.value, id); Ok(p)
  }

  function OfferingByID(offerings: Result<seq<Offering>>, id: string): (r: Result<Offering>)
    ensures r.Ok? ==> r.value.id == id
  {
    if offerings.Err? then Err(offerings.message)
    else match OfferingAt(offerings.value, id)
         case None => Err("offering not found")
         case Some(o) => OfferingAtHas(offerings.value, id); Ok(o)
  }

  predicate IsFirstOffering(offerings: seq<Offering>, id: string, i: int) {
    0 <= i < |offerings| && offerings[i].id == id && forall j :: 0 <= j < i ==> offerings[j].id != id
  }

  /** The first offering with the id, if any has it. */
  lemma {:induction false} OfferingAtIsFirst(offerings: seq<Offering>, id: string)
    ensures OfferingAt(offerings, id).None? <==> forall x :: x in offerings ==> x.id != id
    ensures OfferingAt(offerings, id).Some? ==> exists i :: IsFirstOffering(offerings, id, i) && OfferingAt(offerings, id) == Some(offerings[i])
  {
    if offerings != [] {
      OfferingAtIsFirst(offerings[1..], id);
      if offerings[0].id == id {
        assert IsFirstOffering(offerings, id, 0);
      } else if OfferingAt(offerings[1..], id).Some? {
        var i :| IsFirstOffering(offerings[1..], id, i) && OfferingAt(offerings[1..], id) == Some(offerings[1..][i]);
        assert IsFirstOffering(offerings, id, i + 1);
      }
    }
  }

  lemma {:induction false} OfferingAtHas(offerings: seq<Offering>, id: string)
    ensures OfferingAt(offerings, id).Some? ==> OfferingAt(offerings, id).value.id == id
  {
    if offerings != [] { OfferingAtHas(offerings[1..], id); }
  }

  predicate IsFirstPlan(plans: seq<Plan>, id: string, i: int) {
    0 <= i < |plans| && plans[i].id == id && forall j :: 0 <= j < i ==> plans[j].id != id
  }

  /** The first plan with the id, if any has it. */
  lemma {:induction false} PlanAtIsFirst(plans: seq<Plan>, id: string)
    ensures PlanAt(plans, id).None? <==> forall x :: x in plans ==> x.id != id
    ensures PlanAt(plans, id).Some? ==> exists i :: IsFirstPlan(plans, id, i) && PlanAt(plans, id) == Some(plans[i])
  {
    if plans != [] {
      PlanAtIsFirst(plans[1..], id);
      if plans[0].id == id {
        assert IsFirstPlan(plans, id, 0);
      } else if PlanAt(plans[1..], id).Some? {
        var i :| IsFirstPlan(plans[1..], id, i) && PlanAt(plans[1..], id) == Some(plans[1..][i]);
        assert IsFirstPlan(plans, id, i + 1);
      }
    }
  }

  lemma {:induction false} PlanAtHas(plans: seq<Plan>, id: string)
    ensures PlanAt(plans, id).Some? ==> PlanAt(plans, id).value.id == id
  {
    if plans != [] { PlanAtHas(plans[1..], id); }
  }

  method GetPlanByID(plans: Result<seq<Plan>>, id: string) returns (r: Result<Plan>)
    ensures r == PlanByID(plans, id)
    ensures plans.Err? ==> r == Err(plans.message)
    ensures plans.Ok? && r.Ok? ==> exists i :: IsFirstPlan(plans.value, id, i) && r.value == plans.value[i]
    ensures plans.Ok? && r.Err? ==> r.message == "plan not found" && forall x :: x in plans.value ==> x.id != id
  {
    if plans.Err? {
      return Err(plans.message);
    }
    PlanAtIsFirst(plans.value, id);
    for i := 0 to |plans.value|
      invariant PlanAt(plans.value, id) == PlanAt(plans.value[i..], id)
    {
      var plan := plans.value[i];
      if plan.id == id {
        return Ok(plan);
      }
      assert plans.value[i..][1..] == plans.value[i + 1..];
    }
    r := Err("plan not found");
  }

  method GetOfferingByID(offerings: Result<seq<Offering>>, id: string) returns (r: Result<Offering>)
    ensures r == OfferingByID(offerings, id)
    ensures offerings.Err? ==> r == Err(offerings.message)
    ensures offerings.Ok? && r.Ok? ==> exists i :: IsFirstOffering(offerings.value, id, i) && r.value == offerings.value[i]
    ensures offerings.Ok? && r.Err? ==> r.message == "offering not found" && forall x :: x in offerings.value ==> x.id != id
  {
    if offerings.Err? {
      return Err(offerings.message);
    }
    OfferingAtIsFirst(offerings.value, id);
    for i := 0 to |offerings.value|
      invariant OfferingAt(offerings.value, id) == OfferingAt(offerings.value[i..], id)
    {
      var offering := offerings.value[i];
      if offering.id == id {
        return Ok(offering);
      }
      assert offerings.value[i..][1..] == offerings.value[i + 1..];
    }
    r := Err("offering not found");
  }

  // ----- the join conserves plans -----

  /** A plan as the catalogue shows it. */
  function Shown(p: Plan): ServicePlan {
    ServicePlan(p.id, p.name, p.description, p.free, p.bindable, if p.metadata.Readable? then Some(p.metadata.text) else None)
  }

  function AllShown(plans: seq<Plan>): seq<ServicePlan> {
    seq(|plans|, i requires 0 <= i < |plans| => Shown(plans[i]))
  }

  lemma {:induction false} TryMapAll<A, B>(f: A -> Result<B>, xs: seq<A>)
    ensures TryMap(f, xs).Ok? <==> forall i :: 0 <= i < |xs| ==> f(xs[i]).Ok?
    ensures TryMap(f, xs).Ok? ==>
              |TryMap(f, xs).value| == |xs| && forall i :: 0 <= i < |xs| ==> f(xs[i]) == Ok(TryMap(f, xs).value[i])
  {
    if xs != [] {
      TryMapAll(f, xs[1..]);
      forall i | 0 < i < |xs| ensures xs[i] == xs[1..][i - 1] { }
      assert f(xs[0]).Ok? && TryMap(f, xs[1..]).Ok? ==> f(xs[0]) == Ok(TryMap(f, xs).value[0]);
      assert (forall i :: 0 <= i < |xs| ==> f(xs[i]).Ok?) ==> forall i :: 0 <= i < |xs[1..]| ==> f(xs[1..][i]).Ok?;
    }
  }

  lemma SelectedPlans(offeringID: string, plans: seq<Plan>)
    ensures var r := SelectPlansForOffering(offeringID, plans);
            && (r.Ok? <==> forall p :: p in PlansFor(offeringID, plans) ==> !p.metadata.Malformed?)
            && (r.Ok? ==> r.value == AllShown(PlansFor(offeringID, plans)))
  {
    TryMapAll(ToPlan, PlansFor(offeringID, plans));
    var r := SelectPlansForOffering(offeringID, plans);
    var chosen := PlansFor(offeringID, plans);
    if r.Ok? {
      forall i | 0 <= i < |chosen| ensures r.value[i] == Shown(chosen[i]) {
        assert ToPlan(chosen[i]) == Ok(r.value[i]);
      }
    }
  }

  lemma {:induction false} PlansForExactly(offeringID: string, plans: seq<Plan>)
    ensures forall p :: p in PlansFor(offeringID, plans) <==> p in plans && p.offeringID == offeringID
  {
    if plans != [] { PlansForExactly(offeringID, plans[1..]); }
  }

  /** In the order in which they are listed: the plan at each position of the selection comes from a later position
      of the list than the ones before it. */
  lemma {:induction false} PlansForInOrder(offeringID: string, plans: seq<Plan>) returns (at: seq<int>)
    ensures |at| == |PlansFor(offeringID, plans)|
    ensures forall i :: 0 <= i < |at| ==> 0 <= at[i] < |plans| && PlansFor(offeringID, plans)[i] == plans[at[i]]
    ensures forall i, j :: 0 <= i < j < |at| ==> at[i] < at[j]
  {
    if plans == [] {
      at := [];
    } else {
      var rest := PlansForInOrder(offeringID, plans[1..]);
      var later := seq(|rest|, i requires 0 <= i < |rest| => rest[i] + 1);
      at := (if plans[0].offeringID == offeringID then [0] else []) + later;
    }
  }

  // ----- which error is reported -----

  function Unreadable(raw: Raw): Option<string> {
    if raw.Malformed? then Some(raw.message) else None
  }

  /** Of the plans of one offering, in their order. */
  function PlanErrors(offeringID: string, plans: seq<Plan>): seq<Option<string>> {
    seq(|plans|, i requires 0 <= i < |plans| => Only(plans[i].offeringID == offeringID, Unreadable(plans[i].metadata)))
  }

  function OfferingError(plans: seq<Plan>, o: Offering): Option<string> {
    First([Unreadable(o.tags), Unreadable(o.metadata), First(PlanErrors(o.id, plans)), Unreadable(o.permissions)])
  }

  function OfferingErrors(offerings: seq<Offering>, plans: seq<Plan>): seq<Option<string>> {
    seq(|offerings|, i requires 0 <= i < |offerings| => OfferingError(plans, offerings[i]))
  }

  lemma {:induction false} SelectedError(offeringID: string, plans: seq<Plan>)
    ensures ErrorOf(SelectPlansForOffering(offeringID, plans)) == First(PlanErrors(offeringID, plans))
  {
    if plans != [] {
      SelectedError(offeringID, plans[1..]);
      assert PlanErrors(offeringID, plans)[1..] == PlanErrors(offeringID, plans[1..]);
      if plans[0].offeringID == offeringID {
        assert PlansFor(offeringID, plans)[1..] == PlansFor(offeringID, plans[1..]);
      } else {
        assert PlansFor(offeringID, plans) == PlansFor(offeringID, plans[1..]);
      }
    }
  }

  lemma ServiceError(plans: seq<Plan>, o: Offering)
    ensures ErrorOf(ToService(plans, o)) == OfferingError(plans, o)
  {
    SelectedError(o.id, plans);
    FourErrors(Unreadable(o.tags), Unreadable(o.metadata), First(PlanErrors(o.id, plans)), Unreadable(o.permissions));
  }

  lemma {:induction false} MappedError(offerings: seq<Offering>, plans: seq<Plan>, f: Offering -> Result<Service>)
    requires forall o :: f(o) == ToService(plans, o)
    ensures ErrorOf(TryMap(f, offerings)) == First(OfferingErrors(offerings, plans))
  {
    if offerings != [] {
      MappedError(offerings[1..], plans, f);
      ServiceError(plans, offerings[0]);
      assert OfferingErrors(offerings, plans)[1..] == OfferingErrors(offerings[1..], plans);
    }
  }

  /** The catalogue fails with the first error in the order: the offerings, the plans, and then offering after
      offering its tags, its metadata, its plans in their order, and its permissions. */
  lemma CatalogueError(offerings: Result<seq<Offering>>, plans: Result<seq<Plan>>)
    ensures ErrorOf(Services(offerings, plans)) ==
            if offerings.Err? then Some(offerings.message)
            else if plans.Err? then Some(plans.message)
            else First(OfferingErrors(offerings.value, plans.value))
  {
    if offerings.Ok? && plans.Ok? {
      MappedError(offerings.value, plans.value, (o: Offering) => ToService(plans.value, o));
    }
  }

  // ----- what is shown -----

  /** The service says about itself what the offering says. */
  predicate Heads(s: Service, o: Offering) {
    && s.id == o.id && s.name == o.name && s.description == o.description
    && s.bindable == o.bindable && s.updatable == o.updatable
    && (o.tags.Readable? ==> s.tags == o.tags.text) && (o.tags.Missing? ==> s.tags == "")
    && (o.permissions.Readable? ==> s.permissions == o.permissions.text) && (o.permissions.Missing? ==> s.permissions == "")
    && s.metadata == if o.metadata.Readable? then Some(o.metadata.text) else None
  }

  predicate GoodOffering(o: Offering) {
    !o.tags.Malformed? && !o.metadata.Malformed? && !o.permissions.Malformed?
  }

  lemma ServiceIsJoin(plans: seq<Plan>, o: Offering)
    ensures var r := ToService(plans, o);
            && (r.Ok? <==> GoodOffering(o) && forall p :: p in plans && p.offeringID == o.id ==> !p.metadata.Malformed?)
            && (r.Ok? ==> Heads(r.value, o) && r.value.plans == AllShown(PlansFor(o.id, plans)))
  {
    SelectedPlans(o.id, plans);
    PlansForExactly(o.id, plans);
  }

  lemma ServicesMap(offerings: seq<Offering>, plans: seq<Plan>)
    ensures var r := Services(Ok(offerings), Ok(plans));
            && (r.Ok? <==> forall o :: o in offerings ==> ToService(plans, o).Ok?)
            && (r.Ok? ==> |r.value| == |offerings|
                          && forall i :: 0 <= i < |r.value| ==> ToService(plans, offerings[i]) == Ok(r.value[i]))
  {
    var f := (o: Offering) => ToService(plans, o);
    TryMapAll(f, offerings);
    var r := Services(Ok(offerings), Ok(plans));
    if r.Ok? {
      forall i | 0 <= i < |r.value| ensures ToService(plans, offerings[i]) == Ok(r.value[i]) {
        assert f(offerings[i]) == Ok(r.value[i]);
      }
    }
    forall i | 0 <= i < |offerings| ensures f(offerings[i]) == ToService(plans, offerings[i]) { }
  }

  /** The catalogue exists exactly if both lists were read and everything shown can be unmarshalled; a
      plan without an offering may be malformed. Each offering then gets one service, in order, with
      exactly its own plans, in order. */
  lemma CatalogueIsJoin(offerings: Result<seq<Offering>>, plans: Result<seq<Plan>>)
    ensures var r := Services(offerings, plans);
            && (r.Ok? <==>
                  && offerings.Ok? && plans.Ok?
                  && (forall o :: o in offerings.value ==> GoodOffering(o))
                  && (forall o, p :: o in offerings.value && p in plans.value && p.offeringID == o.id ==>
                        !p.metadata.Malformed?))
            && (r.Ok? ==>
                  && |r.value| == |offerings.value|
                  && forall i :: 0 <= i < |r.value| ==>
                       && Heads(r.value[i], offerings.value[i])
                       && r.value[i].plans == AllShown(PlansFor(offerings.value[i].id, plans.value)))
  {
    if offerings.Ok? && plans.Ok? {
      forall o { ServiceIsJoin(plans.value, o); }
      ServicesMap(offerings.value, plans.value);
    }
  }

  function Ids(offerings: seq<Offering>): seq<string> {
    seq(|offerings|, i requires 0 <= i < |offerings| => offerings[i].id)
  }

  function Count(ids: seq<string>, id: string): nat {
    multiset(ids)[id]
  }

  /** Every plan as often as its offering is listed. */
  function Copies(ids: seq<string>, plans: seq<Plan>): multiset<ServicePlan> {
    if plans == [] then multiset{}
    else multiset{}[Shown(plans[0]) := Count(ids, plans[0].offeringID)] + Copies(ids, plans[1..])
  }

  function AllPlans(services: seq<Service>): seq<ServicePlan> {
    if services == [] then [] else services[0].plans + AllPlans(services[1..])
  }

  lemma {:induction false} NoIdsNoCopies(plans: seq<Plan>)
    ensures Copies([], plans) == multiset{}
  {
    if plans != [] { NoIdsNoCopies(plans[1..]); }
  }

  function Offered(ids: seq<string>, plans: seq<Plan>): seq<Plan> {
    if plans == [] then []
    else (if plans[0].offeringID in ids then [plans[0]] else []) + Offered(ids, plans[1..])
  }

  lemma ShownPlus(p: Plan, rest: seq<Plan>)
    ensures multiset(AllShown([p] + rest)) == multiset{Shown(p)} + multiset(AllShown(rest))
  {
    assert AllShown([p] + rest) == [Shown(p)] + AllShown(rest);
  }

  lemma OneCopy(s: ServicePlan)
    ensures multiset{}[s := 1] == multiset{s} && multiset{}[s := 0] == multiset{}
  {
  }

  lemma {:induction false} DistinctCopies(ids: seq<string>, plans: seq<Plan>)
    requires forall i, j :: 0 <= i < j < |ids| ==> ids[i] != ids[j]
    ensures Copies(ids, plans) == multiset(AllShown(Offered(ids, plans)))
  {
    if plans != [] {
      var p, rest := plans[0], Offered(ids, plans[1..]);
      DistinctCopies(ids, plans[1..]);
      DistinctCount(ids, p.offeringID);
      OneCopy(Shown(p));
      if p.offeringID in ids {
        assert Offered(ids, plans) == [p] + rest;
        ShownPlus(p, rest);
      } else {
        assert Offered(ids, plans) == rest;
      }
    }
  }

  lemma {:induction false} DistinctCount(ids: seq<string>, id: string)
    requires forall i, j :: 0 <= i < j < |ids| ==> ids[i] != ids[j]
    ensures Count(ids, id) == if id in ids then 1 else 0
  {
    if ids != [] {
      DistinctCount(ids[1..], id);
      assert ids == [ids[0]] + ids[1..];
    }
  }

  lemma {:induction false} OfferedToOne(id: string, plans: seq<Plan>)
    ensures Offered([id], plans) == PlansFor(id, plans)
  {
    if plans != [] { OfferedToOne(id, plans[1..]); }
  }

  lemma CopiesOfOne(id: string, plans: seq<Plan>)
    ensures Copies([id], plans) == multiset(AllShown(PlansFor(id, plans)))
  {
    DistinctCopies([id], plans);
    OfferedToOne(id, plans);
  }

  lemma {:induction false} CopiesAdd(ids: seq<string>, more: seq<string>, plans: seq<Plan>)
    ensures Copies(ids + more, plans) == Copies(ids, plans) + Copies(more, plans)
  {
    if plans != [] {
      CopiesAdd(ids, more, plans[1..]);
      assert Count(ids + more, plans[0].offeringID) == Count(ids, plans[0].offeringID) + Count(more, plans[0].offeringID);
    }
  }

  lemma {:induction false} CopiesOfAll(services: seq<Service>, ids: seq<string>, plans: seq<Plan>)
    requires |services| == |ids|
    requires forall i :: 0 <= i < |ids| ==> services[i].plans == AllShown(PlansFor(ids[i], plans))
    ensures multiset(AllPlans(services)) == Copies(ids, plans)
  {
    if ids == [] {
      NoIdsNoCopies(plans);
    } else {
      CopiesOfAll(services[1..], ids[1..], plans);
      CopiesOfOne(ids[0], plans);
      CopiesAdd([ids[0]], ids[1..], plans);
      assert [ids[0]] + ids[1..] == ids;
    }
  }

  /** No plan is lost and none is invented: over all services every plan appears exactly as often as
      its offering is listed. */
  lemma CatalogueConservesPlans(offerings: Result<seq<Offering>>, plans: Result<seq<Plan>>)
    requires Services(offerings, plans).Ok?
    ensures offerings.Ok? && plans.Ok?
    ensures multiset(AllPlans(Services(offerings, plans).value)) == Copies(Ids(offerings.value), plans.value)
  {
    CatalogueIsJoin(offerings, plans);
    CopiesOfAll(Services(offerings, plans).value, Ids(offerings.value), plans.value);
  }

  /** With distinct offering ids: exactly the plans whose offering exists, each once. */
  lemma DistinctOfferingsConservePlans(offerings: Result<seq<Offering>>, plans: Result<seq<Plan>>)
    requires Services(offerings, plans).Ok? && offerings.Ok? && plans.Ok?
    requires forall i, j :: 0 <= i < j < |offerings.value| ==> offerings.value[i].id != offerings.value[j].id
    ensures multiset(AllPlans(Services(offerings, plans).value)) ==
            multiset(AllShown(Offered(Ids(offerings.value), plans.value)))
  {
    CatalogueConservesPlans(offerings, plans);
    DistinctCopies(Ids(offerings.value), plans.value);
  }
}
