/** The CFAPI resource (`api/v1alpha1/cfapi_types.go`) and the status conditions it carries. */
module Types {
  import opened Prelude

  const FINALIZER := "cfapi.kyma-project.io/finalizer"
  const CONTOUR := "contour"
  const ISTIO := "istio"
  const CONFIGURATION := "Configuration"
  const INSTALLATION := "Installation"
  const DELETION := "Deletion"

  datatype Spec = Spec(
    rootNamespace: string,
    containerRegistrySecret: string,
    disablePropagation: bool,
    containerRepositoryPrefix: string,
    builderRepository: string,
    uaa: string,
    cfAdmins: seq<string>,
    useSelfSigned: bool,
    gatewayType: string)

  datatype Config = Config(
    rootNamespace: string,
    registrySecret: string,
    disablePropagation: bool,
    registryURL: string,
    repositoryPrefix: string,
    builderRepository: string,
    uaaURL: string,
    cfAdmins: seq<string>,
    cfDomain: string,
    ingressService: string,
    useSelfSigned: bool,
    gatewayType: string)

  const ZERO_CONFIG := Config("", "", false, "", "", "", "", [], "", "", false, "")

  datatype State = Unset | Ready | Processing | Error | Deleting | Warning

  datatype Truth = True | False | Unknown

  datatype Condition = Condition(
    kind: string,
    status: Truth,
    observedGeneration: int,
    transition: int,
    reason: string,
    message: string)

  datatype Status = Status(
    state: State,
    observedGeneration: int,
    conditions: seq<Condition>,
    config: Config,
    url: string)

  const NEW_STATUS := Status(Unset, 0, [], ZERO_CONFIG, "")

  /** `uid` and `generation` belong to the API server; `deleting` is the deletion timestamp. */
  datatype Object = Object(
    uid: nat,
    generation: int,
    deleting: bool,
    finalizers: seq<string>,
    spec: Spec,
    status: Status)

  // ----- finalizers (controllerutil) -----

  function AddFinalizer(fs: seq<string>, f: string): (all: seq<string>)
    ensures f in all && fs <= all
    ensures forall g :: g in all ==> g in fs || g == f
    ensures |all| == |fs| <==> f in fs
  {
    if f in fs then fs else fs + [f]
  }

  function RemoveFinalizer(fs: seq<string>, f: string): (rest: seq<string>)
    ensures f !in rest
    ensures forall g :: g in rest <==> g in fs && g != f
    ensures f !in fs ==> rest == fs
  {
    if fs == [] then []
    else if fs[0] == f then RemoveFinalizer(fs[1..], f)
    else [fs[0]] + RemoveFinalizer(fs[1..], f)
  }

  lemma {:induction false} AddThenRemove(fs: seq<string>, f: string)
    ensures RemoveFinalizer(AddFinalizer(fs, f), f) == RemoveFinalizer(fs, f)
  {
    if f !in fs {
      RemoveLast(fs, f);
    }
  }

  /** Removing goes through the list element by element: nothing is reordered, and only `f` is left out. */
  lemma {:induction false} RemoveFromParts(fs: seq<string>, gs: seq<string>, f: string)
    ensures RemoveFinalizer(fs + gs, f) == RemoveFinalizer(fs, f) + RemoveFinalizer(gs, f)
    ensures forall g :: RemoveFinalizer([g], f) == if g == f then [] else [g]
  {
    if fs == [] {
      assert fs + gs == gs;
    } else {
      assert (fs + gs)[1..] == fs[1..] + gs;
      RemoveFromParts(fs[1..], gs, f);
    }
  }

  lemma {:induction false} RemoveLast(fs: seq<string>, f: string)
    requires f !in fs
    ensures RemoveFinalizer(fs + [f], f) == fs
  {
    if fs != [] {
      assert (fs + [f])[1..] == fs[1..] + [f];
      RemoveLast(fs[1..], f);
    }
  }

  // ----- conditions (meta.SetStatusCondition) -----

  function FindCondition(cs: seq<Condition>, kind: string): Option<Condition> {
    if cs == [] then None
    else if cs[0].kind == kind then Some(cs[0])
    else FindCondition(cs[1..], kind)
  }

  /** The first condition of the kind, if there is one. */
  lemma {:induction false} FindIsFirst(cs: seq<Condition>, kind: string)
    ensures FindCondition(cs, kind).None? <==> forall c :: c in cs ==> c.kind != kind
    ensures FindCondition(cs, kind).Some? ==>
              exists i :: 0 <= i < |cs| && cs[i] == FindCondition(cs, kind).value && cs[i].kind == kind &&
                          forall j :: 0 <= j < i ==> cs[j].kind != kind
  {
    if cs != [] {
      FindIsFirst(cs[1..], kind);
      if cs[0].kind == kind {
        assert cs[0] == FindCondition(cs, kind).value;
      } else if FindCondition(cs[1..], kind).Some? {
        var i :| 0 <= i < |cs[1..]| && cs[1..][i] == FindCondition(cs[1..], kind).value && cs[1..][i].kind == kind &&
                 forall j :: 0 <= j < i ==> cs[1..][j].kind != kind;
        forall j | 0 <= j < i + 1 ensures cs[j].kind != kind { assert j > 0 ==> cs[j] == cs[1..][j - 1]; }
        assert cs[i + 1] == FindCondition(cs, kind).value;
      }
    }
  }

  predicate IsTrue(cs: seq<Condition>, kind: string) {
    var c := FindCondition(cs, kind);
    c.Some? && c.value.status.True?
  }

  /** The transition time moves only when the status value does. */
  function Refresh(existing: Condition, c: Condition): Condition {
    if existing.status == c.status then c.(transition := existing.transition) else c
  }

  function SetCondition(cs: seq<Condition>, c: Condition): seq<Condition> {
    if cs == [] then [c]
    else if cs[0].kind == c.kind then [Refresh(cs[0], c)] + cs[1..]
    else [cs[0]] + SetCondition(cs[1..], c)
  }

  /** Setting a condition makes it the one found for its kind and disturbs no other kind. The transition time
      of an earlier condition is kept exactly if the status value stays. */
  lemma {:induction false} SetThenFind(cs: seq<Condition>, c: Condition, kind: string)
    ensures FindCondition(SetCondition(cs, c), kind) ==
            if kind != c.kind then FindCondition(cs, kind)
            else match FindCondition(cs, kind)
                 case None => Some(c)
                 case Some(existing) =>
                   Some(if existing.status == c.status then c.(transition := existing.transition) else c)
  {
    if cs != [] && cs[0].kind != c.kind {
      SetThenFind(cs[1..], c, kind);
    }
  }

  /** Setting a condition that says what the existing one says changes nothing at all, whatever
      the clock reads. */
  lemma {:induction false} SetAgain(cs: seq<Condition>, c: Condition)
    requires var e := FindCondition(cs, c.kind);
             e.Some? && e.value == c.(transition := e.value.transition)
    ensures SetCondition(cs, c) == cs
  {
    if cs[0].kind != c.kind {
      SetAgain(cs[1..], c);
    }
  }
}
