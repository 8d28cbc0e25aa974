/**
 The Helm client (`controllers/helm/client.go`): decisions over the newest release of a name.
 What Helm itself does in an action is an input; an action that returns a release has recorded
 the chart version and the values it was given, or in an upgrade without values the current ones.
 */
module Helm {
  import opened Prelude
  import opened Cluster

  /** The zero value has no status and no message. */
  datatype HelmResult = HelmResult(status: Option<ReleaseStatus>, message: string)

  const ZERO_RESULT := HelmResult(None, "")

  /** How an install or upgrade action ends; a broken one may leave a release behind. */
  datatype ActionEnd = Ran(status: ReleaseStatus) | Broke(message: string, left: Option<ReleaseStatus>)

  /** How an uninstall action ends. */
  datatype RemovalEnd =
    | Removed(info: string)
    | NothingFound
    | BrokeOff(message: string, left: Option<ReleaseStatus>)

  /** `current` are the values of the revision that an upgrade starts from. */
  datatype HelmFaults = HelmFaults(
    load: Option<string>,
    lookup: Option<string>,
    compare: Option<string>,
    config: Option<string>,
    current: Values,
    action: ActionEnd,
    removal: RemovalEnd)

  // ----- what the lookup shows -----

  type Mask = m: set<ReleaseStatus> | Deployed in m witness {Deployed}

  /** The statuses in which the lookup shows the newest release of a name. The client leaves them to Helm's
      list action, so they have no value here: what is proved holds for each. */
  const SHOWN: Mask

  function ShownNames(rs: Releases): set<string> {
    set n | n in rs && rs[n].status in SHOWN
  }

  /** There is a release of the name, but the lookup does not show it. */
  predicate Hidden(rs: Releases, name: string) {
    name in rs && rs[name].status !in SHOWN
  }

  /** What Helm's install action answers for a name that has a release. */
  const NAME_IN_USE := HelmResult(Some(UnknownStatus), "cannot re-use a name that is still in use")

  // ----- values up to YAML -----

  /** Marshalling to YAML and back forgets the Go element types. */
  function Canon(v: Val): Val {
    match v
    case Atom(_) => v
    case AnyMap(m) => AnyMap(map k | k in m :: Canon(m[k]))
    case StrMap(m) => AnyMap(map k | k in m :: Atom(m[k]))
    case AnyList(xs) => AnyList(seq(|xs|, i requires 0 <= i < |xs| => Canon(xs[i])))
    case StrList(xs) => AnyList(seq(|xs|, i requires 0 <= i < |xs| => Atom(xs[i])))
  }

  function CanonValues(vs: Values): Values {
    map k | k in vs :: Canon(vs[k])
  }

  predicate EqualValues(a: Values, b: Values) {
    CanonValues(a) == CanonValues(b)
  }

  /** What a release is asked to hold; nothing in particular if no values are given. */
  predicate AsAsked(stored: Values, asked: Values) {
    EqualValues(stored, asked) || asked == map[]
  }

  /** The normal form is one: normalising twice is normalising once. */
  lemma {:induction false} CanonTwice(v: Val)
    ensures Canon(Canon(v)) == Canon(v)
  {
    match v
    case Atom(_) =>
    case AnyMap(m) =>
      forall k | k in m { CanonTwice(m[k]); }
      assert Canon(Canon(v)).members == Canon(v).members;
    case StrMap(m) =>
      assert Canon(Canon(v)).members == Canon(v).members;
    case AnyList(xs) =>
      forall i | 0 <= i < |xs| { CanonTwice(xs[i]); }
      assert Canon(Canon(v)).items == Canon(v).items;
    case StrList(xs) =>
      assert Canon(Canon(v)).items == Canon(v).items;
  }

  /** A release stored with the YAML form of the values still compares equal to them. */
  lemma StoredValuesCompareEqual(vs: Values)
    ensures EqualValues(CanonValues(vs), vs)
  {
    forall k | k in vs { CanonTwice(vs[k]); }
    assert CanonValues(CanonValues(vs)) == CanonValues(vs);
  }

  // ----- the client as functions of the releases -----

  function NextRevision(rs: Releases, name: string): nat {
    if name in rs then rs[name].revision + 1 else 1
  }

  /** An upgrade that is given no values keeps the current ones. */
  function Recorded(rs: Releases, name: string, values: Values, f: HelmFaults): Values {
    if name in rs && values == map[] then f.current else values
  }

  function Act(rs: Releases, name: string, version: string, values: Values, f: HelmFaults): (Releases, Result<HelmResult>)
  {
    if f.config.Some? then (rs, Err(f.config.value))
    else if Hidden(rs, name) then (rs, Ok(NAME_IN_USE)) else
    var next := (s: ReleaseStatus) => Release(NextRevision(rs, name), s, version, Recorded(rs, name, values, f));
    match f.action
    case Ran(s) => (rs[name := next(s)], Ok(HelmResult(Some(s), "")))
    case Broke(m, None) => (rs, Ok(HelmResult(Some(UnknownStatus), m)))
    case Broke(m, Some(s)) => (rs[name := next(s)], Ok(HelmResult(Some(UnknownStatus), m)))
  }

  /** The release already is what is asked for and has not failed. */
  predicate UpToDate(r: Release, version: string, values: Values) {
    EqualValues(r.values, values) && r.version == version && !r.status.FailedStatus?
  }

  function Apply(rs: Releases, name: string, version: string, values: Values, f: HelmFaults): (Releases, Result<HelmResult>)
  {
    if f.load.Some? then (rs, Err(f.load.value))
    else if f.lookup.Some? then (rs, Err(f.lookup.value))
    else if name !in ShownNames(rs) then Act(rs, name, version, values, f)
    else if rs[name].status.IsPending() then (rs, Ok(HelmResult(Some(rs[name].status), "operation pending")))
    else if f.compare.Some? then (rs, Err(f.compare.value))
    else if UpToDate(rs[name], version, values) then (rs, Ok(HelmResult(Some(rs[name].status), "")))
    else Act(rs, name, version, values, f)
  }

  function Uninstall(rs: Releases, name: string, f: HelmFaults): (Releases, Result<HelmResult>) {
    if f.lookup.Some? then (rs, Err(f.lookup.value))
    else if name !in ShownNames(rs) then (rs, Ok(ZERO_RESULT))
    else if rs[name].status.Uninstalling? then (rs, Ok(HelmResult(Some(Uninstalling), "operation pending")))
    else if f.config.Some? then (rs, Err(f.config.value))
    else match f.removal
    case Removed(info) => (rs - {name}, Ok(HelmResult(Some(Uninstalled), info)))
    case NothingFound => (rs - {name}, Ok(ZERO_RESULT))
    case BrokeOff(m, None) => (rs, Ok(HelmResult(Some(UnknownStatus), m)))
    case BrokeOff(m, Some(s)) => (rs[name := rs[name].(status := s)], Ok(HelmResult(Some(UnknownStatus), m)))
  }

  // ----- the client -----

  method RunAction(c: Cluster, name: string, version: string, values: Values, f: HelmFaults)
    returns (r: Result<HelmResult>)
    modifies c`releases
    ensures (c.releases, r) == Act(old(c.releases), name, version, values, f)
  {
    if f.config.Some? {
      return Err(f.config.value);
    }
    if Hidden(c.releases, name) {
      return Ok(NAME_IN_USE);
    }
    var revision := NextRevision(c.releases, name);
    var recorded := Recorded(c.releases, name, values, f);
    match f.action
    case Ran(s) =>
      c.RecordRelease(name, Release(revision, s, version, recorded));
      r := Ok(HelmResult(Some(s), ""));
    case Broke(m, left) =>
      if left.Some? {
        c.RecordRelease(name, Release(revision, left.value, version, recorded));
      }
      r := Ok(HelmResult(Some(UnknownStatus), m));
  }

  method ApplyChart(c: Cluster, name: string, version: string, values: Values, f: HelmFaults)
    returns (r: Result<HelmResult>)
    modifies c`releases
    ensures (c.releases, r) == Apply(old(c.releases), name, version, values, f)
  {
    if f.load.Some? {
      return Err(f.load.value);
    }
    if f.lookup.Some? {
      return Err(f.lookup.value);
    }
    if name !in ShownNames(c.releases) {
      r := RunAction(c, name, version, values, f);
      return;
    }
    var latest := c.releases[name];
    if latest.status.IsPending() {
      return Ok(HelmResult(Some(latest.status), "operation pending"));
    }
    if f.compare.Some? {
      return Err(f.compare.value);
    }
    if EqualValues(latest.values, values) && latest.version == version && !latest.status.FailedStatus? {
      return Ok(HelmResult(Some(latest.status), ""));
    }
    r := RunAction(c, name, version, values, f);
  }

  method UninstallRelease(c: Cluster, name: string, f: HelmFaults) returns (r: Result<HelmResult>)
    modifies c`releases
    ensures (c.releases, r) == Uninstall(old(c.releases), name, f)
  {
    if f.lookup.Some? {
      return Err(f.lookup.value);
    }
    if name !in ShownNames(c.releases) {
      return Ok(ZERO_RESULT);
    }
    var latest := c.releases[name];
    if latest.status.Uninstalling? {
      return Ok(HelmResult(Some(latest.status), "operation pending"));
    }
    if f.config.Some? {
      return Err(f.config.value);
    }
    match f.removal
    case Removed(info) =>
      c.PurgeRelease(name);
      r := Ok(HelmResult(Some(Uninstalled), info));
    case NothingFound =>
      c.PurgeRelease(name);
      r := Ok(ZERO_RESULT);
    case BrokeOff(m, left) =>
      if left.Some? {
        c.RecordRelease(name, latest.(status := left.value));
      }
      r := Ok(HelmResult(Some(UnknownStatus), m));
  }
}
