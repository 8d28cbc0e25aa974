/**
 The part of the outside world that the installables act on: keyed Kubernetes objects, the newest
 Helm release under each name, and the CF orgs. `World` is its value, class `Cluster` the thing
 that API calls change in place.
 */
module Cluster {
  import opened Prelude

  /** Kind, namespace and name of an object. */
  type Key = string

  /** `held`: something keeps the object alive after a delete (a finalizer of its own).
      `version` is the resource version, which an update must name. */
  datatype Stored = Stored(body: string, version: nat, held: bool, terminating: bool)

  type Objects = map<Key, Stored>

  /** Helm values as the Go code builds them; some Go types look alike once they have been YAML. */
  datatype Val =
    | Atom(text: string)
    | AnyMap(members: Values)
    | StrMap(strings: map<string, string>)
    | AnyList(items: seq<Val>)
    | StrList(texts: seq<string>)

  type Values = map<string, Val>

  datatype ReleaseStatus =
    | UnknownStatus | Deployed | Uninstalled | Superseded | FailedStatus | Uninstalling
    | PendingInstall | PendingUpgrade | PendingRollback
  {
    predicate IsPending() {
      PendingInstall? || PendingUpgrade? || PendingRollback?
    }
  }

  /** Every Helm action that records something records a new revision. */
  datatype Release = Release(revision: nat, status: ReleaseStatus, version: string, values: Values)

  type Releases = map<string, Release>

  datatype Org = Org(namespace: string, held: bool)

  /** `orgs` is None while the CFOrg kind is not known to the API server. */
  datatype World = World(objects: Objects, releases: Releases, orgs: Option<map<string, Org>>)

  function OrgMap(w: World): map<string, Org> {
    if w.orgs.Some? then w.orgs.value else map[]
  }

  // ----- what one API call does to the objects -----

  function Created(objs: Objects, key: Key, body: string): Objects {
    objs[key := Stored(body, 1, false, false)]
  }

  function Updated(objs: Objects, key: Key, body: string): Objects
    requires key in objs
  {
    var stored := objs[key];
    objs[key := stored.(body := body, version := if stored.body == body then stored.version else stored.version + 1)]
  }

  function Deleted(objs: Objects, key: Key): Objects
    requires key in objs
  {
    if objs[key].held then objs[key := objs[key].(terminating := true)] else objs - {key}
  }

  /** Deleting every org of one namespace; the held ones stay for now. */
  function WithoutOrgsOf(orgs: map<string, Org>, namespace: string): map<string, Org> {
    map id | id in orgs && !(orgs[id].namespace == namespace && !orgs[id].held) :: orgs[id]
  }

  class Cluster {
    var objects: Objects
    var releases: Releases
    var orgs: Option<map<string, Org>>

    function View(): World
      reads this
    {
      World(objects, releases, orgs)
    }

    constructor (w: World)
      ensures View() == w
    {
      objects, releases, orgs := w.objects, w.releases, w.orgs;
    }

    /** The resource version, or None when there is no such object. */
    method Get(key: Key) returns (version: Option<nat>)
      ensures version == if key in objects then Some(objects[key].version) else None
    {
      version := if key in objects then Some(objects[key].version) else None;
    }

    method Create(key: Key, body: string) returns (ok: bool)
      modifies this`objects
      ensures ok == (key !in old(objects))
      ensures objects == if ok then Created(old(objects), key, body) else old(objects)
    {
      ok := key !in objects;
      if ok {
        objects := Created(objects, key, body);
      }
    }

    /** An update that names a stale resource version is a conflict. */
    method Update(key: Key, body: string, version: nat) returns (ok: bool)
      modifies this`objects
      ensures ok == (key in old(objects) && old(objects)[key].version == version)
      ensures objects == if ok then Updated(old(objects), key, body) else old(objects)
    {
      ok := key in objects && objects[key].version == version;
      if ok {
        objects := Updated(objects, key, body);
      }
    }

    method Delete(key: Key) returns (found: bool)
      modifies this`objects
      ensures found == (key in old(objects))
      ensures objects == if found then Deleted(old(objects), key) else old(objects)
    {
      found := key in objects;
      if found {
        objects := Deleted(objects, key);
      }
    }

    method DeleteAllOrgs(namespace: string)
      modifies this`orgs
      ensures orgs == if old(orgs).None? then None else Some(WithoutOrgsOf(old(orgs).value, namespace))
    {
      if orgs.Some? {
        orgs := Some(WithoutOrgsOf(orgs.value, namespace));
      }
    }

    method RecordRelease(name: string, release: Release)
      modifies this`releases
      ensures releases == old(releases)[name := release]
    {
      releases := releases[name := release];
    }

    method PurgeRelease(name: string)
      modifies this`releases
      ensures releases == old(releases) - {name}
    {
      releases := releases - {name};
    }
  }
}
