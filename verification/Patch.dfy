/**
 The two-phase patch of `tools/k8s/patch.go`: one merge patch, computed once from the object
 before and after `modify()`, is sent first to the main endpoint and then to the status endpoint.
 Other clients may change, delete or recreate the stored object before either call.
 */
module Patch {
  import opened Prelude
  import opened Json

  const STATUS := "status"

  function WithStatusOf(main: Fields, status: Fields): Fields {
    if STATUS in status then main[STATUS := status[STATUS]] else main - {STATUS}
  }

  /** The main endpoint ignores what the patch says about the status. */
  function MainWrite(stored: Fields, patch: Fields): Fields {
    WithStatusOf(Merge(stored, patch), stored)
  }

  /** The status endpoint ignores everything else. */
  function StatusWrite(stored: Fields, patch: Fields): Fields {
    WithStatusOf(stored, Merge(stored, patch))
  }

  lemma EndpointAt(stored: Fields, patch: Fields, k: string)
    ensures Get(MainWrite(stored, patch), k) == Get(if k == STATUS then stored else Merge(stored, patch), k)
    ensures Get(StatusWrite(stored, patch), k) == Get(if k == STATUS then Merge(stored, patch) else stored, k)
  {
  }

  /** What everybody else does to the stored object between two calls of one client. */
  type Others = Option<Fields> -> Option<Fields>

  /** Which parts of one call fail: looking for a status, either request, copying the result back. */
  datatype PatchFaults = PatchFaults(convert: bool, main: bool, status: bool, copy: bool)

  datatype PatchError = NotConverted | MainFailed | StatusFailed | NotCopied

  /** The state one call of Patch leaves behind. */
  datatype Outcome = Outcome(stored: Option<Fields>, local: Fields, error: Option<PatchError>)

  function PatchOutcome(stored: Option<Fields>, original: Fields, modified: Fields,
                        before: Others, between: Others, f: PatchFaults): Outcome
  {
    if f.convert then Outcome(stored, modified, Some(NotConverted)) else
    var s0 := before(stored);
    if f.main || s0.None? then Outcome(s0, modified, Some(MainFailed)) else
    var s1 := MainWrite(s0.value, Diff(original, modified));
    if STATUS !in modified then Outcome(Some(s1), s1, None) else
    var s2 := between(Some(s1));
    if f.status || s2.None? then Outcome(s2, s1, Some(StatusFailed)) else
    var s3 := StatusWrite(s2.value, Diff(original, modified));
    if f.copy then Outcome(Some(s3), s1, Some(NotCopied)) else Outcome(Some(s3), s3, None)
  }

  /** A client-side object that `modify()` and the API responses overwrite. */
  class KubeObject {
    var fields: Fields

    constructor (fields: Fields)
      ensures this.fields == fields
    {
      this.fields := fields;
    }
  }

  /** The stored object as the API server sees it. */
  class Server {
    var stored: Option<Fields>

    method Interfere(others: Others)
      modifies this
      ensures stored == others(old(stored))
    {
      stored := others(stored);
    }

    /** A merge patch on the main endpoint; the response overwrites the client's object. */
    method PatchMain(obj: KubeObject, patch: Fields, fails: bool) returns (ok: bool)
      modifies this, obj
      ensures ok == (!fails && old(stored).Some?)
      ensures ok ==> stored == Some(MainWrite(old(stored).value, patch)) && obj.fields == stored.value
      ensures !ok ==> stored == old(stored) && obj.fields == old(obj.fields)
    {
      ok := !fails && stored.Some?;
      if ok {
        stored := Some(MainWrite(stored.value, patch));
        obj.fields := stored.value;
      }
    }

    /** The same on the status endpoint. */
    method PatchStatus(obj: KubeObject, patch: Fields, fails: bool) returns (ok: bool)
      modifies this, obj
      ensures ok == (!fails && old(stored).Some?)
      ensures ok ==> stored == Some(StatusWrite(old(stored).value, patch)) && obj.fields == stored.value
      ensures !ok ==> stored == old(stored) && obj.fields == old(obj.fields)
    {
      ok := !fails && stored.Some?;
      if ok {
        stored := Some(StatusWrite(stored.value, patch));
        obj.fields := stored.value;
      }
    }
  }

  method Patch(server: Server, obj: KubeObject, modification: Fields -> Fields,
               before: Others, between: Others, f: PatchFaults)
    returns (error: Option<PatchError>)
    modifies server, obj
    ensures Outcome(server.stored, obj.fields, error) ==
            PatchOutcome(old(server.stored), old(obj.fields), modification(old(obj.fields)),
                         before, between, f)
  {
    var objCopy := obj.fields;
    obj.fields := modification(obj.fields);
    var modifiedObj := new KubeObject(obj.fields);
    if f.convert {
      return Some(NotConverted);
    }
    var objHasStatus := STATUS in obj.fields;

    server.Interfere(before);
    var ok := server.PatchMain(obj, Diff(objCopy, obj.fields), f.main);
    if !ok {
      return Some(MainFailed);
    }
    if objHasStatus {
      server.Interfere(between);
      ok := server.PatchStatus(modifiedObj, Diff(objCopy, modifiedObj.fields), f.status);
      if !ok {
        return Some(StatusFailed);
      }
      if f.copy {
        return Some(NotCopied);
      }
      obj.fields := modifiedObj.fields;
    }
    return None;
  }

  /** Which error a call ends with, and what it leaves in the store and in memory, for all writers and failures.
      An object that is gone before either request is an error of that request. */
  lemma PatchEndings(stored: Option<Fields>, original: Fields, modified: Fields, before: Others, between: Others, f: PatchFaults)
    ensures var out := PatchOutcome(stored, original, modified, before, between, f);
            var d, s0 := Diff(original, modified), before(stored);
            && (out.error == Some(NotConverted) <==> f.convert)
            && (f.convert ==> out.stored == stored && out.local == modified)
            && (out.error == Some(MainFailed) <==> !f.convert && (f.main || s0.None?))
            && (out.error == Some(MainFailed) ==> out.stored == s0 && out.local == modified)
            && (!f.convert && !f.main && s0.Some? ==>
                  var s1 := MainWrite(s0.value, d);
                  var s2 := between(Some(s1));
                  && ("status" !in modified ==> out.error.None? && out.stored == Some(s1) && out.local == s1)
                  && (out.error == Some(StatusFailed) <==> "status" in modified && (f.status || s2.None?))
                  && (out.error == Some(StatusFailed) ==> out.stored == s2 && out.local == s1)
                  && ("status" in modified && !f.status && s2.Some? ==>
                        && (out.error == if f.copy then Some(NotCopied) else None)
                        && out.stored == Some(StatusWrite(s2.value, d))
                        && out.local == if f.copy then s1 else out.stored.value))
  {
  }

  // ----- nobody else writes: Patch stores the modified object -----

  ghost predicate Quiet(others: Others) {
    forall s :: others(s) == s
  }

  function Main(f: Fields): Fields { NormFields(f - {STATUS}) }

  function StatusOf(f: Fields): Json {
    if STATUS in f then Norm(f[STATUS]) else Null
  }

  lemma SameObject(a: Fields, b: Fields)
    ensures NormFields(a) == NormFields(b) <==> Main(a) == Main(b) && StatusOf(a) == StatusOf(b)
  {
    NormAway(a);
    NormAway(b);
    NormNull(a);
    NormNull(b);
    var na, nb := NormFields(a), NormFields(b);
    if Main(a) == Main(b) && StatusOf(a) == StatusOf(b) {
      assert na - {STATUS} == nb - {STATUS};
      assert STATUS in na <==> STATUS in nb;
      assert na == nb by {
        assert forall k :: k in na ==> k == STATUS || k in na - {STATUS};
        assert forall k :: k in nb ==> k == STATUS || k in nb - {STATUS};
      }
    }
  }

  lemma NormAway(a: Fields)
    ensures Main(a) == NormFields(a) - {STATUS}
  {
  }

  lemma NormNull(a: Fields)
    ensures StatusOf(a).Null? <==> STATUS !in NormFields(a)
    ensures STATUS in NormFields(a) ==> NormFields(a)[STATUS] == StatusOf(a)
  {
  }

  /** Each endpoint leaves the other's part alone. */
  lemma OtherPartKept(stored: Fields, patch: Fields)
    ensures Get(MainWrite(stored, patch), STATUS) == Get(stored, STATUS)
    ensures StatusOf(MainWrite(stored, patch)) == StatusOf(stored)
    ensures StatusWrite(stored, patch) - {STATUS} == stored - {STATUS}
    ensures Main(StatusWrite(stored, patch)) == Main(stored)
  {
    EndpointAt(stored, patch, STATUS);
    assert StatusWrite(stored, patch) - {STATUS} == stored - {STATUS};
  }

  /** If the stored main part is the original's, the main endpoint makes it the modified one. */
  lemma MainPartWritten(stored: Fields, original: Fields, modified: Fields)
    requires stored - {STATUS} == original - {STATUS}
    ensures Main(MainWrite(stored, Diff(original, modified))) == Main(modified)
  {
    var d := Diff(original, modified);
    forall k | k != STATUS ensures Get(Merge(stored, d), k) == Get(Merge(original, d), k) {
      MergeAt(stored, d, k);
      MergeAt(original, d, k);
      assert Get(stored - {STATUS}, k) == Get(stored, k);
      assert Get(original - {STATUS}, k) == Get(original, k);
    }
    SameButStatus(Merge(stored, d), Merge(original, d));
    assert MainWrite(stored, d) - {STATUS} == Merge(stored, d) - {STATUS};
    MergeDiffIsModified(original, modified);
    SameObject(Merge(original, d), modified);
  }

  /** The same for the status. */
  lemma StatusPartWritten(stored: Fields, original: Fields, modified: Fields)
    requires Get(stored, STATUS) == Get(original, STATUS)
    ensures StatusOf(StatusWrite(stored, Diff(original, modified))) == StatusOf(modified)
  {
    var d := Diff(original, modified);
    MergeAt(stored, d, STATUS);
    MergeAt(original, d, STATUS);
    EndpointAt(stored, d, STATUS);
    assert Get(StatusWrite(stored, d), STATUS) == Get(Merge(original, d), STATUS);
    MergeDiffIsModified(original, modified);
    SameObject(Merge(original, d), modified);
  }

  /** Both writes, one after the other. */
  lemma BothPartsWritten(original: Fields, modified: Fields)
    ensures var d := Diff(original, modified);
            var s1 := MainWrite(original, d);
            && Main(s1) == Main(modified) && StatusOf(s1) == StatusOf(original)
            && Main(StatusWrite(s1, d)) == Main(modified) && StatusOf(StatusWrite(s1, d)) == StatusOf(modified)
  {
    var d := Diff(original, modified);
    var s1 := MainWrite(original, d);
    MainPartWritten(original, original, modified);
    OtherPartKept(original, d);
    OtherPartKept(s1, d);
    StatusPartWritten(s1, original, modified);
  }

  lemma SameButStatus(a: Fields, b: Fields)
    requires forall k :: k != STATUS ==> Get(a, k) == Get(b, k)
    ensures a - {STATUS} == b - {STATUS}
  {
    forall k | k in a && k != STATUS ensures k in b && a[k] == b[k] { assert Get(a, k) == Get(b, k); }
    forall k | k in b && k != STATUS ensures k in a { assert Get(a, k) == Get(b, k); }
  }

  lemma QuietOutcome(original: Fields, modified: Fields, before: Others, between: Others, f: PatchFaults,
                     s1: Fields, s3: Fields)
    requires Quiet(before) && Quiet(between)
    requires s1 == MainWrite(original, Diff(original, modified)) && s3 == StatusWrite(s1, Diff(original, modified))
    ensures PatchOutcome(Some(original), original, modified, before, between, f) ==
            if f.convert then Outcome(Some(original), modified, Some(NotConverted))
            else if f.main then Outcome(Some(original), modified, Some(MainFailed))
            else if STATUS !in modified then Outcome(Some(s1), s1, None)
            else if f.status then Outcome(Some(s1), s1, Some(StatusFailed))
            else if f.copy then Outcome(Some(s3), s1, Some(NotCopied))
            else Outcome(Some(s3), s3, None)
  {
    assert between(Some(s1)) == Some(s1);
  }

  /** With the original still stored, the server ends in exactly one of three states, told apart by the
      error: unchanged, main part only, or the whole modified object (which the in-memory object then is
      too, unless it could not be copied back). A modification that drops the status altogether is the
      one thing Patch does not store. */
  lemma QuietPatch(original: Fields, modified: Fields, before: Others, between: Others, f: PatchFaults)
    requires Quiet(before) && Quiet(between)
    ensures var out := PatchOutcome(Some(original), original, modified, before, between, f);
            && out.stored.Some?
            && (out.error == Some(NotConverted) ==> f.convert && out.stored.value == original)
            && (out.error == Some(MainFailed) ==> f.main && out.stored.value == original)
            && (out.error == Some(StatusFailed) ==>
                  && f.status
                  && Main(out.stored.value) == Main(modified)
                  && StatusOf(out.stored.value) == StatusOf(original))
            && (out.error == Some(NotCopied) ==> f.copy && NormFields(out.stored.value) == NormFields(modified))
            && (out.error.None? ==>
                  && out.local == out.stored.value
                  && (NormFields(out.stored.value) == NormFields(modified)
                      <==> STATUS in modified || StatusOf(original).Null?))
            && (f == PatchFaults(false, false, false, false) ==> out.error.None?)
  {
    var d := Diff(original, modified);
    QuietOutcome(original, modified, before, between, f, MainWrite(original, d), StatusWrite(MainWrite(original, d), d));
    BothPartsWritten(original, modified);
    SameObject(MainWrite(original, d), modified);
    SameObject(StatusWrite(MainWrite(original, d), d), modified);
  }

  // ----- other clients write too -----

  /** A place the modification left alone is never written, by either endpoint. */
  lemma {:induction false} ConcurrentEditsKept(s: Fields, a: Fields, b: Fields, path: seq<string>)
    requires path != [] && Reaches(b, path)
    requires Lookup(a, path) == Lookup(b, path)
    ensures Lookup(MainWrite(s, Diff(a, b)), path) == Lookup(s, path)
    ensures Lookup(StatusWrite(s, Diff(a, b)), path) == Lookup(s, path)
  {
    UntouchedPathKept(s, a, b, path);
  }

  /** A leaf the modification changed is written by the endpoint responsible for it, whatever
      the server held there. */
  lemma {:induction false} OwnEditsWritten(s: Fields, a: Fields, b: Fields, path: seq<string>)
    requires path != [] && Reaches(b, path)
    requires Lookup(a, path) != Lookup(b, path)
    requires Lookup(b, path).Some? ==> !Lookup(b, path).value.Obj? && !Lookup(b, path).value.Null?
    ensures path[0] != STATUS ==> Lookup(MainWrite(s, Diff(a, b)), path) == Lookup(b, path)
    ensures path[0] == STATUS ==> Lookup(StatusWrite(s, Diff(a, b)), path) == Lookup(b, path)
  {
    TouchedLeafWritten(s, a, b, path);
  }

  /** Over a whole call, with arbitrary writers before and between the two requests: what the
      modification did not touch ends up as the others left it, what it did touch ends up as
      modified, unless the others overwrote a main field after the main patch. */
  lemma {:induction false} PatchIsThreeWayMerge(stored: Option<Fields>, a: Fields, b: Fields, before: Others, between: Others,
                             path: seq<string>)
    requires STATUS in b && path != [] && Reaches(b, path)
    requires before(stored).Some?
    requires between(Some(MainWrite(before(stored).value, Diff(a, b)))).Some?
    requires Lookup(b, path).Some? ==> !Lookup(b, path).value.Obj? && !Lookup(b, path).value.Null?
    ensures var out := PatchOutcome(stored, a, b, before, between, PatchFaults(false, false, false, false));
            var s0 := before(stored).value;
            var s1 := MainWrite(s0, Diff(a, b));
            var s2 := between(Some(s1)).value;
            && out.error.None? && out.stored == Some(out.local)
            && (Lookup(a, path) == Lookup(b, path) ==>
                  Lookup(s1, path) == Lookup(s0, path) && Lookup(out.local, path) == Lookup(s2, path))
            && (Lookup(a, path) != Lookup(b, path) && path[0] == STATUS ==>
                  Lookup(out.local, path) == Lookup(b, path))
            && (Lookup(a, path) != Lookup(b, path) && path[0] != STATUS ==>
                  Lookup(s1, path) == Lookup(b, path) && Lookup(out.local, path) == Lookup(s2, path))
  {
    var s0 := before(stored).value;
    var s1 := MainWrite(s0, Diff(a, b));
    var s2 := between(Some(s1)).value;
    if Lookup(a, path) == Lookup(b, path) {
      ConcurrentEditsKept(s0, a, b, path);
      ConcurrentEditsKept(s2, a, b, path);
    } else {
      OwnEditsWritten(s0, a, b, path);
      OwnEditsWritten(s2, a, b, path);
    }
  }

  /** Lists are replaced whole, so a list is the one place where two writers collide: if the modification
      changes a list, wherever it is, whatever another client has put into it since the read is lost. */
  lemma ConcurrentListEditLost(stored: Fields, a: Fields, b: Fields, path: seq<string>, ours: seq<Json>)
    requires path != [] && Reaches(b, path) && Lookup(b, path) == Some(Arr(ours)) && Lookup(a, path) != Some(Arr(ours))
    ensures Lookup(if path[0] == STATUS then StatusWrite(stored, Diff(a, b)) else MainWrite(stored, Diff(a, b)), path) ==
            Some(Arr(ours))
  {
    OwnEditsWritten(stored, a, b, path);
  }

  /** For one, a finalizer that somebody else adds between the read and the main patch. */
  lemma ConcurrentFinalizerLost(ours: Json, theirs: Json)
    requires ours != theirs
    ensures var read: Fields := map["metadata" := Obj(map["name" := Str("cfapi")])];
            var modified: Fields := map["metadata" := Obj(map["name" := Str("cfapi"), "finalizers" := Arr([ours])])];
            var stored: Fields := map["metadata" := Obj(map["name" := Str("cfapi"), "finalizers" := Arr([theirs])])];
            Lookup(MainWrite(stored, Diff(read, modified)), ["metadata", "finalizers"]) == Some(Arr([ours]))
  {
    var read: Fields := map["metadata" := Obj(map["name" := Str("cfapi")])];
    var modified: Fields := map["metadata" := Obj(map["name" := Str("cfapi"), "finalizers" := Arr([ours])])];
    var stored: Fields := map["metadata" := Obj(map["name" := Str("cfapi"), "finalizers" := Arr([theirs])])];
    var path := ["metadata", "finalizers"];
    assert path[1..] == ["finalizers"];
    assert Lookup(Members(modified["metadata"]), path[1..]) == Some(Arr([ours]));
    assert Reaches(Members(modified["metadata"]), path[1..]);
    assert Lookup(Members(read["metadata"]), path[1..]) == None;
    ConcurrentListEditLost(stored, read, modified, path, [ours]);
  }
}
