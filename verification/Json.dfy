/**
 JSON trees, JSON Merge Patch (RFC 7396, section 2), and the merge patch that
 `client.MergeFrom` computes from the object before and after a modification.
 */
module Json {
  import opened Prelude

  datatype Json =
    | Null
    | Bool(b: bool)
    | Num(n: int)
    | Str(s: string)
    | Arr(items: seq<Json>)
    | Obj(fields: Fields)

  type Fields = map<string, Json>

  /** The members of an object; anything else has none. */
  function Members(j: Json): Fields {
    if j.Obj? then j.fields else map[]
  }

  function Get(f: Fields, k: string): Option<Json> {
    if k in f then Some(f[k]) else None
  }

  /** The pseudo code of RFC 7396, section 2. A missing target counts as null. */
  function MergePatch(target: Json, patch: Json): Json
    decreases patch
  {
    if !patch.Obj? then patch else
    var base := Members(target);
    Obj(map k | k in base.Keys + patch.fields.Keys && !(k in patch.fields && patch.fields[k].Null?) ::
          if k in patch.fields
          then MergePatch(if k in base then base[k] else Null, patch.fields[k])
          else base[k])
  }

  /** Merging one object's members into another's. */
  function Merge(target: Fields, patch: Fields): Fields {
    MergePatch(Obj(target), Obj(patch)).fields
  }

  /** What the patch from `a` to `b` says about key `k`, if anything. */
  function Change(a: Fields, b: Fields, k: string): Option<Json>
    decreases Obj(a), 0
  {
    if k !in b then
      (if k in a then Some(Null) else None)
    else if k in a && a[k].Obj? && b[k].Obj? then
      var inner := Diff(a[k].fields, b[k].fields);
      if inner == map[] then None else Some(Obj(inner))
    else if k in a && a[k] == b[k] then None
    else Some(b[k])
  }

  /** The merge patch that turns `a` into `b`. */
  function Diff(a: Fields, b: Fields): Fields
    decreases Obj(a), 1
  {
    map k | k in a.Keys + b.Keys && Change(a, b, k).Some? :: Change(a, b, k).value
  }

  /** Absent and null members are the same thing to the API server. */
  function Norm(j: Json): Json {
    match j
    case Obj(f) => Obj(map k | k in f && !f[k].Null? :: Norm(f[k]))
    case _ => j
  }

  function NormFields(f: Fields): Fields {
    Norm(Obj(f)).fields
  }

  // ----- key by key -----

  lemma MergeAt(target: Fields, patch: Fields, k: string)
    ensures Get(Merge(target, patch), k) ==
            if k !in patch then Get(target, k)
            else if patch[k].Null? then None
            else Some(MergePatch(if k in target then target[k] else Null, patch[k]))
  {
  }

  lemma DiffAt(a: Fields, b: Fields, k: string)
    ensures Get(Diff(a, b), k) == Change(a, b, k)
  {
  }

  // ----- the diff is exact -----

  lemma {:induction false} DiffEmptyIffEqual(a: Fields, b: Fields)
    ensures Diff(a, b) == map[] <==> a == b
    decreases Obj(a)
  {
    forall k | k in a && k in b && a[k].Obj? && b[k].Obj?
      ensures Diff(a[k].fields, b[k].fields) == map[] <==> a[k] == b[k]
    {
      DiffEmptyIffEqual(a[k].fields, b[k].fields);
    }
    if Diff(a, b) == map[] {
      forall k | k in a.Keys + b.Keys ensures k in a && k in b && a[k] == b[k] {
        assert k !in Diff(a, b);
        assert Change(a, b, k).None?;
      }
    } else {
      var k :| k in Diff(a, b);
      assert Change(a, b, k).Some?;
    }
  }

  lemma {:induction false} MergeNullIsNorm(j: Json)
    requires !j.Null?
    ensures Norm(MergePatch(Null, j)) == Norm(j)
  {
    if j.Obj? {
      var m := MergePatch(Null, j).fields;
      forall k | k in j.fields && !j.fields[k].Null?
        ensures k in m && !m[k].Null? && Norm(m[k]) == Norm(j.fields[k])
      {
        MergeNullIsNorm(j.fields[k]);
      }
      assert NormFields(m) == NormFields(j.fields);
    }
  }

  /** Only an object's own members can be kept from the target. */
  lemma {:induction false} MergeOverLeafIsNorm(target: Json, j: Json)
    requires !j.Null? && !(target.Obj? && j.Obj?)
    ensures Norm(MergePatch(target, j)) == Norm(j)
  {
    assert MergePatch(target, j) == MergePatch(Null, j);
    MergeNullIsNorm(j);
  }

  /** Applying the computed patch to the original yields the modified object. */
  lemma {:induction false} MergeDiffIsModified(a: Fields, b: Fields)
    ensures NormFields(Merge(a, Diff(a, b))) == NormFields(b)
    decreases Obj(a)
  {
    var d := Diff(a, b);
    var m := Merge(a, d);
    forall k | k in a.Keys + b.Keys
      ensures (k in m && !m[k].Null?) <==> (k in b && !b[k].Null?)
      ensures k in m && !m[k].Null? ==> Norm(m[k]) == Norm(b[k])
    {
      DiffAt(a, b, k);
      MergeAt(a, d, k);
      if k in a && k in b && a[k].Obj? && b[k].Obj? {
        MergeNode(a, a, b, k);
        MergeDiffIsModified(a[k].fields, b[k].fields);
      } else if k in b && Change(a, b, k).Some? && !b[k].Null? {
        MergeOverLeafIsNorm(if k in a then a[k] else Null, b[k]);
      }
    }
    assert forall k :: k in m ==> k in a.Keys + b.Keys;
  }

  // ----- key-wise three-way merge -----

  /** One key whose two versions are not both objects is taken whole from the modified
      object if it changed, and left as the server has it otherwise. */
  lemma MergeLeaf(s: Fields, a: Fields, b: Fields, k: string)
    requires !(k in a && k in b && a[k].Obj? && b[k].Obj?)
    requires k in b ==> !b[k].Null? && !b[k].Obj?
    ensures Get(Merge(s, Diff(a, b)), k) == if Get(a, k) == Get(b, k) then Get(s, k) else Get(b, k)
  {
    DiffAt(a, b, k);
    MergeAt(s, Diff(a, b), k);
  }

  /** A key that is an object on both sides is merged member by member. */
  lemma MergeNode(s: Fields, a: Fields, b: Fields, k: string)
    requires k in a && k in b && a[k].Obj? && b[k].Obj?
    requires k in s && s[k].Obj?
    ensures Get(Merge(s, Diff(a, b)), k) == Some(Obj(Merge(s[k].fields, Diff(a[k].fields, b[k].fields))))
  {
    var inner := Diff(a[k].fields, b[k].fields);
    DiffAt(a, b, k);
    MergeAt(s, Diff(a, b), k);
    assert MergePatch(s[k], Obj(inner)) == Obj(Merge(s[k].fields, inner));
    if inner == map[] {
      assert Merge(s[k].fields, inner) == s[k].fields;
    }
  }

  /** The same, given the three versions of the member. */
  lemma MergePart(s: Fields, a: Fields, b: Fields, k: string, sk: Fields, ak: Fields, bk: Fields)
    requires Get(s, k) == Some(Obj(sk)) && Get(a, k) == Some(Obj(ak)) && Get(b, k) == Some(Obj(bk))
    ensures Get(Merge(s, Diff(a, b)), k) == Some(Obj(Merge(sk, Diff(ak, bk))))
  {
    MergeNode(s, a, b, k);
  }

  /** Nothing changed, nothing written. */
  lemma MergeUnchanged(s: Fields, a: Fields)
    ensures Merge(s, Diff(a, a)) == s
  {
    DiffEmptyIffEqual(a, a);
  }

  lemma SameFields(a: Fields, b: Fields)
    requires forall k :: Get(a, k) == Get(b, k)
    ensures a == b
  {
    forall k | k in a ensures k in b && a[k] == b[k] { assert Get(a, k) == Get(b, k); }
    forall k | k in b ensures k in a { assert Get(a, k) == Get(b, k); }
  }

  predicate Leaf(j: Option<Json>) {
    j.None? || (!j.value.Obj? && !j.value.Null?)
  }

  /** What the key-wise merge makes of a key that holds no object. */
  function Chosen(s: Fields, a: Fields, b: Fields, k: string): Option<Json> {
    if Get(a, k) == Get(b, k) then Get(s, k) else Get(b, k)
  }

  /** Records of leaves are merged key by key. */
  lemma MergeLeaves(s: Fields, a: Fields, b: Fields, merged: Fields)
    requires forall k :: Leaf(Get(a, k)) && Leaf(Get(b, k))
    requires forall k :: Get(merged, k) == Chosen(s, a, b, k)
    ensures Merge(s, Diff(a, b)) == merged
  {
    forall k ensures Get(Merge(s, Diff(a, b)), k) == Get(merged, k) {
      assert Leaf(Get(a, k)) && Leaf(Get(b, k));
      MergeLeaf(s, a, b, k);
    }
    SameFields(Merge(s, Diff(a, b)), merged);
  }

  /** Sending the same modified object once more changes nothing, whatever nulls it contains. */
  lemma {:induction false} PatchAgain(s: Fields, m: Fields)
    ensures var x := Merge(s, Diff(s, m));
            Merge(x, Diff(x, m)) == x
    decreases Obj(m)
  {
    var x := Merge(s, Diff(s, m));
    forall k ensures Get(Merge(x, Diff(x, m)), k) == Get(x, k) {
      MergeAt(s, Diff(s, m), k);
      DiffAt(s, m, k);
      MergeAt(x, Diff(x, m), k);
      DiffAt(x, m, k);
      if k in m && m[k].Obj? {
        var sk: Fields := if k in s && s[k].Obj? then s[k].fields else map[];
        MemberAfterPatch(s, m, k, sk);
        PatchAgain(sk, m[k].fields);
        MergeNode(x, x, m, k);
      }
    }
    SameFields(Merge(x, Diff(x, m)), x);
  }

  lemma MemberAfterPatch(s: Fields, m: Fields, k: string, sk: Fields)
    requires k in m && m[k].Obj?
    requires sk == if k in s && s[k].Obj? then s[k].fields else map[]
    ensures Get(Merge(s, Diff(s, m)), k) == Some(Obj(Merge(sk, Diff(sk, m[k].fields))))
  {
    if k in s && s[k].Obj? {
      MergeNode(s, s, m, k);
    } else {
      MergeAt(s, Diff(s, m), k);
      DiffAt(s, m, k);
      DiffFromNothing(m[k].fields);
      var sk0 := if k in s then s[k] else Null;
      assert MergePatch(sk0, m[k]) == MergePatch(Obj(map[]), m[k]);
    }
  }

  lemma DiffFromNothing(m: Fields)
    ensures Diff(map[], m) == m
  {
  }

  // ----- what a Go client reads -----

  /** Reading into a Go value, a zero member is as good as none. */
  predicate Zero(j: Json) {
    match j
    case Null => true
    case Bool(b) => !b
    case Num(n) => n == 0
    case Str(s) => s == ""
    case Arr(items) => items == []
    case Obj(f) => forall k :: k in f ==> Zero(f[k])
  }

  /** The JSON without its zero members. */
  function Essence(j: Json): Json {
    match j
    case Obj(f) => Obj(map k | k in f && !Zero(f[k]) :: Essence(f[k]))
    case _ => j
  }

  function EssenceOf(f: Fields): Fields {
    Essence(Obj(f)).fields
  }

  function EssenceAt(f: Fields, k: string): Option<Json> {
    if k in f && !Zero(f[k]) then Some(Essence(f[k])) else None
  }

  lemma EssenceByKey(f: Fields, k: string)
    ensures Get(EssenceOf(f), k) == EssenceAt(f, k)
  {
  }

  lemma SameEssence(a: Fields, b: Fields)
    ensures EssenceOf(a) == EssenceOf(b) <==> forall k :: EssenceAt(a, k) == EssenceAt(b, k)
  {
    forall k ensures Get(EssenceOf(a), k) == EssenceAt(a, k) && Get(EssenceOf(b), k) == EssenceAt(b, k) {
      EssenceByKey(a, k);
      EssenceByKey(b, k);
    }
    if forall k :: EssenceAt(a, k) == EssenceAt(b, k) {
      SameFields(EssenceOf(a), EssenceOf(b));
    }
  }

  lemma ZeroHasNoEssence(f: Fields)
    ensures Zero(Obj(f)) <==> EssenceOf(f) == map[]
  {
    if EssenceOf(f) == map[] {
      forall k | k in f ensures Zero(f[k]) {
        EssenceByKey(f, k);
      }
    }
  }

  lemma MembersEssence(a: Json, b: Json)
    requires if Zero(a) || Zero(b) then Zero(a) && Zero(b) else Essence(a) == Essence(b)
    ensures EssenceOf(Members(a)) == EssenceOf(Members(b))
  {
    if a.Obj? && Zero(a) { ZeroHasNoEssence(a.fields); }
    if b.Obj? && Zero(b) { ZeroHasNoEssence(b.fields); }
  }

  function Below(f: Fields, k: string): Json {
    if k in f then f[k] else Null
  }

  lemma MergedMember(f: Fields, patch: Fields, k: string)
    requires k in patch && patch[k].Obj?
    ensures var inner := Merge(Members(Below(f, k)), patch[k].fields);
            EssenceAt(Merge(f, patch), k) == if EssenceOf(inner) == map[] then None else Some(Obj(EssenceOf(inner)))
  {
    var inner := Merge(Members(Below(f, k)), patch[k].fields);
    MergeAt(f, patch, k);
    assert MergePatch(Below(f, k), patch[k]) == Obj(inner);
    ZeroHasNoEssence(inner);
  }

  lemma {:induction false} MergedMembersAgree(a: Fields, b: Fields, patch: Fields, k: string)
    requires EssenceAt(a, k) == EssenceAt(b, k)
    ensures EssenceAt(Merge(a, patch), k) == EssenceAt(Merge(b, patch), k)
    decreases Obj(patch), 0
  {
    if k in patch && patch[k].Obj? {
      MembersEssence(Below(a, k), Below(b, k));
      MergeKeepsEssence(Members(Below(a, k)), Members(Below(b, k)), patch[k].fields);
      MergedMember(a, patch, k);
      MergedMember(b, patch, k);
    } else {
      MergeAt(a, patch, k);
      MergeAt(b, patch, k);
    }
  }

  /** Two objects that read the same still read the same after any merge patch. */
  lemma {:induction false} MergeKeepsEssence(a: Fields, b: Fields, patch: Fields)
    requires EssenceOf(a) == EssenceOf(b)
    ensures EssenceOf(Merge(a, patch)) == EssenceOf(Merge(b, patch))
    decreases Obj(patch), 1
  {
    SameEssence(a, b);
    forall k { MergedMembersAgree(a, b, patch, k); }
    SameEssence(Merge(a, patch), Merge(b, patch));
  }

  // ----- path-wise three-way merge -----

  function Lookup(f: Fields, path: seq<string>): Option<Json>
    requires path != []
    decreases |path|
  {
    if path[0] !in f then None
    else if |path| == 1 then Some(f[path[0]])
    else Lookup(Members(f[path[0]]), path[1..])
  }

  /** Every proper prefix of the path leads to an object. */
  predicate Reaches(f: Fields, path: seq<string>)
    requires path != []
    decreases |path|
  {
    |path| == 1 || (path[0] in f && f[path[0]].Obj? && Reaches(f[path[0]].fields, path[1..]))
  }

  /** One step down: below a key that is an object in the modified tree, the patch is the patch from the
      members of the original, none if it was no object. */
  lemma MergeBelow(s: Fields, a: Fields, b: Fields, k: string)
    requires k in b && b[k].Obj?
    ensures var ak := if k in a then Members(a[k]) else map[];
            var sk := if k in s then Members(s[k]) else map[];
            if Get(a, k) == Get(b, k) then Get(Merge(s, Diff(a, b)), k) == Get(s, k) && Diff(ak, b[k].fields) == map[]
            else Get(Merge(s, Diff(a, b)), k) == Some(Obj(Merge(sk, Diff(ak, b[k].fields))))
  {
    DiffAt(a, b, k);
    MergeAt(s, Diff(a, b), k);
    var sk := if k in s then s[k] else Null;
    if k in a && a[k].Obj? {
      DiffEmptyIffEqual(a[k].fields, b[k].fields);
      assert MergePatch(sk, Obj(Diff(a[k].fields, b[k].fields))) ==
             MergePatch(Obj(Members(sk)), Obj(Diff(a[k].fields, b[k].fields)));
    } else {
      DiffFromNothing(b[k].fields);
      assert MergePatch(sk, b[k]) == MergePatch(Obj(Members(sk)), b[k]);
    }
  }

  lemma NothingBelow(path: seq<string>)
    requires path != []
    ensures Lookup(map[], path) == None
  {
  }

  /** Whatever the server holds, a place that the modification left alone keeps the server's value, as long
      as the modified tree has objects all the way down to it. */
  lemma {:induction false} UntouchedPathKept(s: Fields, a: Fields, b: Fields, path: seq<string>)
    requires path != [] && Reaches(b, path)
    requires Lookup(a, path) == Lookup(b, path)
    ensures Lookup(Merge(s, Diff(a, b)), path) == Lookup(s, path)
    decreases |path|
  {
    var k := path[0];
    if |path| == 1 {
      DiffAt(a, b, k);
      MergeAt(s, Diff(a, b), k);
      if k in a && a[k].Obj? {
        DiffEmptyIffEqual(a[k].fields, b[k].fields);
      }
    } else {
      var ak := if k in a then Members(a[k]) else map[];
      var sk := if k in s then Members(s[k]) else map[];
      MergeBelow(s, a, b, k);
      NothingBelow(path[1..]);
      UntouchedPathKept(sk, ak, b[k].fields, path[1..]);
    }
  }

  /** Whatever the server holds, a leaf that the modification changed becomes the modified one. */
  lemma {:induction false} TouchedLeafWritten(s: Fields, a: Fields, b: Fields, path: seq<string>)
    requires path != [] && Reaches(b, path)
    requires Lookup(a, path) != Lookup(b, path)
    requires Lookup(b, path).Some? ==> !Lookup(b, path).value.Obj? && !Lookup(b, path).value.Null?
    ensures Lookup(Merge(s, Diff(a, b)), path) == Lookup(b, path)
    decreases |path|
  {
    var k := path[0];
    if |path| == 1 {
      MergeLeaf(s, a, b, k);
    } else {
      var ak := if k in a then Members(a[k]) else map[];
      var sk := if k in s then Members(s[k]) else map[];
      MergeBelow(s, a, b, k);
      NothingBelow(path[1..]);
      TouchedLeafWritten(sk, ak, b[k].fields, path[1..]);
    }
  }

  /** Below a key that the modification removes or replaces by something else than an object, nothing of
      the server's is left. */
  lemma ReplacedSubtreeLost(s: Fields, a: Fields, b: Fields, path: seq<string>)
    requires |path| > 1 && Get(a, path[0]) != Get(b, path[0])
    requires path[0] in b ==> !b[path[0]].Obj?
    ensures Lookup(Merge(s, Diff(a, b)), path) == None
  {
    DiffAt(a, b, path[0]);
    MergeAt(s, Diff(a, b), path[0]);
    NothingBelow(path[1..]);
  }
}
