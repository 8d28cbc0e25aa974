/** Shared result types, errors that are looked at one after the other, and induction on steps. */
module Prelude {

  datatype Option<+T> = None | Some(value: T)

  /** A Go `(value, error)` pair: exactly one of the two is meaningful. */
  datatype Result<+T> = Ok(value: T) | Err(message: string)

  function ErrorOf<T>(r: Result<T>): Option<string> {
    if r.Err? then Some(r.message) else None
  }

  function AsError(bad: bool, message: string): Option<string> {
    if bad then Some(message) else None
  }

  function Only(asked: bool, error: Option<string>): Option<string> {
    if asked then error else None
  }

  function First(errors: seq<Option<string>>): Option<string> {
    if errors == [] then None else if errors[0].Some? then errors[0] else First(errors[1..])
  }

  lemma {:induction false} FirstSkips(errors: seq<Option<string>>, n: nat)
    requires n <= |errors| && forall i :: 0 <= i < n ==> errors[i].None?
    ensures First(errors) == First(errors[n..])
  {
    if n > 0 {
      FirstSkips(errors[1..], n - 1);
      assert errors[1..][n - 1..] == errors[n..];
    } else {
      assert errors[0..] == errors;
    }
  }

  lemma FirstAt(errors: seq<Option<string>>, n: nat)
    requires n < |errors| && errors[n].Some? && forall i :: 0 <= i < n ==> errors[i].None?
    ensures First(errors) == errors[n]
  {
    FirstSkips(errors, n);
  }

  lemma NoneFirst(errors: seq<Option<string>>)
    requires forall i :: 0 <= i < |errors| ==> errors[i].None?
    ensures First(errors) == None
  {
    FirstSkips(errors, |errors|);
  }

  lemma TwoErrors(a: Option<string>, b: Option<string>)
    ensures First([a, b]) == if a.Some? then a else b
  {
    assert [a, b][1..] == [b] && [b][1..] == [];
    assert First([b]) == b;
  }

  lemma ThreeErrors(a: Option<string>, b: Option<string>, c: Option<string>)
    ensures First([a, b, c]) == if a.Some? then a else if b.Some? then b else c
  {
    assert [a, b, c][1..] == [b, c];
    TwoErrors(b, c);
  }

  lemma FourErrors(a: Option<string>, b: Option<string>, c: Option<string>, d: Option<string>)
    ensures First([a, b, c, d]) == if a.Some? then a else if b.Some? then b else if c.Some? then c else d
  {
    assert [a, b, c, d][1..] == [b, c, d];
    ThreeErrors(b, c, d);
  }

  lemma {:induction false} FindFirst(errors: seq<Option<string>>) returns (n: nat)
    ensures n <= |errors| && (n < |errors| ==> errors[n].Some?)
    ensures forall i :: 0 <= i < n ==> errors[i].None?
  {
    n := 0;
    while n < |errors| && errors[n].None?
      invariant n <= |errors| && forall i :: 0 <= i < n ==> errors[i].None?
    {
      n := n + 1;
    }
  }

  lemma {:induction false} StepByStep(q: nat -> bool, n: nat)
    requires q(0) && forall i: nat :: i < n && q(i) ==> q(i + 1)
    ensures q(n)
  {
    if n > 0 {
      StepByStep(q, n - 1);
      assert q(n - 1 + 1);
    }
  }
}
