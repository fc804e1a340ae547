/** Result types shared by every module of the model. */
module Wrappers {
  datatype Option<+T> = None | Some(value: T)

  /** The error types of certs/errors.go, without their messages.
      NoMutation is the private sentinel of certs/store.go, Canceled a context error. */
  datatype Error =
    | Validation
    | NotFound
    | Forbidden
    | Conflict
    | Drift
    | Corrupt
    | Unavailable
    | NoMutation
    | Canceled

  datatype Result<+T> = Ok(value: T) | Err(error: Error) {
    predicate IsFailure() {
      Err?
    }

    function PropagateFailure<U>(): Result<U>
      requires Err?
    {
      Err(error)
    }

    function Extract(): T
      requires Ok?
    {
      value
    }
  }

  /** A loop over a Go map takes the keys in some order: there is always one left to take. */
  lemma SomeMember<T>(s: set<T>) returns (x: T)
    requires s != {}
    ensures x in s
  {
    assert (forall y :: y !in s) ==> s == {};
    x :| x in s;
  }

  // ----- sequences without repetitions -----

  predicate NoRepeats<T(==)>(xs: seq<T>) {
    forall i, j :: 0 <= i < j < |xs| ==> xs[i] != xs[j]
  }

  lemma TwoMembers<T>(xs: seq<T>)
    requires NoRepeats(xs)
    ensures |xs| > 1 ==> xs[0] in xs && xs[1] in xs && xs[0] != xs[1]
  {
  }

  lemma {:induction false} OccursOnce<T>(xs: seq<T>, x: T)
    requires NoRepeats(xs)
    ensures multiset(xs)[x] <= 1
  {
    if xs == [] {
    } else {
      OccursOnce(xs[1..], x);
      assert xs == [xs[0]] + xs[1..];
      if xs[0] == x {
        assert x !in xs[1..];
      }
    }
  }

  lemma OccursTwice<T>(xs: seq<T>, i: nat, j: nat)
    requires i < j < |xs| && xs[i] == xs[j]
    ensures multiset(xs)[xs[i]] >= 2
  {
    assert xs == xs[..i] + [xs[i]] + xs[i + 1..j] + [xs[j]] + xs[j + 1..];
  }

  lemma PermutationNoRepeats<T>(xs: seq<T>, ys: seq<T>)
    requires NoRepeats(xs) && multiset(xs) == multiset(ys)
    ensures NoRepeats(ys)
  {
    forall i, j | 0 <= i < j < |ys|
      ensures ys[i] != ys[j]
    {
      if ys[i] == ys[j] {
        OccursOnce(xs, ys[i]);
        OccursTwice(ys, i, j);
        assert false;
      }
    }
  }

  lemma SameMembers<T>(a: seq<T>, b: seq<T>)
    requires multiset(a) == multiset(b)
    ensures |a| == |b| && forall c :: c in a <==> c in b
  {
    assert |multiset(a)| == |multiset(b)|;
    assert forall c :: c in a <==> c in multiset(a);
    assert forall c :: c in b <==> c in multiset(b);
  }

  lemma {:induction false} DistinctCount<T>(xs: seq<T>, all: set<T>)
    requires NoRepeats(xs)
    requires forall x :: x in all <==> x in xs
    ensures |xs| == |all|
  {
    if xs == [] {
      assert forall x :: x !in all;
    } else {
      assert xs == [xs[0]] + xs[1..];
      DistinctCount(xs[1..], all - {xs[0]});
    }
  }
}
