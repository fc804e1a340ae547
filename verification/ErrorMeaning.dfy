/** Which kinds are found, said of the chains of unwrapped errors (errx/inspect.go, errx/kind.go). */
module ErrorMeaning {
  import opened Wrappers
  import opened ErrorGraph
  import opened ErrorKinds
  import opened ErrorCycles

  /** Unwrapping n gives c: it is the one wrapped error, or one of the joined ones. A nil error does
      not count, whether the interface or the value in it is nil. */
  predicate UnwrapsTo(g: Graph, n: Id, c: Id) {
    && n in g && c in g && !g[c].typedNil
    && match g[n].shape
       case Joined(list) => Some(c) in list
       case Wrapped(inner) => inner == Some(c)
       case Plain => false
  }

  /** Each error of the chain is unwrapped from the one before it. */
  predicate Chain(g: Graph, chain: seq<Id>) {
    && |chain| > 0 && chain[0] in g && !g[chain[0]].typedNil
    && forall i :: 0 < i < |chain| ==> UnwrapsTo(g, chain[i - 1], chain[i])
  }

  /** The error classifies itself as this kind, one of the ten that are neither unknown nor invalid. */
  predicate Declares(g: Graph, n: Id, k: Kind) {
    n in g && 1 <= k <= 10 && g[n].classified == Some(k)
  }

  lemma DeclaresExactly(g: Graph, n: Id, k: Kind)
    requires n in g
    ensures Effective(g[n]) == Some(k) <==> Declares(g, n, k)
  {
  }

  lemma UnwrapsExactly(g: Graph, n: Id, c: Id)
    requires Closed(g) && n in g
    ensures HasChild(g, n, c) <==> UnwrapsTo(g, n, c)
  {
    if HasChild(g, n, c) {
      var i :| 0 <= i < |Children(g[n])| && Children(g[n])[i] == Some(c) && !g[c].typedNil;
    }
    if UnwrapsTo(g, n, c) {
      var i :| 0 <= i < |Children(g[n])| && Children(g[n])[i] == Some(c);
    }
  }

  lemma ChainExactly(g: Graph, p: seq<Id>)
    requires Closed(g)
    ensures IsPath(g, p) <==> Chain(g, p)
  {
    if IsPath(g, p) {
      forall i | 0 < i < |p|
        ensures UnwrapsTo(g, p[i - 1], p[i])
      {
        assert HasChild(g, p[i - 1], p[i]);
        UnwrapsExactly(g, p[i - 1], p[i]);
      }
    }
    if Chain(g, p) {
      forall i | 0 <= i < |p|
        ensures p[i] in g && !g[p[i]].typedNil
      {
        assert i > 0 ==> UnwrapsTo(g, p[i - 1], p[i]);
      }
      forall i, j | 0 <= i && j == i + 1 < |p|
        ensures HasChild(g, p[i], p[j])
      {
        assert UnwrapsTo(g, p[j - 1], p[j]);
        UnwrapsExactly(g, p[i], p[j]);
      }
    }
  }

  /** KindsOf holds a kind exactly when a chain of unwrapped errors ends in one that declares it. */
  lemma KindsExactly(g: Graph, e: Option<Id>, k: Kind)
    requires Closed(g)
    ensures KindReached(g, e, k) <==>
            exists chain :: Chain(g, chain) && e == Some(chain[0]) && Declares(g, chain[|chain| - 1], k)
  {
    if KindReached(g, e, k) {
      var n :| Reaches(g, e, n) && n in g && Effective(g[n]) == Some(k);
      var p :| IsPath(g, p) && p[0] == e.value && p[|p| - 1] == n;
      ChainExactly(g, p);
      DeclaresExactly(g, n, k);
    }
    if chain :| Chain(g, chain) && e == Some(chain[0]) && Declares(g, chain[|chain| - 1], k) {
      ChainExactly(g, chain);
      DeclaresExactly(g, chain[|chain| - 1], k);
      assert Reaches(g, e, chain[|chain| - 1]);
    }
  }

  // ----- the plain kind -----

  /** Some error that n unwraps to has this plain kind. */
  ghost predicate ChildHas(g: Graph, n: Id, fuel: nat, k: Kind)
    requires Closed(g)
  {
    exists c: Id :: UnwrapsTo(g, n, c) && PlainKind(g, Some(c), fuel) == Some(k)
  }

  lemma {:induction false} KindsOfChildren(g: Graph, list: seq<Option<Id>>, fuel: nat, k: Kind)
    requires Closed(g) && forall i :: 0 <= i < |list| ==> Refers(g, list[i])
    ensures k in PlainKinds(g, list, fuel) <==> exists i :: 0 <= i < |list| && PlainKind(g, list[i], fuel) == Some(k)
  {
    hide PlainKind;
    if list == [] {
    } else {
      KindsOfChildren(g, list[1..], fuel, k);
      if i :| 0 <= i < |list| && PlainKind(g, list[i], fuel) == Some(k) {
        if i > 0 {
          assert list[1..][i - 1] == list[i];
        }
      }
      if i :| 0 <= i < |list[1..]| && PlainKind(g, list[1..][i], fuel) == Some(k) {
        assert list[i + 1] == list[1..][i];
      }
    }
  }

  lemma OnlyKind(kinds: set<Kind>, k: Kind)
    ensures TheOnly(kinds) == Some(k) <==> k in kinds && forall j :: j in kinds ==> j == k
  {
    if k in kinds && forall j :: j in kinds ==> j == k {
      assert kinds == {k};
      OneKind(k);
    }
  }

  /** The plain kind of an error is the one it declares; an error that declares none has the one kind
      that those it unwraps to have, if they do not differ. */
  lemma PlainKindExactly(g: Graph, n: Id, fuel: nat, k: Kind)
    requires Closed(g) && n in g && !g[n].typedNil
    ensures PlainKind(g, Some(n), fuel + 1) == Some(k) <==>
            || Declares(g, n, k)
            || ((forall j: Kind :: !Declares(g, n, j)) && ChildHas(g, n, fuel, k) && forall j: Kind :: ChildHas(g, n, fuel, j) ==> j == k)
  {
    forall j: Kind
      ensures Effective(g[n]) == Some(j) <==> Declares(g, n, j)
    {
      DeclaresExactly(g, n, j);
    }
    var kinds := PlainKinds(g, Children(g[n]), fuel);
    forall j: Kind
      ensures j in kinds <==> ChildHas(g, n, fuel, j)
    {
      ChildKinds(g, n, fuel, j);
    }
    OnlyKind(kinds, k);
    hide PlainKinds, ChildHas, Declares, Effective, Children, TheOnly;
    assert Effective(g[n]).Some? ==> Declares(g, n, Effective(g[n]).value);
  }

  lemma ChildKinds(g: Graph, n: Id, fuel: nat, k: Kind)
    requires Closed(g) && n in g
    ensures k in PlainKinds(g, Children(g[n]), fuel) <==> ChildHas(g, n, fuel, k)
  {
    KindsOfChildren(g, Children(g[n]), fuel, k);
    if i :| 0 <= i < |Children(g[n])| && PlainKind(g, Children(g[n])[i], fuel) == Some(k) {
      var c := Children(g[n])[i].value;
      assert HasChild(g, n, c);
      UnwrapsExactly(g, n, c);
    }
    if ChildHas(g, n, fuel, k) {
      var c: Id :| UnwrapsTo(g, n, c) && PlainKind(g, Some(c), fuel) == Some(k);
      UnwrapsExactly(g, n, c);
      var i :| 0 <= i < |Children(g[n])| && Children(g[n])[i] == Some(c);
    }
  }

  // ----- the order of KindsOf -----

  /** Pieces put together, the first one first. */
  function Flat(pieces: seq<seq<Id>>): seq<Id> {
    if pieces == [] then [] else pieces[0] + Flat(pieces[1..])
  }

  /** One piece for each error of the list, in the order of the list. */
  ghost predicate PiecesOf(g: Graph, list: seq<Option<Id>>, above: set<Id>, fuel: nat, pieces: seq<seq<Id>>)
    requires Closed(g) && forall i :: 0 <= i < |list| ==> Refers(g, list[i])
  {
    |pieces| == |list| && forall i :: 0 <= i < |list| ==> SimplePaths(g, list[i], above, fuel) == Some(pieces[i])
  }

  lemma {:induction false} ListInOrder(g: Graph, list: seq<Option<Id>>, above: set<Id>, fuel: nat) returns (pieces: seq<seq<Id>>)
    requires Closed(g) && (forall i :: 0 <= i < |list| ==> Refers(g, list[i])) && SimplePathsAll(g, list, above, fuel).Some?
    ensures PiecesOf(g, list, above, fuel, pieces) && SimplePathsAll(g, list, above, fuel).value == Flat(pieces)
  {
    hide SimplePaths;
    if list == [] {
      pieces := [];
    } else {
      var rest := ListInOrder(g, list[1..], above, fuel);
      pieces := [SimplePaths(g, list[0], above, fuel).value] + rest;
      assert pieces[1..] == rest;
      forall i | 0 <= i < |list|
        ensures SimplePaths(g, list[i], above, fuel) == Some(pieces[i])
      {
        if i > 0 {
          assert list[i] == list[1..][i - 1];
        }
      }
    }
  }

  /** Outer before inner, and of joined errors the first before the second: the simple paths from an
      error are the error itself and then those from each error it unwraps to, in their order. A pointer
      that is above already, and a nil error, are passed over. */
  lemma PathsInOrder(g: Graph, n: Id, above: set<Id>, fuel: nat) returns (pieces: seq<seq<Id>>)
    requires Closed(g) && n in g && SimplePaths(g, Some(n), above, fuel + 1).Some?
    ensures var paths := SimplePaths(g, Some(n), above, fuel + 1).value;
            if g[n].typedNil || (g[n].pointer && n in above) then paths == []
            else
              var list := match g[n].shape { case Joined(list) => list case Wrapped(inner) => [inner] case Plain => [] };
              && (forall i :: 0 <= i < |list| ==> Refers(g, list[i]))
              && PiecesOf(g, list, if g[n].pointer then above + {n} else above, fuel, pieces)
              && paths == [n] + Flat(pieces)
  {
    pieces := [];
    if !(g[n].typedNil || (g[n].pointer && n in above)) {
      var list := match g[n].shape { case Joined(list) => list case Wrapped(inner) => [inner] case Plain => [] };
      assert list == Children(g[n]);
      pieces := ListInOrder(g, list, if g[n].pointer then above + {n} else above, fuel);
    }
  }

  /** The first error of a trail that declares the kind stands at i. */
  predicate FirstDeclared(g: Graph, trail: seq<Id>, k: Kind, i: int) {
    0 <= i < |trail| && Declares(g, trail[i], k) && forall j :: 0 <= j < i ==> !Declares(g, trail[j], k)
  }

  /** Kind a is first declared before kind b is. */
  ghost predicate DeclaredBefore(g: Graph, trail: seq<Id>, a: Kind, b: Kind) {
    exists i, j :: FirstDeclared(g, trail, a, i) && FirstDeclared(g, trail, b, j) && i < j
  }

  /** Kinds are collected in the order in which they are first declared along the trail. */
  lemma {:induction false} CollectsInOrder(g: Graph, trail: seq<Id>, a: int, b: int)
    requires (forall i :: 0 <= i < |trail| ==> trail[i] in g) && 0 <= a < b < |Collect(g, trail)|
    ensures DeclaredBefore(g, trail, Collect(g, trail)[a], Collect(g, trail)[b])
  {
    hide KindSet, DeclaredBefore, Effective;
    var init, n := trail[..|trail| - 1], |trail| - 1;
    assert trail == init + [trail[n]];
    assert forall i :: 0 <= i < n ==> init[i] in g;
    CollectOneMore(g, init, trail[n]);
    var kinds, before := Collect(g, trail), Collect(g, init);
    if b < |before| {
      CollectsInOrder(g, init, a, b);
      StillBefore(g, init, trail[n], before[a], before[b]);
    } else {
      NewInOrder(g, init, trail[n], before[a], kinds[b]);
    }
  }

  lemma StillBefore(g: Graph, init: seq<Id>, n: Id, a: Kind, b: Kind)
    requires DeclaredBefore(g, init, a, b)
    ensures DeclaredBefore(g, init + [n], a, b)
  {
    hide FirstDeclared;
    var i, j :| FirstDeclared(g, init, a, i) && FirstDeclared(g, init, b, j) && i < j;
    Longer(g, init, init + [n], a, i);
    Longer(g, init, init + [n], b, j);
  }

  lemma NewInOrder(g: Graph, init: seq<Id>, n: Id, a: Kind, b: Kind)
    requires n in g && (forall i :: 0 <= i < |init| ==> init[i] in g)
    requires a in Collect(g, init) && b !in Collect(g, init) && Effective(g[n]) == Some(b)
    ensures DeclaredBefore(g, init + [n], a, b)
  {
    hide Collect, Effective;
    var trail := init + [n];
    var i := FirstPlace(g, init, a);
    Longer(g, init, trail, a, i);
    NotYet(g, init, b);
    DeclaresExactly(g, n, b);
    assert FirstDeclared(g, trail, b, |init|);
  }

  lemma Longer(g: Graph, init: seq<Id>, trail: seq<Id>, k: Kind, i: int)
    requires init <= trail && FirstDeclared(g, init, k, i)
    ensures FirstDeclared(g, trail, k, i)
  {
    assert forall j :: 0 <= j < |init| ==> trail[j] == init[j];
  }

  lemma {:induction false} FirstPlace(g: Graph, trail: seq<Id>, k: Kind) returns (i: int)
    requires (forall j :: 0 <= j < |trail| ==> trail[j] in g) && k in Collect(g, trail)
    ensures FirstDeclared(g, trail, k, i)
  {
    var init, n := trail[..|trail| - 1], |trail| - 1;
    assert trail == init + [trail[n]];
    if k in Collect(g, init) {
      i := FirstPlace(g, init, k);
      Longer(g, init, trail, k, i);
    } else {
      NotYet(g, init, k);
      DeclaresExactly(g, trail[n], k);
      i := n;
    }
  }

  lemma NotYet(g: Graph, trail: seq<Id>, k: Kind)
    requires (forall j :: 0 <= j < |trail| ==> trail[j] in g) && k !in Collect(g, trail)
    ensures forall j :: 0 <= j < |trail| ==> !Declares(g, trail[j], k)
  {
    forall j | 0 <= j < |trail|
      ensures !Declares(g, trail[j], k)
    {
      DeclaresExactly(g, trail[j], k);
      assert trail[j] in trail;
    }
  }
}
