/** Inspecting wrapped errors (errx/inspect.go). Errors form a graph that may share nodes and may
    be cyclic; only pointer errors are remembered as visited. */
module ErrorGraph {
  import opened Wrappers

  type Id = nat
  type Kind = nat

  const UNKNOWN: Kind := 0
  const INTERNAL: Kind := 10

  /** What an error unwraps to: a list, one error, or nothing. None is a nil error. */
  datatype Shape = Joined(list: seq<Option<Id>>) | Wrapped(inner: Option<Id>) | Plain

  /** pointer: a non-nil pointer, the only errors markSeen can recognise. typedNil: a nil value in a
      non-nil interface. classified: what Kind() returns, if the error has that method. */
  datatype Node = Node(pointer: bool, typedNil: bool, classified: Option<Kind>, shape: Shape)

  type Graph = map<Id, Node>

  function Children(n: Node): seq<Option<Id>> {
    match n.shape
    case Joined(list) => list
    case Wrapped(inner) => [inner]
    case Plain => []
  }

  predicate Refers(g: Graph, e: Option<Id>) {
    e.Some? ==> e.value in g
  }

  predicate Closed(g: Graph) {
    forall n, i :: n in g && 0 <= i < |Children(g[n])| ==> Refers(g, Children(g[n])[i])
  }

  predicate IsNil(g: Graph, e: Option<Id>)
    requires Refers(g, e)
  {
    e.None? || g[e.value].typedNil
  }

  /** A declared kind other than Unknown. */
  function Effective(n: Node): Option<Kind> {
    if n.classified.Some? && UNKNOWN < n.classified.value <= INTERNAL then n.classified else None
  }

  // ----- the traversal of KindsOf -----

  /** The pointers marked so far and the errors inspected, in order. */
  datatype Trace = Trace(seen: set<Id>, trail: seq<Id>)

  function Mark(g: Graph, n: Id, seen: set<Id>): set<Id>
    requires n in g
  {
    if g[n].pointer then seen + {n} else seen
  }

  predicate Skipped(g: Graph, e: Option<Id>, seen: set<Id>)
    requires Refers(g, e)
  {
    IsNil(g, e) || (g[e.value].pointer && e.value in seen)
  }

  /** walk, with a bound on the depth of the recursion: None when the bound is too small. */
  function Walk(g: Graph, e: Option<Id>, seen: set<Id>, fuel: nat): Option<Trace>
    requires Closed(g) && Refers(g, e)
    decreases fuel, 0
  {
    if Skipped(g, e, seen) then Some(Trace(seen, []))
    else if fuel == 0 then None
    else
      var n := e.value;
      var below := WalkAll(g, Children(g[n]), Mark(g, n, seen), fuel - 1);
      if below.None? then None else Some(Trace(below.value.seen, [n] + below.value.trail))
  }

  function WalkAll(g: Graph, list: seq<Option<Id>>, seen: set<Id>, fuel: nat): Option<Trace>
    requires Closed(g) && forall i :: 0 <= i < |list| ==> Refers(g, list[i])
    decreases fuel, |list| + 1
  {
    if list == [] then Some(Trace(seen, []))
    else
      var first := Walk(g, list[0], seen, fuel);
      if first.None? then None
      else
        var rest := WalkAll(g, list[1..], first.value.seen, fuel);
        if rest.None? then None else Some(Trace(rest.value.seen, first.value.trail + rest.value.trail))
  }

  ghost predicate Terminates(g: Graph, e: Option<Id>)
    requires Closed(g) && Refers(g, e)
  {
    exists fuel :: Walk(g, e, {}, fuel).Some?
  }

  /** Once the bound suffices, a larger one changes nothing. */
  lemma {:induction false} MoreFuel(g: Graph, e: Option<Id>, seen: set<Id>, fuel: nat, more: nat)
    requires Closed(g) && Refers(g, e) && Walk(g, e, seen, fuel).Some? && fuel <= more
    ensures Walk(g, e, seen, more) == Walk(g, e, seen, fuel)
    decreases fuel, 0
  {
    if Skipped(g, e, seen) {
    } else {
      MoreFuelAll(g, Children(g[e.value]), Mark(g, e.value, seen), fuel - 1, more - 1);
    }
  }

  lemma {:induction false} MoreFuelAll(g: Graph, list: seq<Option<Id>>, seen: set<Id>, fuel: nat, more: nat)
    requires Closed(g) && forall i :: 0 <= i < |list| ==> Refers(g, list[i])
    requires WalkAll(g, list, seen, fuel).Some? && fuel <= more
    ensures WalkAll(g, list, seen, more) == WalkAll(g, list, seen, fuel)
    decreases fuel, |list| + 1
  {
    if list == [] {
    } else {
      MoreFuel(g, list[0], seen, fuel, more);
      MoreFuelAll(g, list[1..], Walk(g, list[0], seen, fuel).value.seen, fuel, more);
    }
  }

  // ----- the trail is what can be reached -----

  predicate HasChild(g: Graph, n: Id, c: Id)
    requires n in g && Closed(g)
  {
    exists i :: 0 <= i < |Children(g[n])| && Children(g[n])[i] == Some(c) && !g[c].typedNil
  }

  /** Every error of the trail has all its children in the trail or marked before. */
  ghost predicate Covers(g: Graph, seen: set<Id>, t: Trace)
    requires Closed(g)
  {
    && seen <= t.seen
    && (forall n :: n in t.seen ==> n in seen || n in t.trail)
    && (forall n :: n in t.trail ==> n in g && !g[n].typedNil)
    && (forall n, c :: n in t.trail && HasChild(g, n, c) ==> c in seen || c in t.trail)
  }

  lemma {:induction false} WalkCovers(g: Graph, e: Option<Id>, seen: set<Id>, fuel: nat)
    requires Closed(g) && Refers(g, e) && Walk(g, e, seen, fuel).Some?
    ensures Covers(g, seen, Walk(g, e, seen, fuel).value)
    ensures !IsNil(g, e) ==> e.value in seen || e.value in Walk(g, e, seen, fuel).value.trail
    decreases fuel, 0
  {
    if Skipped(g, e, seen) {
    } else {
      var n := e.value;
      WalkAllCovers(g, Children(g[n]), Mark(g, n, seen), fuel - 1);
      var below := WalkAll(g, Children(g[n]), Mark(g, n, seen), fuel - 1).value;
      var trail := [n] + below.trail;
      forall m, c | m in trail && HasChild(g, m, c)
        ensures c in seen || c in trail
      {
        if m == n {
          var i :| 0 <= i < |Children(g[n])| && Children(g[n])[i] == Some(c) && !g[c].typedNil;
        }
      }
    }
  }

  lemma {:induction false} WalkAllCovers(g: Graph, list: seq<Option<Id>>, seen: set<Id>, fuel: nat)
    requires Closed(g) && (forall i :: 0 <= i < |list| ==> Refers(g, list[i])) && WalkAll(g, list, seen, fuel).Some?
    ensures Covers(g, seen, WalkAll(g, list, seen, fuel).value)
    ensures forall i :: 0 <= i < |list| && !IsNil(g, list[i]) ==> list[i].value in seen || list[i].value in WalkAll(g, list, seen, fuel).value.trail
    decreases fuel, |list| + 1
  {
    if list == [] {
    } else {
      var first := Walk(g, list[0], seen, fuel).value;
      WalkCovers(g, list[0], seen, fuel);
      WalkAllCovers(g, list[1..], first.seen, fuel);
      var rest := WalkAll(g, list[1..], first.seen, fuel).value;
      forall i | 0 <= i < |list| && !IsNil(g, list[i])
        ensures list[i].value in seen || list[i].value in first.trail + rest.trail
      {
        if i > 0 {
          assert list[i] == list[1..][i - 1];
        }
      }
    }
  }

  ghost predicate IsPath(g: Graph, p: seq<Id>)
    requires Closed(g)
  {
    && p != []
    && (forall i :: 0 <= i < |p| ==> p[i] in g && !g[p[i]].typedNil)
    && (forall i, j :: 0 <= i && j == i + 1 < |p| ==> HasChild(g, p[i], p[j]))
  }

  ghost predicate Reaches(g: Graph, e: Option<Id>, n: Id)
    requires Closed(g)
  {
    e.Some? && exists p :: IsPath(g, p) && p[0] == e.value && p[|p| - 1] == n
  }

  lemma {:induction false} ClosedSetHoldsPath(g: Graph, s: set<Id>, p: seq<Id>)
    requires Closed(g) && IsPath(g, p) && p[0] in s
    requires forall n, c :: n in s && n in g && HasChild(g, n, c) ==> c in s
    ensures p[|p| - 1] in s
    decreases |p|
  {
    if |p| > 1 {
      assert HasChild(g, p[0], p[1]);
      ClosedSetHoldsPath(g, s, p[1..]);
    }
  }

  lemma ReachesItself(g: Graph, n: Id)
    requires Closed(g) && n in g && !g[n].typedNil
    ensures Reaches(g, Some(n), n)
  {
    assert IsPath(g, [n]);
  }

  lemma ReachesThrough(g: Graph, n: Id, c: Id, m: Id)
    requires Closed(g) && n in g && !g[n].typedNil && HasChild(g, n, c) && Reaches(g, Some(c), m)
    ensures Reaches(g, Some(n), m)
  {
    var p :| IsPath(g, p) && p[0] == c && p[|p| - 1] == m;
    var q := [n] + p;
    forall i, j | 0 <= i && j == i + 1 < |q|
      ensures HasChild(g, q[i], q[j])
    {
      if i > 0 {
        assert HasChild(g, p[i - 1], p[j - 1]);
      }
    }
    assert IsPath(g, q);
  }

  lemma {:induction false} TrailIsReachable(g: Graph, e: Option<Id>, seen: set<Id>, fuel: nat, m: Id)
    requires Closed(g) && Refers(g, e) && Walk(g, e, seen, fuel).Some? && m in Walk(g, e, seen, fuel).value.trail
    ensures Reaches(g, e, m)
    decreases fuel, 0
  {
    var n := e.value;
    if m == n {
      ReachesItself(g, n);
    } else {
      var c := AllTrailIsReachable(g, Children(g[n]), Mark(g, n, seen), fuel - 1, m);
      ReachesThrough(g, n, c, m);
    }
  }

  lemma {:induction false} AllTrailIsReachable(g: Graph, list: seq<Option<Id>>, seen: set<Id>, fuel: nat, m: Id)
    returns (c: Id)
    requires Closed(g) && (forall i :: 0 <= i < |list| ==> Refers(g, list[i])) && WalkAll(g, list, seen, fuel).Some?
    requires m in WalkAll(g, list, seen, fuel).value.trail
    ensures exists i :: 0 <= i < |list| && list[i] == Some(c) && !g[c].typedNil
    ensures Reaches(g, Some(c), m)
    decreases fuel, |list| + 1
  {
    var first := Walk(g, list[0], seen, fuel).value;
    if m in first.trail {
      TrailIsReachable(g, list[0], seen, fuel, m);
      c := list[0].value;
    } else {
      c := AllTrailIsReachable(g, list[1..], first.seen, fuel, m);
      var i :| 0 <= i < |list[1..]| && list[1..][i] == Some(c) && !g[c].typedNil;
      assert list[i + 1] == Some(c);
    }
  }

  /** The errors inspected are exactly those that unwrapping can reach, cycles or not. */
  lemma TrailIsReachability(g: Graph, e: Option<Id>, fuel: nat, n: Id)
    requires Closed(g) && Refers(g, e) && Walk(g, e, {}, fuel).Some?
    ensures n in Walk(g, e, {}, fuel).value.trail <==> Reaches(g, e, n)
  {
    var trail := Walk(g, e, {}, fuel).value.trail;
    if n in trail {
      TrailIsReachable(g, e, {}, fuel, n);
    }
    if Reaches(g, e, n) {
      WalkCovers(g, e, {}, fuel);
      var p :| IsPath(g, p) && p[0] == e.value && p[|p| - 1] == n;
      ClosedSetHoldsPath(g, (set m | m in trail), p);
    }
  }

  // ----- kinds -----

  function KindSet(g: Graph, trail: seq<Id>): set<Kind> {
    set n | n in trail && n in g && Effective(g[n]).Some? :: Effective(g[n]).value
  }

  /** The kinds along a trail, each at its first occurrence. */
  function Collect(g: Graph, trail: seq<Id>): (r: seq<Kind>)
    ensures NoRepeats(r)
    ensures forall k :: k in r <==> k in KindSet(g, trail)
  {
    if trail == [] then []
    else
      var init, n := trail[..|trail| - 1], trail[|trail| - 1];
      assert trail == init + [n];
      var before := Collect(g, init);
      if n in g && Effective(g[n]).Some? && Effective(g[n]).value !in before then before + [Effective(g[n]).value] else before
  }

  /** KindsOf returns exactly the kinds of the reachable errors, each once. */
  lemma KindsOfIsExact(g: Graph, e: Option<Id>, fuel: nat, k: Kind)
    requires Closed(g) && Refers(g, e) && Walk(g, e, {}, fuel).Some?
    ensures var kinds := Collect(g, Walk(g, e, {}, fuel).value.trail);
            && NoRepeats(kinds)
            && (k in kinds <==> KindReached(g, e, k))
  {
    var trail := Walk(g, e, {}, fuel).value.trail;
    if k in KindSet(g, trail) {
      var n :| n in trail && n in g && Effective(g[n]) == Some(k);
      TrailIsReachability(g, e, fuel, n);
    }
    if exists n :: Reaches(g, e, n) && n in g && Effective(g[n]) == Some(k) {
      var n :| Reaches(g, e, n) && n in g && Effective(g[n]) == Some(k);
      TrailIsReachability(g, e, fuel, n);
    }
  }

  // ----- KindsOf as the source runs it -----

  /** markSeen. */
  method MarkSeen(g: Graph, n: Id, seen: set<Id>) returns (again: bool, marked: set<Id>)
    requires n in g
    ensures again <==> g[n].pointer && n in seen
    ensures marked == Mark(g, n, seen)
  {
    if !g[n].pointer {
      return false, seen;
    }
    if n in seen {
      assert seen == seen + {n};
      return true, seen;
    }
    return false, seen + {n};
  }

  class Collector {
    const g: Graph
    var seen: set<Id>
    var found: set<Kind>
    var kinds: seq<Kind>
    ghost var trail: seq<Id>

    constructor (g: Graph)
      ensures this.g == g && seen == {} && found == {} && kinds == [] && trail == []
    {
      this.g := g;
      seen, found, kinds, trail := {}, {}, [], [];
    }

    ghost predicate Valid()
      reads this
    {
      Closed(g) && kinds == Collect(g, trail) && found == KindSet(g, trail)
    }

    /** The classification of one error is noted unless it is known. */
    method Note(n: Id)
      requires Valid() && n in g
      modifies this`found, this`kinds, this`trail
      ensures Valid() && trail == old(trail) + [n]
    {
      hide KindSet, Collect;
      CollectOneMore(g, trail, n);
      trail := trail + [n];
      if Effective(g[n]).Some? {
        var kind := Effective(g[n]).value;
        if kind !in found {
          found := found + {kind};
          kinds := kinds + [kind];
        }
      }
    }

    /** The closure walk. */
    method Visit(e: Option<Id>, ghost fuel: nat)
      requires Valid() && Refers(g, e) && Walk(g, e, seen, fuel).Some?
      modifies this
      ensures Valid()
      ensures var t := Walk(g, e, old(seen), fuel).value;
              seen == t.seen && trail == old(trail) + t.trail
      decreases fuel, 0
    {
      hide KindSet, Collect, Walk, WalkAll;
      WalkUnfolds(g, e, seen, fuel);
      if IsNil(g, e) {
        return;
      }
      var n := e.value;
      var again, marked := MarkSeen(g, n, seen);
      seen := marked;
      if again {
        assert marked == old(seen);
        return;
      }
      Note(n);
      match g[n].shape
      case Joined(list) => VisitAll(list, fuel - 1);
      case Wrapped(inner) =>
        assert Children(g[n])[0] == inner;
        OneChild(g, inner, seen, fuel - 1);
        Visit(inner, fuel - 1);
      case Plain => NoChild(g, seen, fuel - 1);
    }

    /** The loop over the children of a joined error. */
    method VisitAll(list: seq<Option<Id>>, ghost fuel: nat)
      requires Valid() && (forall i :: 0 <= i < |list| ==> Refers(g, list[i])) && WalkAll(g, list, seen, fuel).Some?
      modifies this
      ensures Valid()
      ensures var t := WalkAll(g, list, old(seen), fuel).value;
              seen == t.seen && trail == old(trail) + t.trail
      decreases fuel, |list| + 1
    {
      hide KindSet, Collect, Walk, WalkAll;
      ghost var t := WalkAll(g, list, seen, fuel).value;
      assert list[0..] == list;
      var k := 0;
      while k < |list|
        invariant 0 <= k <= |list| && Valid()
        invariant var rest := WalkAll(g, list[k..], seen, fuel);
                  rest.Some? && rest.value.seen == t.seen && trail + rest.value.trail == old(trail) + t.trail
      {
        WalkAllUnfolds(g, list, k, seen, fuel);
        Visit(list[k], fuel);
        k := k + 1;
      }
      assert list[k..] == [];
      NoChild(g, seen, fuel);
    }
  }

  lemma CollectOneMore(g: Graph, trail: seq<Id>, n: Id)
    requires n in g
    ensures KindSet(g, trail + [n]) == KindSet(g, trail) + if Effective(g[n]).Some? then {Effective(g[n]).value} else {}
    ensures Collect(g, trail + [n]) ==
            if Effective(g[n]).Some? && Effective(g[n]).value !in KindSet(g, trail) then Collect(g, trail) + [Effective(g[n]).value]
            else Collect(g, trail)
  {
    assert (trail + [n])[..|trail|] == trail;
  }

  lemma WalkUnfolds(g: Graph, e: Option<Id>, seen: set<Id>, fuel: nat)
    requires Closed(g) && Refers(g, e) && Walk(g, e, seen, fuel).Some?
    ensures Skipped(g, e, seen) ==> Walk(g, e, seen, fuel).value == Trace(seen, [])
    ensures !Skipped(g, e, seen) ==>
              && fuel > 0
              && var below := WalkAll(g, Children(g[e.value]), Mark(g, e.value, seen), fuel - 1);
                 below.Some? && Walk(g, e, seen, fuel).value == Trace(below.value.seen, [e.value] + below.value.trail)
  {
  }

  lemma WalkAllUnfolds(g: Graph, list: seq<Option<Id>>, k: nat, seen: set<Id>, fuel: nat)
    requires Closed(g) && (forall i :: 0 <= i < |list| ==> Refers(g, list[i])) && k < |list|
    requires WalkAll(g, list[k..], seen, fuel).Some?
    ensures var first := Walk(g, list[k], seen, fuel);
            && first.Some?
            && var rest := WalkAll(g, list[k + 1..], first.value.seen, fuel);
               && rest.Some?
               && WalkAll(g, list[k..], seen, fuel).value == Trace(rest.value.seen, first.value.trail + rest.value.trail)
  {
    assert list[k..][0] == list[k] && list[k..][1..] == list[k + 1..];
  }

  lemma NoChild(g: Graph, seen: set<Id>, fuel: nat)
    requires Closed(g)
    ensures WalkAll(g, [], seen, fuel) == Some(Trace(seen, []))
  {
  }

  lemma OneChild(g: Graph, e: Option<Id>, seen: set<Id>, fuel: nat)
    requires Closed(g) && Refers(g, e)
    ensures WalkAll(g, [e], seen, fuel) == Walk(g, e, seen, fuel)
  {
    var list := [e];
    assert list[0] == e && list[1..] == [];
    var first := Walk(g, e, seen, fuel);
    if first.Some? {
      assert WalkAll(g, list[1..], first.value.seen, fuel) == Some(Trace(first.value.seen, []));
      assert first.value.trail + [] == first.value.trail;
    }
  }

  ghost predicate CollectsWalk(g: Graph, e: Option<Id>, kinds: seq<Kind>)
    requires Closed(g) && Refers(g, e)
  {
    forall fuel :: Walk(g, e, {}, fuel).Some? ==> kinds == Collect(g, Walk(g, e, {}, fuel).value.trail)
  }

  ghost predicate KindReached(g: Graph, e: Option<Id>, k: Kind)
    requires Closed(g)
  {
    exists n :: Reaches(g, e, n) && n in g && Effective(g[n]) == Some(k)
  }

  /** KindsOf, on an error whose traversal ends. */
  method KindsOf(g: Graph, e: Option<Id>) returns (kinds: seq<Kind>)
    requires Closed(g) && Refers(g, e) && Terminates(g, e)
    ensures NoRepeats(kinds) && CollectsWalk(g, e, kinds)
    ensures forall k :: k in kinds <==> KindReached(g, e, k)
  {
    hide Collect, KindReached;
    ghost var fuel :| Walk(g, e, {}, fuel).Some?;
    var c := new Collector(g);
    assert c.Valid() by {
      NothingCollected(g);
    }
    c.Visit(e, fuel);
    kinds := c.kinds;
    assert c.trail == Walk(g, e, {}, fuel).value.trail;
    forall k
      ensures k in kinds <==> KindReached(g, e, k)
    {
      KindsOfIsExact(g, e, fuel, k);
    }
    forall other | Walk(g, e, {}, other).Some?
      ensures kinds == Collect(g, Walk(g, e, {}, other).value.trail)
    {
      if other <= fuel {
        MoreFuel(g, e, {}, other, fuel);
      } else {
        MoreFuel(g, e, {}, fuel, other);
      }
    }
  }

  lemma NothingCollected(g: Graph)
    ensures Collect(g, []) == [] && KindSet(g, []) == {}
  {
  }
}
