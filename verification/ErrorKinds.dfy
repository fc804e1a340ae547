/** The effective kind of an error (KindOf, IsKind in errx/inspect.go). */
module ErrorKinds {
  import opened Wrappers
  import opened ErrorGraph
  import opened ErrorTermination

  /** The classification found, and the pointers marked on the way. */
  datatype Verdict = Verdict(kind: Option<Kind>, seen: set<Id>)

  /** kindOf, with a bound on the depth of the recursion: None when the bound is too small. */
  function KindAt(g: Graph, e: Option<Id>, seen: set<Id>, fuel: nat): Option<Verdict>
    requires Closed(g) && Refers(g, e)
    decreases fuel, 0
  {
    if Skipped(g, e, seen) then Some(Verdict(None, seen))
    else if fuel == 0 then None
    else
      var n, marked := e.value, Mark(g, e.value, seen);
      if Effective(g[n]).Some? then Some(Verdict(Effective(g[n]), marked))
      else match g[n].shape
        case Joined(list) => assert Children(g[n]) == list; KindOfJoined(g, list, marked, fuel - 1, None)
        case Wrapped(inner) => assert Children(g[n])[0] == inner; KindAt(g, inner, marked, fuel - 1)
        case Plain => Some(Verdict(None, marked))
  }

  /** The loop over joined children; kind is what the earlier ones agree on. */
  function KindOfJoined(g: Graph, list: seq<Option<Id>>, seen: set<Id>, fuel: nat, kind: Option<Kind>): Option<Verdict>
    requires Closed(g) && forall i :: 0 <= i < |list| ==> Refers(g, list[i])
    decreases fuel, |list| + 1
  {
    if list == [] then Some(Verdict(kind, seen))
    else
      var first := KindAt(g, list[0], seen, fuel);
      if first.None? then None
      else if first.value.kind.None? then KindOfJoined(g, list[1..], first.value.seen, fuel, kind)
      else if kind.None? then KindOfJoined(g, list[1..], first.value.seen, fuel, first.value.kind)
      else if first.value.kind != kind then Some(Verdict(None, first.value.seen))
      else KindOfJoined(g, list[1..], first.value.seen, fuel, kind)
  }

  // ----- a kind that is found is the kind of a reachable error -----

  lemma {:induction false} KindIsReached(g: Graph, e: Option<Id>, seen: set<Id>, fuel: nat)
    requires Closed(g) && Refers(g, e) && KindAt(g, e, seen, fuel).Some? && KindAt(g, e, seen, fuel).value.kind.Some?
    ensures KindReached(g, e, KindAt(g, e, seen, fuel).value.kind.value)
    decreases fuel, 0
  {
    var n := e.value;
    var k := KindAt(g, e, seen, fuel).value.kind.value;
    if Effective(g[n]).Some? {
      ReachesItself(g, n);
    } else {
      match g[n].shape
      case Joined(list) =>
        assert Children(g[n]) == list;
        var i := JoinedKindIsReached(g, list, Mark(g, n, seen), fuel - 1, None);
        KindReachedThrough(g, n, i, k);
      case Wrapped(inner) =>
        assert Children(g[n])[0] == inner;
        KindIsReached(g, inner, Mark(g, n, seen), fuel - 1);
        KindReachedThrough(g, n, 0, k);
    }
  }

  lemma KindReachedThrough(g: Graph, n: Id, i: nat, k: Kind)
    requires Closed(g) && n in g && !g[n].typedNil && i < |Children(g[n])| && KindReached(g, Children(g[n])[i], k)
    ensures KindReached(g, Some(n), k)
  {
    var c := Children(g[n])[i];
    var m :| Reaches(g, c, m) && m in g && Effective(g[m]) == Some(k);
    assert !g[c.value].typedNil;
    assert HasChild(g, n, c.value);
    ReachesThrough(g, n, c.value, m);
  }

  lemma {:induction false} JoinedKindIsReached(g: Graph, list: seq<Option<Id>>, seen: set<Id>, fuel: nat,
          kind: Option<Kind>)
    returns (i: nat)
    requires Closed(g) && (forall i :: 0 <= i < |list| ==> Refers(g, list[i])) && KindOfJoined(g, list, seen, fuel, kind).Some?
    requires KindOfJoined(g, list, seen, fuel, kind).value.kind.Some?
    ensures KindOfJoined(g, list, seen, fuel, kind).value.kind == kind ||
            (i < |list| && KindReached(g, list[i], KindOfJoined(g, list, seen, fuel, kind).value.kind.value))
    decreases fuel, |list| + 1
  {
    i := 0;
    if list == [] {
    } else {
      var first := KindAt(g, list[0], seen, fuel).value;
      var next := if first.kind.Some? && kind.None? then first.kind else kind;
      var j := JoinedKindIsReached(g, list[1..], first.seen, fuel, next);
      var k := KindOfJoined(g, list[1..], first.seen, fuel, next).value.kind;
      if k == next {
        if kind.None? {
          KindIsReached(g, list[0], seen, fuel);
        }
      } else {
        i := j + 1;
      }
    }
  }

  /** IsKind implies membership in KindsOf. */
  lemma IsKindInKindsOf(g: Graph, e: Option<Id>, fuel: nat, depth: nat, k: Kind)
    requires Closed(g) && Refers(g, e) && Walk(g, e, {}, fuel).Some?
    requires KindAt(g, e, {}, depth).Some? && KindAt(g, e, {}, depth).value.kind == Some(k)
    ensures k in Collect(g, Walk(g, e, {}, fuel).value.trail)
  {
    KindIsReached(g, e, {}, depth);
    KindsOfIsExact(g, e, fuel, k);
  }

  // ----- without sharing the marks do not matter -----

  /** All errors of the unwrap tree in preorder, each as often as it occurs: no marks are kept. */
  function Unfold(g: Graph, e: Option<Id>, fuel: nat): Option<seq<Id>>
    requires Closed(g) && Refers(g, e)
    decreases fuel, 0
  {
    if IsNil(g, e) then Some([])
    else if fuel == 0 then None
    else
      var below := UnfoldAll(g, Children(g[e.value]), fuel - 1);
      if below.None? then None else Some([e.value] + below.value)
  }

  function UnfoldAll(g: Graph, list: seq<Option<Id>>, fuel: nat): Option<seq<Id>>
    requires Closed(g) && forall i :: 0 <= i < |list| ==> Refers(g, list[i])
    decreases fuel, |list| + 1
  {
    if list == [] then Some([])
    else
      var first, rest := Unfold(g, list[0], fuel), UnfoldAll(g, list[1..], fuel);
      if first.None? || rest.None? then None else Some(first.value + rest.value)
  }

  predicate Unshared(g: Graph, tree: seq<Id>) {
    forall i, j :: 0 <= i < j < |tree| && tree[i] == tree[j] && tree[i] in g ==> !g[tree[i]].pointer
  }

  /** The definition without bookkeeping: an error's own classification, or else the one kind that
      all its classified children have. */
  ghost function PlainKind(g: Graph, e: Option<Id>, fuel: nat): Option<Kind>
    requires Closed(g) && Refers(g, e)
    decreases fuel, 0
  {
    if IsNil(g, e) || fuel == 0 then None
    else if Effective(g[e.value]).Some? then Effective(g[e.value])
    else TheOnly(PlainKinds(g, Children(g[e.value]), fuel - 1))
  }

  ghost function PlainKinds(g: Graph, list: seq<Option<Id>>, fuel: nat): set<Kind>
    requires Closed(g) && forall i :: 0 <= i < |list| ==> Refers(g, list[i])
    decreases fuel, |list| + 1
  {
    if list == [] then {}
    else
      var k := PlainKind(g, list[0], fuel);
      PlainKinds(g, list[1..], fuel) + if k.Some? then {k.value} else {}
  }

  predicate Only(kinds: set<Kind>, k: Kind) {
    kinds == {k}
  }

  ghost function TheOnly(kinds: set<Kind>): Option<Kind> {
    if exists k :: Only(kinds, k) then
      var k :| Only(kinds, k);
      Some(k)
    else None
  }

  lemma OneKind(k: Kind)
    ensures TheOnly({k}) == Some(k)
    ensures TheOnly({}) == None
  {
    assert Only({k}, k);
    assert forall j :: Only({k}, j) ==> j in {k};
    assert forall j :: Only({}, j) ==> j in {};
  }

  lemma TwoKinds(kinds: set<Kind>, j: Kind, k: Kind)
    requires j in kinds && k in kinds && j != k
    ensures TheOnly(kinds) == None
  {
  }

  function Pointers(g: Graph, tree: seq<Id>): set<Id> {
    set n | n in tree && n in g && g[n].pointer
  }

  function Agreed(kind: Option<Kind>): set<Kind> {
    if kind.Some? then {kind.value} else {}
  }

  lemma SplitUnshared(g: Graph, a: seq<Id>, b: seq<Id>)
    requires Unshared(g, a + b)
    ensures Unshared(g, a) && Unshared(g, b) && Pointers(g, a) !! Pointers(g, b)
    ensures Pointers(g, a + b) == Pointers(g, a) + Pointers(g, b)
  {
    var t := a + b;
    forall i, j | 0 <= i < j < |b| && b[i] == b[j] && b[i] in g
      ensures !g[b[i]].pointer
    {
      assert t[|a| + i] == b[i] && t[|a| + j] == b[j];
    }
    forall i, j | 0 <= i < |a| && 0 <= j < |b| && a[i] == b[j] && a[i] in g
      ensures !g[a[i]].pointer
    {
      assert t[i] == a[i] && t[|a| + j] == b[j];
    }
    forall i, j | 0 <= i < j < |a| && a[i] == a[j] && a[i] in g
      ensures !g[a[i]].pointer
    {
      assert t[i] == a[i] && t[j] == a[j];
    }
  }

  lemma UnfoldOne(g: Graph, e: Option<Id>, fuel: nat)
    requires Closed(g) && Refers(g, e)
    ensures UnfoldAll(g, [e], fuel) == Unfold(g, e, fuel)
  {
    var list := [e];
    assert list[0] == e && list[1..] == [] && UnfoldAll(g, list[1..], fuel) == Some([]);
    var first := Unfold(g, e, fuel);
    if first.Some? {
      assert first.value + [] == first.value;
    }
  }

  /** On an unwrap tree in which no pointer occurs twice, KindOf is the plain definition. */
  lemma {:induction false} UnsharedIsPlain(g: Graph, e: Option<Id>, seen: set<Id>, fuel: nat)
    requires Closed(g) && Refers(g, e) && Unfold(g, e, fuel).Some?
    requires Unshared(g, Unfold(g, e, fuel).value) && Pointers(g, Unfold(g, e, fuel).value) !! seen
    ensures var v := KindAt(g, e, seen, fuel);
            v.Some? && v.value.kind == PlainKind(g, e, fuel) && v.value.seen <= seen + Pointers(g, Unfold(g, e, fuel).value)
    decreases fuel, 0
  {
    if IsNil(g, e) {
    } else {
      var n, marked := e.value, Mark(g, e.value, seen);
      var list := Children(g[n]);
      var below := UnfoldAll(g, list, fuel - 1).value;
      assert Unfold(g, e, fuel).value == [n] + below;
      SplitUnshared(g, [n], below);
      assert n in [n];
      assert g[n].pointer ==> n in Pointers(g, [n]);
      if Effective(g[n]).None? {
        hide TheOnly;
        match g[n].shape
        case Joined(_) =>
          JoinedUnsharedIsPlain(g, list, marked, fuel - 1, None);
          assert Agreed(None) + PlainKinds(g, list, fuel - 1) == PlainKinds(g, list, fuel - 1);
        case Wrapped(inner) =>
          assert list == [inner] && list[1..] == [];
          var k := PlainKind(g, inner, fuel - 1);
          assert PlainKinds(g, list, fuel - 1) == Agreed(k);
          OneKind(if k.Some? then k.value else UNKNOWN);
          UnfoldOne(g, inner, fuel - 1);
          UnsharedIsPlain(g, inner, marked, fuel - 1);
        case Plain =>
          OneKind(UNKNOWN);
          assert PlainKinds(g, list, fuel - 1) == {};
      }
    }
  }

  lemma {:induction false} JoinedUnsharedIsPlain(g: Graph, list: seq<Option<Id>>, seen: set<Id>, fuel: nat,
          kind: Option<Kind>)
    requires Closed(g) && (forall i :: 0 <= i < |list| ==> Refers(g, list[i])) && UnfoldAll(g, list, fuel).Some?
    requires Unshared(g, UnfoldAll(g, list, fuel).value) && Pointers(g, UnfoldAll(g, list, fuel).value) !! seen
    ensures var v := KindOfJoined(g, list, seen, fuel, kind);
            && v.Some?
            && v.value.kind == TheOnly(Agreed(kind) + PlainKinds(g, list, fuel))
            && v.value.seen <= seen + Pointers(g, UnfoldAll(g, list, fuel).value)
    decreases fuel, |list| + 1
  {
    hide TheOnly;
    OneKind(if kind.Some? then kind.value else UNKNOWN);
    if list == [] {
      assert PlainKinds(g, list, fuel) == {};
      assert Agreed(kind) + {} == Agreed(kind);
    } else {
      var a, b := Unfold(g, list[0], fuel).value, UnfoldAll(g, list[1..], fuel).value;
      SplitUnshared(g, a, b);
      UnsharedIsPlain(g, list[0], seen, fuel);
      var first := KindAt(g, list[0], seen, fuel).value;
      var next := if first.kind.Some? && kind.None? then first.kind else kind;
      if first.kind.Some? && kind.Some? && first.kind != kind {
        TwoKinds(Agreed(kind) + PlainKinds(g, list, fuel), kind.value, first.kind.value);
      } else {
        JoinedUnsharedIsPlain(g, list[1..], first.seen, fuel, next);
        assert Agreed(kind) + PlainKinds(g, list, fuel) == Agreed(next) + PlainKinds(g, list[1..], fuel);
      }
    }
  }

  /** With sharing the two differ: the second visit of a shared error counts as unclassified. Here a
      join of a conflict and of one of its branches is unclassified for KindOf, while the branches
      taken by themselves leave one kind. */
  lemma SharingMatters(k1: Kind, k2: Kind)
    requires UNKNOWN < k1 <= INTERNAL && UNKNOWN < k2 <= INTERNAL && k1 != k2
    ensures var g: Graph := map[
              0 := Node(true, false, None, Joined([Some(1), Some(2)])),
              1 := Node(true, false, None, Joined([Some(2), Some(3)])),
              2 := Node(true, false, Some(k1), Plain),
              3 := Node(true, false, Some(k2), Plain)];
            Closed(g) && KindAt(g, Some(0), {}, 3).Some? && KindAt(g, Some(0), {}, 3).value.kind == None
            && PlainKind(g, Some(0), 3) == Some(k1)
  {
    var g: Graph := map[
      0 := Node(true, false, None, Joined([Some(1), Some(2)])),
      1 := Node(true, false, None, Joined([Some(2), Some(3)])),
      2 := Node(true, false, Some(k1), Plain),
      3 := Node(true, false, Some(k2), Plain)];
    var outer, inner: seq<Option<Id>> := [Some(1), Some(2)], [Some(2), Some(3)];
    assert outer[1..] == [Some(2)] && inner[1..] == [Some(3)];
    assert Closed(g);
    assert KindOfJoined(g, inner, {0, 1}, 1, None).Some? && KindOfJoined(g, inner, {0, 1}, 1, None).value.kind == None;
    assert PlainKind(g, Some(2), 1) == Some(k1) && PlainKind(g, Some(3), 1) == Some(k2);
    hide TheOnly;
    assert PlainKinds(g, inner, 1) == {k1, k2};
    TwoKinds({k1, k2}, k1, k2);
    assert PlainKind(g, Some(1), 2) == None;
    assert PlainKinds(g, outer, 2) == {k1};
    OneKind(k1);
  }
}
