/** KindOf as the source runs it (errx/inspect.go), and when it ends. */
module ErrorKindSearch {
  import opened Wrappers
  import opened ErrorGraph
  import opened ErrorTermination
  import opened ErrorKinds

  // ----- a bound on the depth of kindOf -----

  /** A walk from e that may only follow values, because all pointers of the region are marked,
      ends within h levels. */
  ghost predicate HasHeight(g: Graph, marked: set<Id>, e: Option<Id>, h: nat)
    requires Closed(g) && Refers(g, e)
  {
    exists walked :: marked <= walked && Walk(g, e, walked, h).Some?
  }

  lemma {:induction false} ListedHeight(g: Graph, marked: set<Id>, list: seq<Option<Id>>, walked: set<Id>, h: nat, i: nat)
    requires Closed(g) && (forall i :: 0 <= i < |list| ==> Refers(g, list[i])) && i < |list|
    requires marked <= walked && WalkAll(g, list, walked, h).Some?
    ensures HasHeight(g, marked, list[i], h)
    decreases |list|
  {
    if i == 0 {
    } else {
      WalkCovers(g, list[0], walked, h);
      ListedHeight(g, marked, list[1..], Walk(g, list[0], walked, h).value.seen, h, i - 1);
    }
  }

  lemma ChildHeight(g: Graph, marked: set<Id>, n: Id, h: nat, i: nat)
    requires Closed(g) && n in g && !g[n].typedNil && !g[n].pointer && i < |Children(g[n])| && HasHeight(g, marked, Some(n), h)
    ensures h > 0 && HasHeight(g, marked, Children(g[n])[i], h - 1)
  {
    var walked :| marked <= walked && Walk(g, Some(n), walked, h).Some?;
    ListedHeight(g, marked, Children(g[n]), walked, h - 1, i);
  }

  lemma {:induction false} CommonFuel(g: Graph, marked: set<Id>, s: set<Id>) returns (h: nat)
    requires Closed(g) && forall n :: n in s ==> n in g && Ends(g, Some(n), marked)
    ensures forall n :: n in s ==> Walk(g, Some(n), marked, h).Some?
  {
    h := 0;
    if s == {} {
    } else {
      var n := SomeMember(s);
      var h1: nat :| Walk(g, Some(n), marked, h1).Some?;
      var h2 := CommonFuel(g, marked, s - {n});
      h := if h1 < h2 then h2 else h1;
      forall m | m in s
        ensures Walk(g, Some(m), marked, h).Some?
      {
        if m == n {
          MoreFuel(g, Some(m), marked, h1, h);
        } else {
          MoreFuel(g, Some(m), marked, h2, h);
        }
      }
    }
  }

  function Depth(unmarked: nat, top: nat, h: nat): nat {
    unmarked * (top + 2) + h
  }

  lemma DepthGrows(a: nat, b: nat, top: nat, h: nat)
    requires a <= b
    ensures Depth(a, top, h) <= Depth(b, top, h)
  {
    assert b * (top + 2) == a * (top + 2) + (b - a) * (top + 2);
  }

  ghost predicate Tall(g: Graph, r: set<Id>, marked: set<Id>, top: nat)
    requires Closed(g) && Region(g, r)
  {
    forall n :: n in r ==> HasHeight(g, marked, Some(n), top)
  }

  /** Following a pointer leaves one pointer less to mark; following a value loses height. */
  lemma {:induction false} KindEnds(g: Graph, r: set<Id>, marked: set<Id>, top: nat, e: Option<Id>, seen: set<Id>,
          h: nat, fuel: nat)
    requires Closed(g) && Region(g, r) && Tall(g, r, marked, top) && Refers(g, e) && (IsNil(g, e) || e.value in r)
    requires h <= top && HasHeight(g, marked, e, h) && Depth(|Unmarked(g, r, seen)|, top, h) <= fuel
    ensures KindAt(g, e, seen, fuel).Some? && seen <= KindAt(g, e, seen, fuel).value.seen
    decreases fuel, 0
  {
    hide Depth, HasHeight, Tall, Unmarked;
    if Skipped(g, e, seen) {
    } else {
      var n := e.value;
      var list := Children(g[n]);
      var after, h' := Mark(g, n, seen), top;
      if g[n].pointer {
        MarkingShrinks(g, r, seen, n);
      } else {
        HeightPositive(g, marked, n, h);
        h' := h - 1;
      }
      DepthStep(|Unmarked(g, r, seen)|, |Unmarked(g, r, after)|, top, h, h', fuel);
      forall i | 0 <= i < |list|
        ensures (IsNil(g, list[i]) || list[i].value in r) && HasHeight(g, marked, list[i], h')
      {
        ChildInRegion(g, r, marked, top, n, i);
        if !g[n].pointer {
          ChildHeight(g, marked, n, h, i);
        }
      }
      if Effective(g[n]).None? {
        match g[n].shape
        case Joined(_) => JoinedKindEnds(g, r, marked, top, list, after, h', fuel - 1, None);
        case Wrapped(inner) =>
          assert list[0] == inner;
          KindEnds(g, r, marked, top, inner, after, h', fuel - 1);
        case Plain =>
      }
    }
  }

  lemma DepthStep(before: nat, after: nat, top: nat, h: nat, h': nat, fuel: nat)
    requires Depth(before, top, h) <= fuel && h <= top
    requires (before == after + 1 && h' == top) || (before == after && h == h' + 1)
    ensures fuel > 0 && Depth(after, top, h') <= fuel - 1
  {
    assert before == after + 1 ==> before * (top + 2) == after * (top + 2) + top + 2;
    assert after * (top + 2) >= 0;
  }

  lemma HeightPositive(g: Graph, marked: set<Id>, n: Id, h: nat)
    requires Closed(g) && n in g && !g[n].typedNil && !g[n].pointer && HasHeight(g, marked, Some(n), h)
    ensures h > 0
  {
  }

  lemma ChildInRegion(g: Graph, r: set<Id>, marked: set<Id>, top: nat, n: Id, i: nat)
    requires Closed(g) && Region(g, r) && Tall(g, r, marked, top) && n in r && i < |Children(g[n])|
    ensures IsNil(g, Children(g[n])[i]) || Children(g[n])[i].value in r
    ensures HasHeight(g, marked, Children(g[n])[i], top)
  {
    var c := Children(g[n])[i];
    if IsNil(g, c) {
      assert Walk(g, c, marked, top).Some?;
    } else {
      assert HasChild(g, n, c.value);
    }
  }

  lemma {:induction false} JoinedKindEnds(g: Graph, r: set<Id>, marked: set<Id>, top: nat, list: seq<Option<Id>>,
          seen: set<Id>, h: nat, fuel: nat, kind: Option<Kind>)
    requires Closed(g) && Region(g, r) && Tall(g, r, marked, top)
    requires forall i :: 0 <= i < |list| ==> Refers(g, list[i]) && (IsNil(g, list[i]) || list[i].value in r) && HasHeight(g, marked, list[i], h)
    requires h <= top && Depth(|Unmarked(g, r, seen)|, top, h) <= fuel
    ensures KindOfJoined(g, list, seen, fuel, kind).Some? && seen <= KindOfJoined(g, list, seen, fuel, kind).value.seen
    decreases fuel, |list| + 1
  {
    hide Depth, HasHeight, Tall, Unmarked;
    if list == [] {
    } else {
      KindEnds(g, r, marked, top, list[0], seen, h, fuel);
      var first := KindAt(g, list[0], seen, fuel).value;
      MoreMarksShrink(g, r, seen, first.seen);
      DepthGrows(|Unmarked(g, r, first.seen)|, |Unmarked(g, r, seen)|, top, h);
      JoinedKindEnds(g, r, marked, top, list[1..], first.seen, h, fuel, kind);
      JoinedKindEnds(g, r, marked, top, list[1..], first.seen, h, fuel, first.kind);
    }
  }

  ghost predicate KindTerminates(g: Graph, e: Option<Id>)
    requires Closed(g) && Refers(g, e)
  {
    exists fuel :: KindAt(g, e, {}, fuel).Some?
  }

  /** Where the traversal ends, everything reachable has a height. */
  lemma HeightOf(g: Graph, e: Option<Id>) returns (r: set<Id>, marked: set<Id>, top: nat)
    requires Closed(g) && Refers(g, e) && Terminates(g, e) && !IsNil(g, e)
    ensures Region(g, r) && e.value in r && Tall(g, r, marked, top)
  {
    r := set n | n in g && !g[n].typedNil && Reaches(g, e, n);
    ReachableIsRegion(g, e, r);
    TerminatesIffNoTrap(g, e);
    forall trap | IsTrap(g, trap)
      ensures trap * r == {}
    {
      assert !MeetsTrap(g, e, trap);
    }
    marked := Unmarked(g, r, {});
    assert Unmarked(g, r, marked) == {};
    AllEndUpTo(g, r, 0);
    top := CommonFuel(g, marked, r);
    forall n | n in r
      ensures HasHeight(g, marked, Some(n), top)
    {
      assert marked <= marked && Walk(g, Some(n), marked, top).Some?;
    }
    ReachesItself(g, e.value);
  }

  /** The search ends wherever the traversal does, although it leaves other errors unvisited and so
      marks fewer pointers. */
  lemma SearchEndsWithWalk(g: Graph, e: Option<Id>)
    requires Closed(g) && Refers(g, e) && Terminates(g, e)
    ensures KindTerminates(g, e)
  {
    if IsNil(g, e) {
      assert KindAt(g, e, {}, 0).Some?;
    } else {
      var r, marked, top := HeightOf(g, e);
      var fuel := Depth(|Unmarked(g, r, {})|, top, top);
      KindEnds(g, r, marked, top, e, {}, top, fuel);
    }
  }

  // ----- nothing below a classified error is searched -----

  /** The graph without what classified errors unwrap to. */
  function Pruned(g: Graph): (p: Graph)
    ensures Closed(g) ==> Closed(p)
    ensures forall n :: n in g <==> n in p
  {
    var p := map n | n in g :: if Effective(g[n]).Some? then g[n].(shape := Plain) else g[n];
    assert forall n :: n in p ==> Children(p[n]) == [] || Children(p[n]) == Children(g[n]);
    p
  }

  lemma {:induction false} PrunedSearch(g: Graph, e: Option<Id>, seen: set<Id>, fuel: nat)
    requires Closed(g) && Refers(g, e)
    ensures KindAt(Pruned(g), e, seen, fuel) == KindAt(g, e, seen, fuel)
    decreases fuel, 0
  {
    if !Skipped(g, e, seen) && fuel > 0 && Effective(g[e.value]).None? {
      var n, marked := e.value, Mark(g, e.value, seen);
      match g[n].shape
      case Joined(list) =>
        assert Children(g[n]) == list;
        PrunedJoinedSearch(g, list, marked, fuel - 1, None);
      case Wrapped(inner) =>
        assert Children(g[n])[0] == inner;
        PrunedSearch(g, inner, marked, fuel - 1);
      case Plain =>
    }
  }

  lemma {:induction false} PrunedJoinedSearch(g: Graph, list: seq<Option<Id>>, seen: set<Id>, fuel: nat, kind: Option<Kind>)
    requires Closed(g) && forall i :: 0 <= i < |list| ==> Refers(g, list[i])
    ensures forall i :: 0 <= i < |list| ==> Refers(Pruned(g), list[i])
    ensures KindOfJoined(Pruned(g), list, seen, fuel, kind) == KindOfJoined(g, list, seen, fuel, kind)
    decreases fuel, |list| + 1
  {
    if list == [] {
    } else {
      PrunedSearch(g, list[0], seen, fuel);
      var first := KindAt(g, list[0], seen, fuel);
      if first.Some? {
        PrunedJoinedSearch(g, list[1..], first.value.seen, fuel, kind);
        PrunedJoinedSearch(g, list[1..], first.value.seen, fuel, first.value.kind);
      }
    }
  }

  /** KindOf ends unless it can reach a cycle of unclassified value errors through unclassified
      errors. */
  lemma KindOfTerminates(g: Graph, e: Option<Id>)
    requires Closed(g) && Refers(g, e) && forall trap :: !MeetsTrap(Pruned(g), e, trap)
    ensures KindTerminates(g, e)
  {
    hide MeetsTrap;
    TerminatesIffNoTrap(Pruned(g), e);
    SearchEndsWithWalk(Pruned(g), e);
    var fuel: nat :| KindAt(Pruned(g), e, {}, fuel).Some?;
    PrunedSearch(g, e, {}, fuel);
  }

  lemma PrunedChild(g: Graph, n: Id, c: Id)
    requires Closed(g) && n in g && HasChild(Pruned(g), n, c)
    ensures HasChild(g, n, c)
  {
    var i :| 0 <= i < |Children(Pruned(g)[n])| && Children(Pruned(g)[n])[i] == Some(c) && !Pruned(g)[c].typedNil;
    assert Children(g[n])[i] == Some(c);
  }

  lemma PrunedTrap(g: Graph, trap: set<Id>)
    requires Closed(g) && IsTrap(Pruned(g), trap)
    ensures IsTrap(g, trap)
  {
    forall v | v in trap
      ensures StaysIn(g, trap, v)
    {
      assert StaysIn(Pruned(g), trap, v);
      var c :| c in trap && HasChild(Pruned(g), v, c);
      PrunedChild(g, v, c);
    }
  }

  lemma PrunedPath(g: Graph, path: seq<Id>)
    requires Closed(g) && IsPath(Pruned(g), path)
    ensures IsPath(g, path)
  {
    hide HasChild;
    forall i, j | 0 <= i && j == i + 1 < |path|
      ensures HasChild(g, path[i], path[j])
    {
      PrunedChild(g, path[i], path[j]);
    }
  }

  lemma PrunedMeetsTrap(g: Graph, e: Option<Id>, trap: set<Id>)
    requires Closed(g) && MeetsTrap(Pruned(g), e, trap)
    ensures MeetsTrap(g, e, trap)
  {
    hide IsTrap, HasChild, Pruned;
    PrunedTrap(g, trap);
    var v :| v in trap && Reaches(Pruned(g), e, v);
    var path :| IsPath(Pruned(g), path) && path[0] == e.value && path[|path| - 1] == v;
    PrunedPath(g, path);
    assert Reaches(g, e, v);
  }

  /** In particular KindOf ends wherever KindsOf does. */
  lemma KindOfEndsWithKindsOf(g: Graph, e: Option<Id>)
    requires Closed(g) && Refers(g, e) && Terminates(g, e)
    ensures KindTerminates(g, e)
  {
    TerminatesIffNoTrap(g, e);
    forall trap
      ensures !MeetsTrap(Pruned(g), e, trap)
    {
      assert !MeetsTrap(g, e, trap);
      if MeetsTrap(Pruned(g), e, trap) {
        PrunedMeetsTrap(g, e, trap);
      }
    }
    KindOfTerminates(g, e);
  }

  // ----- without a conflict nothing else cuts the search off -----

  ghost predicate OneKindIn(g: Graph, r: set<Id>, k: Kind) {
    forall n :: n in r && n in g && Effective(g[n]).Some? ==> Effective(g[n]) == Some(k)
  }

  predicate NilOrIn(g: Graph, e: Option<Id>, r: set<Id>)
    requires Refers(g, e)
  {
    IsNil(g, e) || e.value in r
  }

  lemma RegionChildren(g: Graph, r: set<Id>, n: Id)
    requires Closed(g) && Region(Pruned(g), r) && n in r && n in g && Effective(g[n]).None?
    ensures Children(Pruned(g)[n]) == Children(g[n])
    ensures forall i :: 0 <= i < |Children(g[n])| ==> NilOrIn(g, Children(g[n])[i], r)
  {
    forall i | 0 <= i < |Children(g[n])|
      ensures NilOrIn(g, Children(g[n])[i], r)
    {
      if !IsNil(g, Children(g[n])[i]) {
        assert HasChild(Pruned(g), n, Children(g[n])[i].value);
      }
    }
  }

  lemma WalkOne(g: Graph, e: Option<Id>, seen: set<Id>, fuel: nat)
    requires Closed(g) && Refers(g, e)
    ensures WalkAll(g, [e], seen, fuel).Some? <==> Walk(g, e, seen, fuel).Some?
    ensures Walk(g, e, seen, fuel).Some? ==> WalkAll(g, [e], seen, fuel).value.seen == Walk(g, e, seen, fuel).value.seen
  {
    assert [e][0] == e && [e][1..] == [];
  }

  /** The search and the traversal of the pruned graph then mark the same pointers. */
  lemma {:induction false} SearchIsWalk(g: Graph, r: set<Id>, k: Kind, e: Option<Id>, seen: set<Id>, fuel: nat)
    requires Closed(g) && Region(Pruned(g), r) && OneKindIn(g, r, k) && Refers(g, e) && NilOrIn(g, e, r)
    ensures var v, t := KindAt(g, e, seen, fuel), Walk(Pruned(g), e, seen, fuel);
            && (v.Some? <==> t.Some?)
            && (v.Some? ==> v.value.seen == t.value.seen && v.value.kind in {None, Some(k)})
    decreases fuel, 0
  {
    if !Skipped(g, e, seen) && fuel > 0 {
      var n, marked := e.value, Mark(g, e.value, seen);
      if Effective(g[n]).None? {
        RegionChildren(g, r, n);
        match g[n].shape
        case Joined(list) =>
          assert Children(g[n]) == list;
          JoinedSearchIsWalk(g, r, k, list, marked, fuel - 1, None);
        case Wrapped(inner) =>
          assert Children(g[n]) == [inner] && Children(g[n])[0] == inner;
          WalkOne(Pruned(g), inner, marked, fuel - 1);
          SearchIsWalk(g, r, k, inner, marked, fuel - 1);
        case Plain =>
      }
    }
  }

  lemma {:induction false} JoinedSearchIsWalk(g: Graph, r: set<Id>, k: Kind, list: seq<Option<Id>>, seen: set<Id>, fuel: nat,
          kind: Option<Kind>)
    requires Closed(g) && Region(Pruned(g), r) && OneKindIn(g, r, k) && kind in {None, Some(k)}
    requires forall i :: 0 <= i < |list| ==> Refers(g, list[i]) && NilOrIn(g, list[i], r)
    ensures var v, t := KindOfJoined(g, list, seen, fuel, kind), WalkAll(Pruned(g), list, seen, fuel);
            && (v.Some? <==> t.Some?)
            && (v.Some? ==> v.value.seen == t.value.seen && v.value.kind in {None, Some(k)})
    decreases fuel, |list| + 1
  {
    if list == [] {
    } else {
      SearchIsWalk(g, r, k, list[0], seen, fuel);
      var first := KindAt(g, list[0], seen, fuel);
      if first.Some? {
        JoinedSearchIsWalk(g, r, k, list[1..], first.value.seen, fuel, kind);
        JoinedSearchIsWalk(g, r, k, list[1..], first.value.seen, fuel, Some(k));
      }
    }
  }

  /** Where the errors that the search can reach have at most one kind, KindOf ends exactly when it
      can reach no cycle of unclassified value errors through unclassified errors. */
  lemma KindOfEndsExactly(g: Graph, e: Option<Id>, k: Kind)
    requires Closed(g) && Refers(g, e)
    requires forall n :: n in g && Reaches(Pruned(g), e, n) && Effective(g[n]).Some? ==> Effective(g[n]) == Some(k)
    ensures KindTerminates(g, e) <==> forall trap :: !MeetsTrap(Pruned(g), e, trap)
  {
    hide MeetsTrap;
    if forall trap :: !MeetsTrap(Pruned(g), e, trap) {
      KindOfTerminates(g, e);
    }
    if KindTerminates(g, e) {
      var p := Pruned(g);
      TerminatesIffNoTrap(p, e);
      if IsNil(g, e) {
        assert Walk(p, e, {}, 0).Some?;
      } else {
        var r := set n | n in p && !p[n].typedNil && Reaches(p, e, n);
        ReachableIsRegion(p, e, r);
        ReachesItself(p, e.value);
        var fuel: nat :| KindAt(g, e, {}, fuel).Some?;
        SearchIsWalk(g, r, k, e, {}, fuel);
        assert Walk(p, e, {}, fuel).Some?;
      }
    }
  }

  /** With two kinds that is not so: a conflict ends the search before it comes to the cycle. */
  lemma ConflictCutsTrap(k1: Kind, k2: Kind)
    requires UNKNOWN < k1 <= INTERNAL && UNKNOWN < k2 <= INTERNAL && k1 != k2
    ensures var g: Graph := map[
              0 := Node(true, false, None, Joined([Some(1), Some(2), Some(3)])),
              1 := Node(true, false, Some(k1), Plain),
              2 := Node(true, false, Some(k2), Plain),
              3 := Node(false, false, None, Joined([Some(3)]))];
            Closed(g) && KindTerminates(g, Some(0)) && MeetsTrap(Pruned(g), Some(0), {3})
  {
    var g: Graph := map[
      0 := Node(true, false, None, Joined([Some(1), Some(2), Some(3)])),
      1 := Node(true, false, Some(k1), Plain),
      2 := Node(true, false, Some(k2), Plain),
      3 := Node(false, false, None, Joined([Some(3)]))];
    var list: seq<Option<Id>> := [Some(1), Some(2), Some(3)];
    assert list[1..] == [Some(2), Some(3)] && list[1..][1..] == [Some(3)];
    assert KindAt(g, Some(2), {0, 1}, 1).value.kind == Some(k2);
    assert KindOfJoined(g, list[1..], {0, 1}, 1, Some(k1)).Some?;
    assert {0} + {1} == {0, 1};
    assert KindAt(g, Some(0), {}, 2).Some?;
    var p := Pruned(g);
    assert Children(p[3])[0] == Some(3) && Children(p[0])[2] == Some(3);
    assert HasChild(p, 3, 3) && HasChild(p, 0, 3);
    assert StaysIn(p, {3}, 3);
    ReachesItself(p, 3);
    ReachesThrough(p, 0, 3, 3);
  }

  /** A slice error that contains itself: KindOf ends on it exactly when it is classified; KindsOf
      never does. */
  lemma KindOfSelfContainingSlice(k: Option<Kind>)
    ensures var g: Graph := map[0 := Node(false, false, k, Joined([Some(0)]))];
            && Closed(g) && !Terminates(g, Some(0))
            && (KindTerminates(g, Some(0)) <==> k.Some? && UNKNOWN < k.value <= INTERNAL)
  {
    var g: Graph := map[0 := Node(false, false, k, Joined([Some(0)]))];
    SelfContainingSliceDiverges(k);
    if Effective(g[0]).Some? {
      assert KindAt(g, Some(0), {}, 1).Some?;
    } else {
      var p := Pruned(g);
      assert p == g;
      assert Children(p[0])[0] == Some(0);
      assert HasChild(p, 0, 0) && StaysIn(p, {0}, 0);
      ReachesItself(p, 0);
      assert MeetsTrap(p, Some(0), {0});
      KindOfEndsExactly(g, Some(0), UNKNOWN);
    }
  }

  // ----- KindOf as the source runs it -----

  class Finder {
    const g: Graph
    var seen: set<Id>

    constructor (g: Graph)
      ensures this.g == g && seen == {}
    {
      this.g := g;
      seen := {};
    }

    method Find(e: Option<Id>, ghost fuel: nat) returns (kind: Option<Kind>)
      requires Closed(g) && Refers(g, e) && KindAt(g, e, seen, fuel).Some?
      modifies this
      ensures KindAt(g, e, old(seen), fuel) == Some(Verdict(kind, seen))
      decreases fuel, 0
    {
      if IsNil(g, e) {
        return None;
      }
      var n := e.value;
      var again, marked := MarkSeen(g, n, seen);
      seen := marked;
      if again {
        assert marked == old(seen);
        return None;
      }
      if Effective(g[n]).Some? {
        return Effective(g[n]);
      }
      match g[n].shape
      case Joined(list) =>
        assert Children(g[n]) == list;
        kind := FindJoined(list, fuel - 1);
      case Wrapped(inner) =>
        assert Children(g[n])[0] == inner;
        kind := Find(inner, fuel - 1);
      case Plain =>
        kind := None;
    }

    method FindJoined(list: seq<Option<Id>>, ghost fuel: nat) returns (r: Option<Kind>)
      requires Closed(g) && (forall i :: 0 <= i < |list| ==> Refers(g, list[i])) && KindOfJoined(g, list, seen, fuel, None).Some?
      modifies this
      ensures KindOfJoined(g, list, old(seen), fuel, None) == Some(Verdict(r, seen))
      decreases fuel, |list| + 1
    {
      ghost var all := KindOfJoined(g, list, seen, fuel, None);
      var kind := None;
      var k := 0;
      assert list[0..] == list;
      while k < |list|
        invariant 0 <= k <= |list|
        invariant KindOfJoined(g, list[k..], seen, fuel, kind) == all
      {
        assert list[k..][0] == list[k] && list[k..][1..] == list[k + 1..];
        var childKind := Find(list[k], fuel);
        k := k + 1;
        if childKind.None? {
          continue;
        }
        if kind.None? {
          kind := childKind;
          continue;
        }
        if childKind != kind {
          return None;
        }
      }
      return kind;
    }
  }

  /** KindOf, on every error on which it ends: a kind it returns is that of an error reached. */
  method KindOf(g: Graph, e: Option<Id>) returns (kind: Option<Kind>)
    requires Closed(g) && Refers(g, e) && KindTerminates(g, e)
    ensures exists fuel, seen :: KindAt(g, e, {}, fuel) == Some(Verdict(kind, seen))
    ensures kind.Some? ==> KindReached(g, e, kind.value)
  {
    ghost var fuel: nat :| KindAt(g, e, {}, fuel).Some?;
    var f := new Finder(g);
    kind := f.Find(e, fuel);
    if kind.Some? {
      KindIsReached(g, e, {}, fuel);
    }
  }

  /** IsKind. */
  method IsKind(g: Graph, e: Option<Id>, want: Kind) returns (yes: bool)
    requires Closed(g) && Refers(g, e) && KindTerminates(g, e)
    ensures yes ==> KindReached(g, e, want)
    ensures yes <==> exists fuel, seen :: KindAt(g, e, {}, fuel) == Some(Verdict(Some(want), seen))
  {
    var kind := KindOf(g, e);
    yes := kind == Some(want);
    ghost var fuel: nat, seen :| KindAt(g, e, {}, fuel) == Some(Verdict(kind, seen));
    if exists other, marked :: KindAt(g, e, {}, other) == Some(Verdict(Some(want), marked)) {
      ghost var other: nat, marked :| KindAt(g, e, {}, other) == Some(Verdict(Some(want), marked));
      SameVerdict(g, e, fuel, other);
    }
  }

  lemma SameVerdict(g: Graph, e: Option<Id>, a: nat, b: nat)
    requires Closed(g) && Refers(g, e) && KindAt(g, e, {}, a).Some? && KindAt(g, e, {}, b).Some?
    ensures KindAt(g, e, {}, a) == KindAt(g, e, {}, b)
  {
    if a <= b {
      MoreFuelKind(g, e, {}, a, b);
    } else {
      MoreFuelKind(g, e, {}, b, a);
    }
  }

  lemma {:induction false} MoreFuelKind(g: Graph, e: Option<Id>, seen: set<Id>, fuel: nat, more: nat)
    requires Closed(g) && Refers(g, e) && KindAt(g, e, seen, fuel).Some? && fuel <= more
    ensures KindAt(g, e, seen, more) == KindAt(g, e, seen, fuel)
    decreases fuel, 0
  {
    if !Skipped(g, e, seen) && Effective(g[e.value]).None? {
      match g[e.value].shape
      case Joined(list) =>
        assert Children(g[e.value]) == list;
        MoreFuelJoined(g, list, Mark(g, e.value, seen), fuel - 1, more - 1, None);
      case Wrapped(inner) =>
        assert Children(g[e.value])[0] == inner;
        MoreFuelKind(g, inner, Mark(g, e.value, seen), fuel - 1, more - 1);
      case Plain =>
    }
  }

  lemma {:induction false} MoreFuelJoined(g: Graph, list: seq<Option<Id>>, seen: set<Id>, fuel: nat, more: nat,
          kind: Option<Kind>)
    requires Closed(g) && forall i :: 0 <= i < |list| ==> Refers(g, list[i])
    requires KindOfJoined(g, list, seen, fuel, kind).Some? && fuel <= more
    ensures KindOfJoined(g, list, seen, more, kind) == KindOfJoined(g, list, seen, fuel, kind)
    decreases fuel, |list| + 1
  {
    if list == [] {
    } else {
      MoreFuelKind(g, list[0], seen, fuel, more);
      var first := KindAt(g, list[0], seen, fuel).value;
      if KindOfJoined(g, list[1..], first.seen, fuel, kind).Some? {
        MoreFuelJoined(g, list[1..], first.seen, fuel, more, kind);
      }
      if KindOfJoined(g, list[1..], first.seen, fuel, first.kind).Some? {
        MoreFuelJoined(g, list[1..], first.seen, fuel, more, first.kind);
      }
    }
  }
}
