/** KindsOf on every error on which it ends, cycles included (errx/inspect.go): the marks only save
    work, and the order of the result has a definition without them. */
module ErrorCycles {
  import opened Wrappers
  import opened ErrorGraph
  import opened ErrorTermination
  import opened ErrorSharing
  import opened ErrorKindSearch

  // ----- the tree of simple paths -----

  /** The preorder of all paths on which no pointer stands twice; above holds the pointers on the way
      here. Nothing is remembered between branches. */
  function SimplePaths(g: Graph, e: Option<Id>, above: set<Id>, fuel: nat): Option<seq<Id>>
    requires Closed(g) && Refers(g, e)
    decreases fuel, 0
  {
    if Skipped(g, e, above) then Some([])
    else if fuel == 0 then None
    else
      var below := SimplePathsAll(g, Children(g[e.value]), Mark(g, e.value, above), fuel - 1);
      if below.None? then None else Some([e.value] + below.value)
  }

  function SimplePathsAll(g: Graph, list: seq<Option<Id>>, above: set<Id>, fuel: nat): Option<seq<Id>>
    requires Closed(g) && forall i :: 0 <= i < |list| ==> Refers(g, list[i])
    decreases fuel, |list| + 1
  {
    if list == [] then Some([])
    else
      var first, rest := SimplePaths(g, list[0], above, fuel), SimplePathsAll(g, list[1..], above, fuel);
      if first.None? || rest.None? then None else Some(first.value + rest.value)
  }

  // ----- that tree is finite wherever KindsOf ends -----

  lemma {:induction false} PathsEnd(g: Graph, r: set<Id>, marked: set<Id>, top: nat, e: Option<Id>, above: set<Id>, h: nat, fuel: nat)
    requires Closed(g) && Region(g, r) && Tall(g, r, marked, top) && Refers(g, e) && (IsNil(g, e) || e.value in r)
    requires h <= top && HasHeight(g, marked, e, h) && Depth(|Unmarked(g, r, above)|, top, h) <= fuel
    ensures SimplePaths(g, e, above, fuel).Some?
    decreases fuel, 0
  {
    hide Depth, HasHeight, Tall, Unmarked;
    if Skipped(g, e, above) {
    } else {
      var n := e.value;
      var list := Children(g[n]);
      var after, h' := Mark(g, n, above), top;
      if g[n].pointer {
        MarkingShrinks(g, r, above, n);
      } else {
        HeightPositive(g, marked, n, h);
        h' := h - 1;
      }
      DepthStep(|Unmarked(g, r, above)|, |Unmarked(g, r, after)|, top, h, h', fuel);
      forall i | 0 <= i < |list|
        ensures (IsNil(g, list[i]) || list[i].value in r) && HasHeight(g, marked, list[i], h')
      {
        ChildInRegion(g, r, marked, top, n, i);
        if !g[n].pointer {
          ChildHeight(g, marked, n, h, i);
        }
      }
      AllPathsEnd(g, r, marked, top, list, after, h', fuel - 1);
    }
  }

  lemma {:induction false} AllPathsEnd(g: Graph, r: set<Id>, marked: set<Id>, top: nat, list: seq<Option<Id>>, above: set<Id>,
          h: nat, fuel: nat)
    requires Closed(g) && Region(g, r) && Tall(g, r, marked, top)
    requires forall i :: 0 <= i < |list| ==> Refers(g, list[i]) && (IsNil(g, list[i]) || list[i].value in r) && HasHeight(g, marked, list[i], h)
    requires h <= top && Depth(|Unmarked(g, r, above)|, top, h) <= fuel
    ensures SimplePathsAll(g, list, above, fuel).Some?
    decreases fuel, |list| + 1
  {
    hide Depth, HasHeight, Tall, Unmarked;
    if list == [] {
    } else {
      PathsEnd(g, r, marked, top, list[0], above, h, fuel);
      AllPathsEnd(g, r, marked, top, list[1..], above, h, fuel);
    }
  }

  lemma PathsAreFinite(g: Graph, e: Option<Id>) returns (fuel: nat)
    requires Closed(g) && Refers(g, e) && Terminates(g, e)
    ensures SimplePaths(g, e, {}, fuel).Some?
  {
    fuel := 0;
    if !IsNil(g, e) {
      var r, marked, top := HeightOf(g, e);
      fuel := Depth(|Unmarked(g, r, {})|, top, top);
      PathsEnd(g, r, marked, top, e, {}, top, fuel);
    }
  }

  // ----- what is done holds what it can reach, up to the path above -----

  /** done holds the errors walked to the end: their children are done too or lie on the path above,
      and their kinds have been collected. */
  ghost predicate Explored(g: Graph, done: set<Id>, above: set<Id>, seen: set<Id>, kinds: seq<Kind>)
    requires Closed(g)
  {
    && above <= seen && seen <= done + above
    && (forall n, c :: n in done && n in g && HasChild(g, n, c) ==> c in done || c in above)
    && (forall n :: n in above && n in g ==> g[n].pointer)
    && (forall n :: n in done && n in g && Effective(g[n]).Some? ==> Effective(g[n]).value in kinds)
  }

  lemma {:induction false} PathsStayInDone(g: Graph, e: Option<Id>, done: set<Id>, above: set<Id>, path: set<Id>, fuel: nat)
    requires Closed(g) && Refers(g, e) && above <= path && (forall n :: n in above && n in g ==> g[n].pointer)
    requires forall n, c :: n in done && n in g && HasChild(g, n, c) ==> c in done || c in above
    requires IsNil(g, e) || e.value in done || e.value in above
    requires SimplePaths(g, e, path, fuel).Some?
    ensures forall n :: n in SimplePaths(g, e, path, fuel).value ==> n in done
    decreases fuel, 0
  {
    if Skipped(g, e, path) {
    } else {
      var list := Children(g[e.value]);
      forall i | 0 <= i < |list|
        ensures IsNil(g, list[i]) || list[i].value in done || list[i].value in above
      {
        assert !IsNil(g, list[i]) ==> HasChild(g, e.value, list[i].value);
      }
      AllPathsStayInDone(g, list, done, above, Mark(g, e.value, path), fuel - 1);
    }
  }

  lemma {:induction false} AllPathsStayInDone(g: Graph, list: seq<Option<Id>>, done: set<Id>, above: set<Id>, path: set<Id>, fuel: nat)
    requires Closed(g) && above <= path && (forall n :: n in above && n in g ==> g[n].pointer)
    requires forall n, c :: n in done && n in g && HasChild(g, n, c) ==> c in done || c in above
    requires forall i :: 0 <= i < |list| ==> Refers(g, list[i]) && (IsNil(g, list[i]) || list[i].value in done || list[i].value in above)
    requires SimplePathsAll(g, list, path, fuel).Some?
    ensures forall n :: n in SimplePathsAll(g, list, path, fuel).value ==> n in done
    decreases fuel, |list| + 1
  {
    if list == [] {
    } else {
      PathsStayInDone(g, list[0], done, above, path, fuel);
      AllPathsStayInDone(g, list[1..], done, above, path, fuel);
    }
  }

  function Members(trail: seq<Id>): set<Id> {
    set n | n in trail
  }

  /** A finished walk joins what is done. */
  lemma WalkExplores(g: Graph, e: Option<Id>, done: set<Id>, above: set<Id>, seen: set<Id>, kinds: seq<Kind>, fuel: nat)
    requires Closed(g) && Refers(g, e) && Explored(g, done, above, seen, kinds) && Walk(g, e, seen, fuel).Some?
    ensures var t := Walk(g, e, seen, fuel).value;
            Explored(g, done + Members(t.trail), above, t.seen, Extend(g, kinds, t.trail))
  {
    WalkCovers(g, e, seen, fuel);
    var t := Walk(g, e, seen, fuel).value;
    var kinds' := Extend(g, kinds, t.trail);
    forall n | n in t.trail && n in g && Effective(g[n]).Some?
      ensures Effective(g[n]).value in kinds'
    {
      assert Effective(g[n]).value in KindSet(g, t.trail);
    }
  }

  lemma {:induction false} WalkCollectsPaths(g: Graph, e: Option<Id>, done: set<Id>, above: set<Id>, seen: set<Id>,
          kinds: seq<Kind>, fuel: nat, depth: nat)
    requires Closed(g) && Refers(g, e) && Explored(g, done, above, seen, kinds)
    requires Walk(g, e, seen, fuel).Some? && SimplePaths(g, e, above, depth).Some?
    ensures Extend(g, kinds, Walk(g, e, seen, fuel).value.trail) == Extend(g, kinds, SimplePaths(g, e, above, depth).value)
    decreases fuel, 0
  {
    hide KindSet, HasChild;
    if Skipped(g, e, seen) {
      if !Skipped(g, e, above) {
        KnownPaths(g, e, done, above, seen, kinds, depth);
      }
    } else {
      var n := e.value;
      var kinds' := Add(g, kinds, n);
      EnterExplored(g, n, done, above, seen, kinds);
      ListCollectsPaths(g, Children(g[n]), done, Mark(g, n, above), Mark(g, n, seen), kinds', fuel - 1, depth - 1);
      ExtendCons(g, kinds, n, WalkAll(g, Children(g[n]), Mark(g, n, seen), fuel - 1).value.trail);
      ExtendCons(g, kinds, n, SimplePathsAll(g, Children(g[n]), Mark(g, n, above), depth - 1).value);
    }
  }

  lemma KnownPaths(g: Graph, e: Option<Id>, done: set<Id>, above: set<Id>, seen: set<Id>, kinds: seq<Kind>, depth: nat)
    requires Closed(g) && Refers(g, e) && Explored(g, done, above, seen, kinds) && Skipped(g, e, seen) && !IsNil(g, e)
    requires SimplePaths(g, e, above, depth).Some?
    ensures Extend(g, kinds, SimplePaths(g, e, above, depth).value) == kinds
  {
    PathsStayInDone(g, e, done, above, above, depth);
    ExtendKnown(g, kinds, SimplePaths(g, e, above, depth).value);
  }

  lemma EnterExplored(g: Graph, n: Id, done: set<Id>, above: set<Id>, seen: set<Id>, kinds: seq<Kind>)
    requires Closed(g) && n in g && Explored(g, done, above, seen, kinds)
    ensures Explored(g, done, Mark(g, n, above), Mark(g, n, seen), Add(g, kinds, n))
  {
    hide HasChild;
  }

  lemma ExtendCons(g: Graph, base: seq<Kind>, n: Id, trail: seq<Id>)
    ensures Extend(g, base, [n] + trail) == Extend(g, Add(g, base, n), trail)
  {
    assert ([n] + trail)[1..] == trail;
  }

  lemma {:induction false} ListCollectsPaths(g: Graph, list: seq<Option<Id>>, done: set<Id>, above: set<Id>, seen: set<Id>,
          kinds: seq<Kind>, fuel: nat, depth: nat)
    requires Closed(g) && (forall i :: 0 <= i < |list| ==> Refers(g, list[i])) && Explored(g, done, above, seen, kinds)
    requires WalkAll(g, list, seen, fuel).Some? && SimplePathsAll(g, list, above, depth).Some?
    ensures Extend(g, kinds, WalkAll(g, list, seen, fuel).value.trail) == Extend(g, kinds, SimplePathsAll(g, list, above, depth).value)
    decreases fuel, |list| + 1
  {
    hide Explored, Walk, SimplePaths, Extend;
    if list == [] {
    } else {
      var first, tree := Walk(g, list[0], seen, fuel).value, SimplePaths(g, list[0], above, depth).value;
      WalkCollectsPaths(g, list[0], done, above, seen, kinds, fuel, depth);
      WalkExplores(g, list[0], done, above, seen, kinds, fuel);
      ListCollectsPaths(g, list[1..], done + Members(first.trail), above, first.seen, Extend(g, kinds, first.trail), fuel, depth);
      ExtendAppend(g, kinds, first.trail, WalkAll(g, list[1..], first.seen, fuel).value.trail);
      ExtendAppend(g, kinds, tree, SimplePathsAll(g, list[1..], above, depth).value);
    }
  }

  /** On every error on which KindsOf ends, cyclic or not, it returns the kinds in the order of the
      lexicographically first simple path that leads to each: the kinds of the preorder of all simple
      paths, each at its first occurrence. */
  lemma KindsOfFollowsSimplePaths(g: Graph, e: Option<Id>, fuel: nat)
    requires Closed(g) && Refers(g, e) && Walk(g, e, {}, fuel).Some?
    ensures exists depth :: SimplePaths(g, e, {}, depth).Some?
    ensures forall depth :: SimplePaths(g, e, {}, depth).Some? ==>
              Collect(g, Walk(g, e, {}, fuel).value.trail) == Collect(g, SimplePaths(g, e, {}, depth).value)
  {
    var enough := PathsAreFinite(g, e);
    forall depth: nat | SimplePaths(g, e, {}, depth).Some?
      ensures Collect(g, Walk(g, e, {}, fuel).value.trail) == Collect(g, SimplePaths(g, e, {}, depth).value)
    {
      WalkCollectsPaths(g, e, {}, {}, {}, [], fuel, depth);
      CollectIsExtend(g, Walk(g, e, {}, fuel).value.trail);
      CollectIsExtend(g, SimplePaths(g, e, {}, depth).value);
    }
  }
}
