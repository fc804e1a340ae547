/** When the traversal of an error graph ends (errx/inspect.go). markSeen recognises pointers only,
    so a cycle that never meets a pointer is followed for ever. */
module ErrorTermination {
  import opened Wrappers
  import opened ErrorGraph

  /** A value error that unwraps to a member of the set. */
  ghost predicate StaysIn(g: Graph, trap: set<Id>, v: Id)
    requires Closed(g)
  {
    v in g && !g[v].typedNil && !g[v].pointer && exists c :: c in trap && HasChild(g, v, c)
  }

  /** Value errors each of which unwraps to another of them, as in a slice of errors that contains
      itself. */
  ghost predicate IsTrap(g: Graph, trap: set<Id>)
    requires Closed(g)
  {
    trap != {} && forall v {:trigger StaysIn(g, trap, v)} :: v in trap ==> StaysIn(g, trap, v)
  }

  ghost predicate MeetsTrap(g: Graph, e: Option<Id>, trap: set<Id>)
    requires Closed(g)
  {
    IsTrap(g, trap) && exists v :: v in trap && Reaches(g, e, v)
  }

  // ----- a trap is never left -----

  lemma TrapStep(g: Graph, trap: set<Id>, v: Id) returns (i: nat)
    requires Closed(g) && IsTrap(g, trap) && v in trap
    ensures v in g && !g[v].typedNil && !g[v].pointer
    ensures i < |Children(g[v])| && Children(g[v])[i].Some? && Children(g[v])[i].value in trap
  {
    assert StaysIn(g, trap, v);
    var c :| c in trap && HasChild(g, v, c);
    i :| 0 <= i < |Children(g[v])| && Children(g[v])[i] == Some(c) && !g[c].typedNil;
  }

  lemma {:induction false} TrapDiverges(g: Graph, trap: set<Id>, v: Id, seen: set<Id>, fuel: nat)
    requires Closed(g) && IsTrap(g, trap) && v in trap && v in g
    ensures Walk(g, Some(v), seen, fuel).None?
    decreases fuel, 0
  {
    hide IsTrap;
    var i := TrapStep(g, trap, v);
    if fuel == 0 {
    } else {
      ListDiverges(g, trap, Children(g[v]), i, seen, fuel - 1);
    }
  }

  lemma {:induction false} ListDiverges(g: Graph, trap: set<Id>, list: seq<Option<Id>>, i: nat, seen: set<Id>, fuel: nat)
    requires Closed(g) && IsTrap(g, trap) && (forall i :: 0 <= i < |list| ==> Refers(g, list[i]))
    requires i < |list| && list[i].Some? && list[i].value in trap
    ensures WalkAll(g, list, seen, fuel).None?
    decreases fuel, |list| + 1
  {
    hide IsTrap;
    if i == 0 {
      TrapDiverges(g, trap, list[0].value, seen, fuel);
    } else if Walk(g, list[0], seen, fuel).Some? {
      ListDiverges(g, trap, list[1..], i - 1, Walk(g, list[0], seen, fuel).value.seen, fuel);
    }
  }

  /** Every error of a trail was walked, from some set of marks and with some bound. */
  lemma {:induction false} TrailWasWalked(g: Graph, e: Option<Id>, seen: set<Id>, fuel: nat, m: Id)
    returns (seen': set<Id>, fuel': nat)
    requires Closed(g) && Refers(g, e) && Walk(g, e, seen, fuel).Some? && m in Walk(g, e, seen, fuel).value.trail
    ensures m in g && Walk(g, Some(m), seen', fuel').Some?
    decreases fuel, 0
  {
    if m == e.value {
      seen', fuel' := seen, fuel;
    } else {
      seen', fuel' := AllWereWalked(g, Children(g[e.value]), Mark(g, e.value, seen), fuel - 1, m);
    }
  }

  lemma {:induction false} AllWereWalked(g: Graph, list: seq<Option<Id>>, seen: set<Id>, fuel: nat, m: Id)
    returns (seen': set<Id>, fuel': nat)
    requires Closed(g) && (forall i :: 0 <= i < |list| ==> Refers(g, list[i])) && WalkAll(g, list, seen, fuel).Some?
    requires m in WalkAll(g, list, seen, fuel).value.trail
    ensures m in g && Walk(g, Some(m), seen', fuel').Some?
    decreases fuel, |list| + 1
  {
    var first := Walk(g, list[0], seen, fuel).value;
    if m in first.trail {
      seen', fuel' := TrailWasWalked(g, list[0], seen, fuel, m);
    } else {
      seen', fuel' := AllWereWalked(g, list[1..], first.seen, fuel, m);
    }
  }

  lemma TerminatingMeetsNoTrap(g: Graph, e: Option<Id>, trap: set<Id>)
    requires Closed(g) && Refers(g, e) && Terminates(g, e)
    ensures !MeetsTrap(g, e, trap)
  {
    if MeetsTrap(g, e, trap) {
      hide IsTrap;
      var fuel: nat :| Walk(g, e, {}, fuel).Some?;
      var v :| v in trap && Reaches(g, e, v);
      TrailIsReachability(g, e, fuel, v);
      var seen', fuel' := TrailWasWalked(g, e, {}, fuel, v);
      TrapDiverges(g, trap, v, seen', fuel');
    }
  }

  // ----- without a trap every walk ends -----

  ghost predicate Ends(g: Graph, e: Option<Id>, seen: set<Id>)
    requires Closed(g) && Refers(g, e)
  {
    exists fuel :: Walk(g, e, seen, fuel).Some?
  }

  ghost predicate EndsAll(g: Graph, list: seq<Option<Id>>, seen: set<Id>)
    requires Closed(g) && forall i :: 0 <= i < |list| ==> Refers(g, list[i])
  {
    exists fuel :: WalkAll(g, list, seen, fuel).Some?
  }

  lemma {:induction false} ListEnds(g: Graph, list: seq<Option<Id>>, seen: set<Id>)
    requires Closed(g) && forall i :: 0 <= i < |list| ==> Refers(g, list[i])
    requires forall i, more {:trigger Ends(g, list[i], more)} :: 0 <= i < |list| && seen <= more ==> Ends(g, list[i], more)
    ensures EndsAll(g, list, seen)
    decreases |list|
  {
    if list == [] {
      assert WalkAll(g, list, seen, 0).Some?;
    } else {
      assert Ends(g, list[0], seen);
      var f1: nat :| Walk(g, list[0], seen, f1).Some?;
      var first := Walk(g, list[0], seen, f1).value;
      WalkCovers(g, list[0], seen, f1);
      ListEnds(g, list[1..], first.seen);
      var f2: nat :| WalkAll(g, list[1..], first.seen, f2).Some?;
      var f := if f1 < f2 then f2 else f1;
      MoreFuel(g, list[0], seen, f1, f);
      MoreFuelAll(g, list[1..], first.seen, f2, f);
      assert WalkAll(g, list, seen, f).Some?;
    }
  }

  /** An error ends when its children do, once it is marked. */
  lemma EndsByChildren(g: Graph, n: Id, seen: set<Id>)
    requires Closed(g) && n in g
    requires EndsAll(g, Children(g[n]), Mark(g, n, seen))
    ensures Ends(g, Some(n), seen)
  {
    var fuel: nat :| WalkAll(g, Children(g[n]), Mark(g, n, seen), fuel).Some?;
    assert Walk(g, Some(n), seen, fuel + 1).Some?;
  }

  /** A set of errors that contains its members' children. */
  ghost predicate Region(g: Graph, r: set<Id>)
    requires Closed(g)
  {
    forall n :: n in r ==> n in g && !g[n].typedNil && forall c :: HasChild(g, n, c) ==> c in r
  }

  function Unmarked(g: Graph, r: set<Id>, seen: set<Id>): set<Id> {
    set n | n in r && n in g && g[n].pointer && n !in seen
  }

  lemma MarkingShrinks(g: Graph, r: set<Id>, seen: set<Id>, n: Id)
    requires n in r && n in g && g[n].pointer && n !in seen
    ensures |Unmarked(g, r, seen + {n})| == |Unmarked(g, r, seen)| - 1
  {
    assert Unmarked(g, r, seen + {n}) == Unmarked(g, r, seen) - {n};
  }

  lemma MoreMarksShrink(g: Graph, r: set<Id>, seen: set<Id>, more: set<Id>)
    requires seen <= more
    ensures |Unmarked(g, r, more)| <= |Unmarked(g, r, seen)|
  {
    assert Unmarked(g, r, more) <= Unmarked(g, r, seen);
    SubsetSmaller(Unmarked(g, r, more), Unmarked(g, r, seen));
  }

  lemma SubsetSmaller(a: set<Id>, b: set<Id>)
    requires a <= b
    ensures |a| <= |b|
  {
    assert |b - a| == |b| - |a|;
  }

  /** Every error of the region ends from any marks that leave at most u pointers unmarked. */
  ghost predicate AllEnd(g: Graph, r: set<Id>, u: int)
    requires Closed(g) && Region(g, r)
  {
    forall n, seen :: n in r && |Unmarked(g, r, seen)| <= u ==> Ends(g, Some(n), seen)
  }

  lemma PointerEnds(g: Graph, r: set<Id>, n: Id, seen: set<Id>, u: int)
    requires Closed(g) && Region(g, r) && AllEnd(g, r, u - 1) && n in r && g[n].pointer && |Unmarked(g, r, seen)| <= u
    ensures Ends(g, Some(n), seen)
  {
    if n in seen {
      assert Walk(g, Some(n), seen, 0).Some?;
    } else {
      var list := Children(g[n]);
      MarkingShrinks(g, r, seen, n);
      forall i, more | 0 <= i < |list| && seen + {n} <= more
        ensures Ends(g, list[i], more)
      {
        MoreMarksShrink(g, r, seen + {n}, more);
        ChildEnds(g, r, n, i, more, u - 1);
      }
      ListEnds(g, list, seen + {n});
      EndsByChildren(g, n, seen);
    }
  }

  lemma ChildEnds(g: Graph, r: set<Id>, n: Id, i: nat, seen: set<Id>, u: int)
    requires Closed(g) && Region(g, r) && AllEnd(g, r, u) && n in r && i < |Children(g[n])| && |Unmarked(g, r, seen)| <= u
    ensures Ends(g, Children(g[n])[i], seen)
  {
    var c := Children(g[n])[i];
    if IsNil(g, c) {
      assert Walk(g, c, seen, 0).Some?;
    } else {
      assert HasChild(g, n, c.value);
    }
  }

  /** The value errors that may fail to end with at most u pointers unmarked. */
  ghost function Stuck(g: Graph, r: set<Id>, u: int): set<Id>
    requires Closed(g) && Region(g, r)
  {
    set v | v in r && !g[v].pointer && exists seen :: |Unmarked(g, r, seen)| <= u && !Ends(g, Some(v), seen)
  }

  /** A stuck value has a stuck child. */
  lemma StuckHasStuckChild(g: Graph, r: set<Id>, u: int, v: Id)
    requires Closed(g) && Region(g, r) && AllEnd(g, r, u - 1) && v in Stuck(g, r, u)
    ensures exists c :: c in Stuck(g, r, u) && HasChild(g, v, c)
  {
    var seen :| |Unmarked(g, r, seen)| <= u && !Ends(g, Some(v), seen);
    var list := Children(g[v]);
    if forall c :: HasChild(g, v, c) ==> c !in Stuck(g, r, u) {
      forall i, more | 0 <= i < |list| && seen <= more
        ensures Ends(g, list[i], more)
      {
        MoreMarksShrink(g, r, seen, more);
        if IsNil(g, list[i]) {
          assert Walk(g, list[i], more, 0).Some?;
        } else {
          assert HasChild(g, v, list[i].value);
          if g[list[i].value].pointer {
            PointerEnds(g, r, list[i].value, more, u);
          }
        }
      }
      ListEnds(g, list, seen);
      EndsByChildren(g, v, seen);
    }
  }

  lemma {:induction false} AllEndUpTo(g: Graph, r: set<Id>, u: int)
    requires Closed(g) && Region(g, r) && u >= -1
    requires forall trap :: IsTrap(g, trap) ==> trap * r == {}
    ensures AllEnd(g, r, u)
    decreases u
  {
    if u >= 0 {
      AllEndUpTo(g, r, u - 1);
      var stuck := Stuck(g, r, u);
      if stuck != {} {
        forall v | v in stuck
          ensures StaysIn(g, stuck, v)
        {
          StuckHasStuckChild(g, r, u, v);
        }
        assert IsTrap(g, stuck);
        assert false;
      }
      forall n, seen | n in r && |Unmarked(g, r, seen)| <= u
        ensures Ends(g, Some(n), seen)
      {
        if g[n].pointer {
          PointerEnds(g, r, n, seen, u);
        } else {
          assert n !in stuck;
        }
      }
    }
  }

  /** KindsOf ends exactly when unwrapping reaches no cycle of value errors. */
  lemma TerminatesIffNoTrap(g: Graph, e: Option<Id>)
    requires Closed(g) && Refers(g, e)
    ensures Terminates(g, e) <==> forall trap :: !MeetsTrap(g, e, trap)
  {
    if Terminates(g, e) {
      forall trap
        ensures !MeetsTrap(g, e, trap)
      {
        TerminatingMeetsNoTrap(g, e, trap);
      }
    } else if forall trap :: !MeetsTrap(g, e, trap) {
      if IsNil(g, e) {
        assert Walk(g, e, {}, 0).Some?;
      } else {
        var r := set n | n in g && !g[n].typedNil && Reaches(g, e, n);
        ReachableIsRegion(g, e, r);
        forall trap | IsTrap(g, trap)
          ensures trap * r == {}
        {
          assert !MeetsTrap(g, e, trap);
        }
        AllEndUpTo(g, r, |Unmarked(g, r, {})|);
        ReachesItself(g, e.value);
        assert Ends(g, e, {});
      }
    }
  }

  lemma ReachableIsRegion(g: Graph, e: Option<Id>, r: set<Id>)
    requires Closed(g) && Refers(g, e) && !IsNil(g, e)
    requires r == set n | n in g && !g[n].typedNil && Reaches(g, e, n)
    ensures Region(g, r)
  {
    forall n: Id, c: Id | n in r && HasChild(g, n, c)
      ensures c in r
    {
      var p :| IsPath(g, p) && p[0] == e.value && p[|p| - 1] == n;
      var q := p + [c];
      forall i, j | 0 <= i && j == i + 1 < |q|
        ensures HasChild(g, q[i], q[j])
      {
        if j < |p| {
          assert HasChild(g, p[i], p[j]);
        }
      }
      assert IsPath(g, q);
    }
  }

  // ----- instances -----

  /** Pointers everywhere, as the documentation assumes: every cycle is met once and left. */
  lemma PointersAlwaysTerminate(g: Graph, e: Option<Id>)
    requires Closed(g) && Refers(g, e) && forall n :: n in g ==> g[n].pointer
    ensures Terminates(g, e)
  {
    forall trap: set<Id>
      ensures !IsTrap(g, trap)
    {
      if trap != {} {
        var v := SomeMember(trap);
        assert !StaysIn(g, trap, v);
      }
    }
    TerminatesIffNoTrap(g, e);
  }

  /** A slice error that contains itself: the traversal never ends, against the comment that value
      errors cannot form a recursive unwrap tree. */
  lemma SelfContainingSliceDiverges(k: Option<Kind>)
    ensures var g: Graph := map[0 := Node(false, false, k, Joined([Some(0)]))];
            Closed(g) && !Terminates(g, Some(0))
  {
    var g: Graph := map[0 := Node(false, false, k, Joined([Some(0)]))];
    assert Children(g[0])[0] == Some(0);
    assert HasChild(g, 0, 0);
    assert StaysIn(g, {0}, 0);
    ReachesItself(g, 0);
    assert MeetsTrap(g, Some(0), {0});
    TerminatesIffNoTrap(g, Some(0));
  }
}
