/** KindsOf on errors whose unwrap tree is finite (errx/inspect.go): there the marks only save work. */
module ErrorSharing {
  import opened Wrappers
  import opened ErrorGraph
  import opened ErrorKinds

  // ----- kinds added one by one -----

  function Add(g: Graph, base: seq<Kind>, n: Id): seq<Kind> {
    if n in g && Effective(g[n]).Some? && Effective(g[n]).value !in base then base + [Effective(g[n]).value] else base
  }

  function Extend(g: Graph, base: seq<Kind>, trail: seq<Id>): (r: seq<Kind>)
    ensures forall k :: k in base ==> k in r
    ensures forall k :: k in KindSet(g, trail) ==> k in r
    decreases |trail|
  {
    if trail == [] then base
    else
      assert trail == [trail[0]] + trail[1..];
      Extend(g, Add(g, base, trail[0]), trail[1..])
  }

  lemma {:induction false} ExtendAppend(g: Graph, base: seq<Kind>, a: seq<Id>, b: seq<Id>)
    ensures Extend(g, base, a + b) == Extend(g, Extend(g, base, a), b)
    decreases |a|
  {
    if a == [] {
      assert a + b == b;
    } else {
      ExtendAppend(g, Add(g, base, a[0]), a[1..], b);
      assert (a + b)[0] == a[0] && (a + b)[1..] == a[1..] + b;
    }
  }

  lemma {:induction false} ExtendKnown(g: Graph, base: seq<Kind>, trail: seq<Id>)
    requires forall k :: k in KindSet(g, trail) ==> k in base
    ensures Extend(g, base, trail) == base
    decreases |trail|
  {
    if trail == [] {
    } else {
      assert trail == [trail[0]] + trail[1..];
      assert Add(g, base, trail[0]) == base;
      ExtendKnown(g, base, trail[1..]);
    }
  }

  lemma {:induction false} CollectIsExtend(g: Graph, trail: seq<Id>)
    ensures Collect(g, trail) == Extend(g, [], trail)
    decreases |trail|
  {
    if trail == [] {
    } else {
      var init, n := trail[..|trail| - 1], trail[|trail| - 1];
      CollectIsExtend(g, init);
      assert trail == init + [n];
      ExtendAppend(g, [], init, [n]);
      assert [n][1..] == [];
      assert Extend(g, Collect(g, init), [n]) == Add(g, Collect(g, init), n);
    }
  }

  // ----- finite unwrap trees -----

  lemma {:induction false} MoreFuelUnfold(g: Graph, e: Option<Id>, fuel: nat, more: nat)
    requires Closed(g) && Refers(g, e) && Unfold(g, e, fuel).Some? && fuel <= more
    ensures Unfold(g, e, more) == Unfold(g, e, fuel)
    decreases fuel, 0
  {
    if IsNil(g, e) {
    } else {
      MoreFuelUnfoldAll(g, Children(g[e.value]), fuel - 1, more - 1);
    }
  }

  lemma {:induction false} MoreFuelUnfoldAll(g: Graph, list: seq<Option<Id>>, fuel: nat, more: nat)
    requires Closed(g) && (forall i :: 0 <= i < |list| ==> Refers(g, list[i])) && UnfoldAll(g, list, fuel).Some? && fuel <= more
    ensures UnfoldAll(g, list, more) == UnfoldAll(g, list, fuel)
    decreases fuel, |list| + 1
  {
    if list == [] {
    } else {
      MoreFuelUnfold(g, list[0], fuel, more);
      MoreFuelUnfoldAll(g, list[1..], fuel, more);
    }
  }

  lemma {:induction false} LeastFuel(g: Graph, e: Option<Id>, fuel: nat) returns (h: nat)
    requires Closed(g) && Refers(g, e) && Unfold(g, e, fuel).Some?
    ensures h <= fuel && Unfold(g, e, h) == Unfold(g, e, fuel)
    ensures h == 0 || Unfold(g, e, h - 1).None?
    decreases fuel
  {
    h := fuel;
    if fuel > 0 && Unfold(g, e, fuel - 1).Some? {
      MoreFuelUnfold(g, e, fuel - 1, fuel);
      h := LeastFuel(g, e, fuel - 1);
    }
  }

  /** The tree of an error inside a tree is part of that tree. */
  lemma {:induction false} Subtree(g: Graph, e: Option<Id>, fuel: nat, m: Id, other: nat)
    requires Closed(g) && Refers(g, e) && Unfold(g, e, fuel).Some? && m in Unfold(g, e, fuel).value
    requires m in g && Unfold(g, Some(m), other).Some?
    ensures forall x :: x in Unfold(g, Some(m), other).value ==> x in Unfold(g, e, fuel).value
    decreases fuel, 0
  {
    if m == e.value {
      MoreFuelUnfold(g, e, fuel, fuel + other);
      MoreFuelUnfold(g, e, other, fuel + other);
    } else {
      SubtreeOfList(g, Children(g[e.value]), fuel - 1, m, other);
    }
  }

  lemma {:induction false} SubtreeOfList(g: Graph, list: seq<Option<Id>>, fuel: nat, m: Id, other: nat)
    requires Closed(g) && (forall i :: 0 <= i < |list| ==> Refers(g, list[i]))
    requires UnfoldAll(g, list, fuel).Some? && m in UnfoldAll(g, list, fuel).value
    requires m in g && Unfold(g, Some(m), other).Some?
    ensures forall x :: x in Unfold(g, Some(m), other).value ==> x in UnfoldAll(g, list, fuel).value
    decreases fuel, |list| + 1
  {
    if m in Unfold(g, list[0], fuel).value {
      Subtree(g, list[0], fuel, m, other);
    } else {
      SubtreeOfList(g, list[1..], fuel, m, other);
    }
  }

  // ----- marks change nothing -----

  /** The tree of every marked error of height h or less has contributed its kinds. */
  ghost predicate Counted(g: Graph, seen: set<Id>, kinds: seq<Kind>, h: nat)
    requires Closed(g)
  {
    forall m :: m in seen && m in g && Unfold(g, Some(m), h).Some? ==>
      forall k :: k in KindSet(g, Unfold(g, Some(m), h).value) ==> k in kinds
  }

  lemma CountedBelow(g: Graph, seen: set<Id>, kinds: seq<Kind>, h: nat, low: nat)
    requires Closed(g) && Counted(g, seen, kinds, h) && low <= h
    ensures Counted(g, seen, kinds, low)
  {
    forall m | m in seen && m in g && Unfold(g, Some(m), low).Some?
      ensures forall k :: k in KindSet(g, Unfold(g, Some(m), low).value) ==> k in kinds
    {
      MoreFuelUnfold(g, Some(m), low, h);
    }
  }

  /** New marks lie in the tree just walked, whose kinds are all counted. */
  lemma CountedAfter(g: Graph, e: Option<Id>, seen: set<Id>, kinds: seq<Kind>, after: set<Id>, kinds': seq<Kind>,
          fuel: nat, h: nat)
    requires Closed(g) && Refers(g, e) && Unfold(g, e, fuel).Some? && Counted(g, seen, kinds, h)
    requires forall m :: m in after ==> m in seen || m in Unfold(g, e, fuel).value
    requires forall k :: k in kinds || k in KindSet(g, Unfold(g, e, fuel).value) ==> k in kinds'
    ensures Counted(g, after, kinds', h)
  {
    forall m | m in after && m in g && Unfold(g, Some(m), h).Some?
      ensures forall k :: k in KindSet(g, Unfold(g, Some(m), h).value) ==> k in kinds'
    {
      if m !in seen {
        Subtree(g, e, fuel, m, h);
      }
    }
  }

  lemma {:induction false} MarksSaveWork(g: Graph, e: Option<Id>, seen: set<Id>, kinds: seq<Kind>, h: nat)
    requires Closed(g) && Refers(g, e) && Unfold(g, e, h).Some? && (h == 0 || Unfold(g, e, h - 1).None?)
    requires Counted(g, seen, kinds, h)
    ensures var t := Walk(g, e, seen, h);
            && t.Some?
            && Extend(g, kinds, t.value.trail) == Extend(g, kinds, Unfold(g, e, h).value)
            && (forall m :: m in t.value.seen ==> m in seen || m in Unfold(g, e, h).value)
    decreases h, 0
  {
    hide KindSet, Extend;
    if IsNil(g, e) {
    } else if Skipped(g, e, seen) {
      ExtendKnown(g, kinds, Unfold(g, e, h).value);
      ExtendNothing(g, kinds);
    } else {
      var n, list := e.value, Children(g[e.value]);
      var marked := Mark(g, n, seen);
      CountedBelow(g, seen, kinds, h, h - 1);
      var more := Add(g, kinds, n);
      assert Counted(g, marked, more, h - 1);
      MarksSaveWorkInList(g, list, marked, more, h - 1);
      var below := WalkAll(g, list, marked, h - 1).value;
      ExtendAppend(g, kinds, [n], below.trail);
      ExtendAppend(g, kinds, [n], UnfoldAll(g, list, h - 1).value);
      ExtendOne(g, kinds, n);
    }
  }

  lemma ExtendOne(g: Graph, kinds: seq<Kind>, n: Id)
    ensures Extend(g, kinds, [n]) == Add(g, kinds, n)
  {
    assert [n][1..] == [];
  }

  lemma ExtendNothing(g: Graph, kinds: seq<Kind>)
    ensures Extend(g, kinds, []) == kinds
  {
  }

  lemma {:induction false} MarksSaveWorkInList(g: Graph, list: seq<Option<Id>>, seen: set<Id>, kinds: seq<Kind>, fuel: nat)
    requires Closed(g) && (forall i :: 0 <= i < |list| ==> Refers(g, list[i])) && UnfoldAll(g, list, fuel).Some?
    requires Counted(g, seen, kinds, fuel)
    ensures var t := WalkAll(g, list, seen, fuel);
            && t.Some?
            && Extend(g, kinds, t.value.trail) == Extend(g, kinds, UnfoldAll(g, list, fuel).value)
            && (forall m :: m in t.value.seen ==> m in seen || m in UnfoldAll(g, list, fuel).value)
    decreases fuel, |list| + 1
  {
    hide KindSet, Extend;
    if list == [] {
    } else {
      var h := LeastFuel(g, list[0], fuel);
      CountedBelow(g, seen, kinds, fuel, h);
      MarksSaveWork(g, list[0], seen, kinds, h);
      MoreFuel(g, list[0], seen, h, fuel);
      var first := Walk(g, list[0], seen, fuel).value;
      var tree := Unfold(g, list[0], fuel).value;
      var kinds' := Extend(g, kinds, tree);
      CountedAfter(g, list[0], seen, kinds, first.seen, kinds', fuel, fuel);
      MarksSaveWorkInList(g, list[1..], first.seen, kinds', fuel);
      ExtendAppend(g, kinds, first.trail, WalkAll(g, list[1..], first.seen, fuel).value.trail);
      ExtendAppend(g, kinds, tree, UnfoldAll(g, list[1..], fuel).value);
    }
  }

  /** On every error with a finite unwrap tree, however much of it is shared, KindsOf returns the
      kinds of the plain preorder, each at its first occurrence. */
  lemma KindsOfIsPreorder(g: Graph, e: Option<Id>, depth: nat, fuel: nat)
    requires Closed(g) && Refers(g, e) && Unfold(g, e, depth).Some?
    ensures Terminates(g, e)
    ensures Walk(g, e, {}, fuel).Some? ==> Collect(g, Walk(g, e, {}, fuel).value.trail) == Collect(g, Unfold(g, e, depth).value)
  {
    var h := LeastFuel(g, e, depth);
    MarksSaveWork(g, e, {}, [], h);
    CollectIsExtend(g, Unfold(g, e, depth).value);
    if Walk(g, e, {}, fuel).Some? {
      var common := fuel + h;
      MoreFuel(g, e, {}, fuel, common);
      MoreFuel(g, e, {}, h, common);
      CollectIsExtend(g, Walk(g, e, {}, fuel).value.trail);
    }
  }
}
