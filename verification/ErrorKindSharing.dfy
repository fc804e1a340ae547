/** When sharing changes what KindOf finds (errx/inspect.go): the exact condition on errors whose
    unwrap tree is finite. */
module ErrorKindSharing {
  import opened Wrappers
  import opened ErrorGraph
  import opened ErrorKinds
  import opened ErrorKindSearch
  import opened ErrorSharing

  // ----- the asks of the search -----

  /** One call of kindOf on an error that is not nil: whether its pointer was marked before, and what
      the call answered. */
  datatype Ask = Ask(error: Id, again: bool, answer: Option<Kind>)

  function Answer(v: Option<Verdict>): Option<Kind> {
    if v.Some? then v.value.kind else None
  }

  /** All calls that kindOf makes from here, in order. */
  function AsksOf(g: Graph, e: Option<Id>, seen: set<Id>, fuel: nat): seq<Ask>
    requires Closed(g) && Refers(g, e)
    decreases fuel, 0
  {
    if IsNil(g, e) then []
    else if Skipped(g, e, seen) then [Ask(e.value, true, None)]
    else if fuel == 0 then []
    else
      var n, marked := e.value, Mark(g, e.value, seen);
      [Ask(n, false, Answer(KindAt(g, e, seen, fuel)))] +
      if Effective(g[n]).Some? then []
      else match g[n].shape
        case Joined(list) => assert Children(g[n]) == list; AsksInJoin(g, list, marked, fuel - 1, None)
        case Wrapped(inner) => assert Children(g[n])[0] == inner; AsksOf(g, inner, marked, fuel - 1)
        case Plain => []
  }

  function AsksInJoin(g: Graph, list: seq<Option<Id>>, seen: set<Id>, fuel: nat, kind: Option<Kind>): seq<Ask>
    requires Closed(g) && forall i :: 0 <= i < |list| ==> Refers(g, list[i])
    decreases fuel, |list| + 1
  {
    if list == [] then []
    else
      var first := KindAt(g, list[0], seen, fuel);
      AsksOf(g, list[0], seen, fuel) +
      if first.None? then []
      else if first.value.kind.None? then AsksInJoin(g, list[1..], first.value.seen, fuel, kind)
      else if kind.None? then AsksInJoin(g, list[1..], first.value.seen, fuel, first.value.kind)
      else if first.value.kind != kind then []
      else AsksInJoin(g, list[1..], first.value.seen, fuel, kind)
  }

  // ----- on a finite tree the bounds do not matter -----

  lemma {:induction false} PlainKindSettled(g: Graph, e: Option<Id>, fuel: nat, more: nat)
    requires Closed(g) && Refers(g, e) && Unfold(g, e, fuel).Some? && fuel <= more
    ensures PlainKind(g, e, more) == PlainKind(g, e, fuel)
    decreases fuel, 0
  {
    hide TheOnly;
    if IsNil(g, e) {
    } else {
      PlainKindsSettled(g, Children(g[e.value]), fuel - 1, more - 1);
    }
  }

  lemma {:induction false} PlainKindsSettled(g: Graph, list: seq<Option<Id>>, fuel: nat, more: nat)
    requires Closed(g) && (forall i :: 0 <= i < |list| ==> Refers(g, list[i])) && UnfoldAll(g, list, fuel).Some? && fuel <= more
    ensures PlainKinds(g, list, more) == PlainKinds(g, list, fuel)
    decreases fuel, |list| + 1
  {
    if list == [] {
    } else {
      PlainKindSettled(g, list[0], fuel, more);
      PlainKindsSettled(g, list[1..], fuel, more);
    }
  }

  // ----- the exact condition -----

  /** No call meets a marked pointer whose plain kind is a classification. */
  ghost predicate NoKindMetAgain(g: Graph, asks: seq<Ask>, depth: nat)
    requires Closed(g)
  {
    forall i :: 0 <= i < |asks| && asks[i].error in g && asks[i].again ==> PlainKind(g, Some(asks[i].error), depth).None?
  }

  /** Every call answers with the plain kind of its error. */
  ghost predicate AnswersPlain(g: Graph, asks: seq<Ask>, depth: nat)
    requires Closed(g)
  {
    forall i :: 0 <= i < |asks| ==> asks[i].error in g && asks[i].answer == PlainKind(g, Some(asks[i].error), depth)
  }

  lemma AsksAppend(g: Graph, a: seq<Ask>, b: seq<Ask>, depth: nat)
    requires Closed(g)
    ensures NoKindMetAgain(g, a + b, depth) ==> NoKindMetAgain(g, a, depth) && NoKindMetAgain(g, b, depth)
    ensures AnswersPlain(g, a, depth) && AnswersPlain(g, b, depth) ==> AnswersPlain(g, a + b, depth)
  {
    if NoKindMetAgain(g, a + b, depth) {
      assert forall i :: 0 <= i < |a| ==> a[i] == (a + b)[i];
      assert forall i :: 0 <= i < |b| ==> b[i] == (a + b)[|a| + i];
    }
  }

  lemma OneAsk(g: Graph, a: Ask, depth: nat)
    requires Closed(g) && a.error in g
    ensures AnswersPlain(g, [a], depth) <==> a.answer == PlainKind(g, Some(a.error), depth)
    ensures NoKindMetAgain(g, [a], depth) <==> (a.again ==> PlainKind(g, Some(a.error), depth).None?)
  {
    assert [a][0] == a;
  }

  lemma {:induction false} QuietIsPlain(g: Graph, e: Option<Id>, seen: set<Id>, fuel: nat, depth: nat)
    requires Closed(g) && Refers(g, e) && Unfold(g, e, fuel).Some? && fuel <= depth
    requires NoKindMetAgain(g, AsksOf(g, e, seen, fuel), depth)
    ensures KindAt(g, e, seen, fuel).Some? && KindAt(g, e, seen, fuel).value.kind == PlainKind(g, e, fuel)
    ensures AnswersPlain(g, AsksOf(g, e, seen, fuel), depth)
    decreases fuel, 0
  {
    hide TheOnly, AnswersPlain, NoKindMetAgain;
    PlainKindSettled(g, e, fuel, depth);
    if IsNil(g, e) {
      NoAsks(g, depth);
    } else if Skipped(g, e, seen) {
      OneAsk(g, Ask(e.value, true, None), depth);
    } else {
      var n, marked := e.value, Mark(g, e.value, seen);
      var list := Children(g[n]);
      var own := [Ask(n, false, Answer(KindAt(g, e, seen, fuel)))];
      var asks := AsksOf(g, e, seen, fuel);
      if Effective(g[n]).None? {
        AsksAppend(g, own, asks[1..], depth);
        assert asks == own + asks[1..];
        match g[n].shape
        case Joined(_) =>
          assert asks[1..] == AsksInJoin(g, list, marked, fuel - 1, None);
          JoinIsPlain(g, list, marked, fuel - 1, depth, None);
          assert Agreed(None) + PlainKinds(g, list, fuel - 1) == PlainKinds(g, list, fuel - 1);
        case Wrapped(inner) =>
          assert list == [inner] && list[1..] == [];
          assert asks[1..] == AsksOf(g, inner, marked, fuel - 1);
          var k := PlainKind(g, inner, fuel - 1);
          assert PlainKinds(g, list, fuel - 1) == Agreed(k);
          OneKind(if k.Some? then k.value else UNKNOWN);
          UnfoldOne(g, inner, fuel - 1);
          QuietIsPlain(g, inner, marked, fuel - 1, depth);
        case Plain =>
          assert asks[1..] == [];
          NoAsks(g, depth);
          OneKind(UNKNOWN);
          assert PlainKinds(g, list, fuel - 1) == {};
      } else {
        assert asks == own + [] == own;
      }
      OneAsk(g, own[0], depth);
    }
  }

  lemma NoAsks(g: Graph, depth: nat)
    requires Closed(g)
    ensures AnswersPlain(g, [], depth) && NoKindMetAgain(g, [], depth)
  {
  }

  lemma {:induction false} JoinIsPlain(g: Graph, list: seq<Option<Id>>, seen: set<Id>, fuel: nat, depth: nat, kind: Option<Kind>)
    requires Closed(g) && (forall i :: 0 <= i < |list| ==> Refers(g, list[i])) && UnfoldAll(g, list, fuel).Some? && fuel <= depth
    requires NoKindMetAgain(g, AsksInJoin(g, list, seen, fuel, kind), depth)
    ensures var v := KindOfJoined(g, list, seen, fuel, kind);
            v.Some? && v.value.kind == TheOnly(Agreed(kind) + PlainKinds(g, list, fuel))
    ensures AnswersPlain(g, AsksInJoin(g, list, seen, fuel, kind), depth)
    decreases fuel, |list| + 1
  {
    hide TheOnly, AnswersPlain, NoKindMetAgain, AsksOf, KindAt;
    OneKind(if kind.Some? then kind.value else UNKNOWN);
    NoAsks(g, depth);
    if list == [] {
      assert PlainKinds(g, list, fuel) == {};
      assert Agreed(kind) + {} == Agreed(kind);
    } else {
      var a, asks := AsksOf(g, list[0], seen, fuel), AsksInJoin(g, list, seen, fuel, kind);
      assert asks == a + asks[|a|..];
      AsksAppend(g, a, asks[|a|..], depth);
      QuietIsPlain(g, list[0], seen, fuel, depth);
      var first := KindAt(g, list[0], seen, fuel).value;
      var next := if first.kind.Some? && kind.None? then first.kind else kind;
      if first.kind.Some? && kind.Some? && first.kind != kind {
        assert asks[|a|..] == [];
        TwoKinds(Agreed(kind) + PlainKinds(g, list, fuel), kind.value, first.kind.value);
      } else {
        assert asks[|a|..] == AsksInJoin(g, list[1..], first.seen, fuel, next);
        JoinIsPlain(g, list[1..], first.seen, fuel, depth, next);
        assert Agreed(kind) + PlainKinds(g, list, fuel) == Agreed(next) + PlainKinds(g, list[1..], fuel);
      }
    }
  }

  /** A call on a marked pointer finds nothing. */
  lemma {:induction false} AgainFindsNothing(g: Graph, e: Option<Id>, seen: set<Id>, fuel: nat)
    requires Closed(g) && Refers(g, e)
    ensures forall i :: 0 <= i < |AsksOf(g, e, seen, fuel)| ==>
              var a := AsksOf(g, e, seen, fuel)[i];
              a.error in g && (a.again ==> g[a.error].pointer && a.answer.None?)
    decreases fuel, 0
  {
    if !IsNil(g, e) && !Skipped(g, e, seen) && fuel > 0 && Effective(g[e.value]).None? {
      var n, marked := e.value, Mark(g, e.value, seen);
      match g[n].shape
      case Joined(list) =>
        assert Children(g[n]) == list;
        AgainInJoin(g, list, marked, fuel - 1, None);
      case Wrapped(inner) =>
        assert Children(g[n])[0] == inner;
        AgainFindsNothing(g, inner, marked, fuel - 1);
      case Plain =>
    }
  }

  lemma {:induction false} AgainInJoin(g: Graph, list: seq<Option<Id>>, seen: set<Id>, fuel: nat, kind: Option<Kind>)
    requires Closed(g) && forall i :: 0 <= i < |list| ==> Refers(g, list[i])
    ensures forall i :: 0 <= i < |AsksInJoin(g, list, seen, fuel, kind)| ==>
              var a := AsksInJoin(g, list, seen, fuel, kind)[i];
              a.error in g && (a.again ==> g[a.error].pointer && a.answer.None?)
    decreases fuel, |list| + 1
  {
    if list == [] {
    } else {
      AgainFindsNothing(g, list[0], seen, fuel);
      var first := KindAt(g, list[0], seen, fuel);
      if first.Some? {
        AgainInJoin(g, list[1..], first.value.seen, fuel, kind);
        AgainInJoin(g, list[1..], first.value.seen, fuel, first.value.kind);
      }
    }
  }

  /** On every error with a finite unwrap tree: the search answers each of its calls with the plain
      kind exactly when it never meets a marked pointer whose plain kind is a classification. Then
      KindOf itself is the plain definition. Sharing of errors that are unclassified is harmless. */
  lemma SharingMattersExactly(g: Graph, e: Option<Id>, depth: nat)
    requires Closed(g) && Refers(g, e) && Unfold(g, e, depth).Some?
    ensures AnswersPlain(g, AsksOf(g, e, {}, depth), depth) <==> NoKindMetAgain(g, AsksOf(g, e, {}, depth), depth)
    ensures NoKindMetAgain(g, AsksOf(g, e, {}, depth), depth) ==>
            KindAt(g, e, {}, depth).Some? && KindAt(g, e, {}, depth).value.kind == PlainKind(g, e, depth)
  {
    AgainFindsNothing(g, e, {}, depth);
    if NoKindMetAgain(g, AsksOf(g, e, {}, depth), depth) {
      QuietIsPlain(g, e, {}, depth, depth);
    }
  }

  // ----- a condition on the unwrap tree alone -----

  predicate Twice(tree: seq<Id>, n: Id) {
    exists i, j :: 0 <= i < j < |tree| && tree[i] == n && tree[j] == n
  }

  /** An error met again was marked at the start or stands twice in the tree. */
  ghost predicate MetAgainIn(tree: seq<Id>, seen: set<Id>, asks: seq<Ask>) {
    forall k :: 0 <= k < |asks| && asks[k].again ==>
      asks[k].error in tree && (asks[k].error in seen || Twice(tree, asks[k].error))
  }

  lemma MetAgainJoins(a: seq<Id>, b: seq<Id>, seen: set<Id>, after: set<Id>, x: seq<Ask>, y: seq<Ask>)
    requires MetAgainIn(a, seen, x) && MetAgainIn(b, after, y) && forall n :: n in after ==> n in seen || n in a
    ensures MetAgainIn(a + b, seen, x + y)
  {
    var tree := a + b;
    forall k | 0 <= k < |x + y| && (x + y)[k].again
      ensures (x + y)[k].error in tree && ((x + y)[k].error in seen || Twice(tree, (x + y)[k].error))
    {
      var n := (x + y)[k].error;
      if k < |x| {
        assert x[k].error in a;
        if n !in seen {
          var i, j :| 0 <= i < j < |a| && a[i] == n && a[j] == n;
          assert tree[i] == n && tree[j] == n;
        }
      } else {
        assert y[k - |x|].error in b;
        if n in after {
          if n !in seen {
            var i :| 0 <= i < |a| && a[i] == n;
            var j :| 0 <= j < |b| && b[j] == n;
            assert tree[i] == n && tree[|a| + j] == n;
          }
        } else {
          var i, j :| 0 <= i < j < |b| && b[i] == n && b[j] == n;
          assert tree[|a| + i] == n && tree[|a| + j] == n;
        }
      }
    }
  }

  lemma {:induction false} AsksInTree(g: Graph, e: Option<Id>, seen: set<Id>, fuel: nat)
    requires Closed(g) && Refers(g, e) && Unfold(g, e, fuel).Some?
    ensures KindAt(g, e, seen, fuel).Some?
    ensures MetAgainIn(Unfold(g, e, fuel).value, seen, AsksOf(g, e, seen, fuel))
    ensures forall n :: n in KindAt(g, e, seen, fuel).value.seen ==> n in seen || n in Unfold(g, e, fuel).value
    decreases fuel, 0
  {
    hide MetAgainIn;
    NothingAgain([], seen);
    if IsNil(g, e) {
    } else if Skipped(g, e, seen) {
      SkippedAgain(Unfold(g, e, fuel).value, seen, e.value);
    } else {
      var n, marked := e.value, Mark(g, e.value, seen);
      var list := Children(g[n]);
      var own := [Ask(n, false, Answer(KindAt(g, e, seen, fuel)))];
      var asks, below := AsksOf(g, e, seen, fuel), UnfoldAll(g, list, fuel - 1).value;
      FirstAsk(n, seen, own[0].answer);
      if Effective(g[n]).Some? {
        NothingAgain(below, marked);
        assert asks == own + [];
        MetAgainJoins([n], below, seen, marked, own, []);
      } else {
        match g[n].shape
        case Joined(_) =>
          AsksInTrees(g, list, marked, fuel - 1, None);
          MetAgainJoins([n], below, seen, marked, own, AsksInJoin(g, list, marked, fuel - 1, None));
        case Wrapped(inner) =>
          assert list == [inner] && list[1..] == [];
          UnfoldOne(g, inner, fuel - 1);
          AsksInTree(g, inner, marked, fuel - 1);
          MetAgainJoins([n], below, seen, marked, own, AsksOf(g, inner, marked, fuel - 1));
        case Plain =>
          NothingAgain(below, marked);
          assert asks == own + [];
          MetAgainJoins([n], below, seen, marked, own, []);
      }
    }
  }

  lemma NothingAgain(tree: seq<Id>, seen: set<Id>)
    ensures MetAgainIn(tree, seen, [])
  {
  }

  lemma FirstAsk(n: Id, seen: set<Id>, answer: Option<Kind>)
    ensures MetAgainIn([n], seen, [Ask(n, false, answer)])
  {
  }

  lemma SkippedAgain(tree: seq<Id>, seen: set<Id>, n: Id)
    requires tree != [] && tree[0] == n && n in seen
    ensures MetAgainIn(tree, seen, [Ask(n, true, None)])
  {
  }

  lemma {:induction false} AsksInTrees(g: Graph, list: seq<Option<Id>>, seen: set<Id>, fuel: nat, kind: Option<Kind>)
    requires Closed(g) && (forall i :: 0 <= i < |list| ==> Refers(g, list[i])) && UnfoldAll(g, list, fuel).Some?
    ensures KindOfJoined(g, list, seen, fuel, kind).Some?
    ensures MetAgainIn(UnfoldAll(g, list, fuel).value, seen, AsksInJoin(g, list, seen, fuel, kind))
    ensures forall n :: n in KindOfJoined(g, list, seen, fuel, kind).value.seen ==> n in seen || n in UnfoldAll(g, list, fuel).value
    decreases fuel, |list| + 1
  {
    hide MetAgainIn, AsksOf, KindAt;
    NothingAgain([], seen);
    if list == [] {
    } else {
      AsksInTree(g, list[0], seen, fuel);
      var a, b := Unfold(g, list[0], fuel).value, UnfoldAll(g, list[1..], fuel).value;
      var first := KindAt(g, list[0], seen, fuel).value;
      var x, asks := AsksOf(g, list[0], seen, fuel), AsksInJoin(g, list, seen, fuel, kind);
      var next := if first.kind.Some? && kind.None? then first.kind else kind;
      if first.kind.Some? && kind.Some? && first.kind != kind {
        NothingAgain(b, first.seen);
        assert asks == x + [];
        MetAgainJoins(a, b, seen, first.seen, x, []);
      } else {
        AsksInTrees(g, list[1..], first.seen, fuel, next);
        MetAgainJoins(a, b, seen, first.seen, x, AsksInJoin(g, list[1..], first.seen, fuel, next));
      }
    }
  }

  /** KindOf is the plain definition on every finite unwrap tree in which no pointer with a classified
      plain kind stands twice, whatever else is shared. */
  lemma UnclassifiedSharingIsHarmless(g: Graph, e: Option<Id>, depth: nat)
    requires Closed(g) && Refers(g, e) && Unfold(g, e, depth).Some?
    requires forall n :: n in g && g[n].pointer && PlainKind(g, Some(n), depth).Some? ==> !Twice(Unfold(g, e, depth).value, n)
    ensures KindAt(g, e, {}, depth).Some? && KindAt(g, e, {}, depth).value.kind == PlainKind(g, e, depth)
  {
    AsksInTree(g, e, {}, depth);
    AgainFindsNothing(g, e, {}, depth);
    SharingMattersExactly(g, e, depth);
  }

  // ----- instances -----

  /** The example of a shared error that changes the result breaks the condition. */
  lemma ConditionIsNeeded(k1: Kind, k2: Kind)
    requires UNKNOWN < k1 <= INTERNAL && UNKNOWN < k2 <= INTERNAL && k1 != k2
    ensures var g: Graph := map[
              0 := Node(true, false, None, Joined([Some(1), Some(2)])),
              1 := Node(true, false, None, Joined([Some(2), Some(3)])),
              2 := Node(true, false, Some(k1), Plain),
              3 := Node(true, false, Some(k2), Plain)];
            && Closed(g) && Unfold(g, Some(0), 3).Some?
            && !NoKindMetAgain(g, AsksOf(g, Some(0), {}, 3), 3)
            && KindAt(g, Some(0), {}, 3).Some? && KindAt(g, Some(0), {}, 3).value.kind != PlainKind(g, Some(0), 3)
  {
    var g: Graph := map[
      0 := Node(true, false, None, Joined([Some(1), Some(2)])),
      1 := Node(true, false, None, Joined([Some(2), Some(3)])),
      2 := Node(true, false, Some(k1), Plain),
      3 := Node(true, false, Some(k2), Plain)];
    SharingMatters(k1, k2);
    var outer, inner: seq<Option<Id>> := [Some(1), Some(2)], [Some(2), Some(3)];
    assert outer[1..] == [Some(2)] && inner[1..] == [Some(3)];
    assert Unfold(g, Some(2), 1).Some? && Unfold(g, Some(3), 1).Some?;
    assert UnfoldAll(g, inner, 1).Some?;
    assert Unfold(g, Some(1), 2).Some? && Unfold(g, Some(2), 2).Some?;
    assert UnfoldAll(g, outer, 2).Some?;
    hide NoKindMetAgain, AnswersPlain, TheOnly;
    SharingMattersExactly(g, Some(0), 3);
  }

  /** A classified error joined with itself: its second call answers nothing, so the condition fails
      inside the search, yet the result at the root is still the plain one. */
  lemma RootMayAgree(k: Kind)
    requires UNKNOWN < k <= INTERNAL
    ensures var g: Graph := map[
              0 := Node(true, false, None, Joined([Some(1), Some(1)])),
              1 := Node(true, false, Some(k), Plain)];
            && Closed(g) && !NoKindMetAgain(g, AsksOf(g, Some(0), {}, 2), 2)
            && KindAt(g, Some(0), {}, 2).Some? && KindAt(g, Some(0), {}, 2).value.kind == PlainKind(g, Some(0), 2) == Some(k)
  {
    var g: Graph := map[
      0 := Node(true, false, None, Joined([Some(1), Some(1)])),
      1 := Node(true, false, Some(k), Plain)];
    var list: seq<Option<Id>> := [Some(1), Some(1)];
    assert list[1..] == [Some(1)];
    assert PlainKind(g, Some(1), 1) == PlainKind(g, Some(1), 2) == Some(k);
    hide TheOnly;
    assert PlainKinds(g, list, 1) == {k};
    OneKind(k);
    var asks := AsksOf(g, Some(0), {}, 2);
    assert AsksInJoin(g, list, {0}, 1, None) == [Ask(1, false, Some(k)), Ask(1, true, None)];
    assert asks[2] == Ask(1, true, None);
  }

  // ----- with one kind sharing never matters -----

  ghost predicate OneKindTree(g: Graph, tree: seq<Id>, k: Kind) {
    forall n :: n in tree && n in g && Effective(g[n]).Some? ==> Effective(g[n]) == Some(k)
  }

  lemma OneKindSplits(g: Graph, a: seq<Id>, b: seq<Id>, k: Kind)
    ensures OneKindTree(g, a + b, k) <==> OneKindTree(g, a, k) && OneKindTree(g, b, k)
  {
    assert forall n :: n in a + b <==> n in a || n in b;
  }

  lemma {:induction false} PlainIsThatKind(g: Graph, e: Option<Id>, fuel: nat, k: Kind)
    requires Closed(g) && Refers(g, e) && Unfold(g, e, fuel).Some? && OneKindTree(g, Unfold(g, e, fuel).value, k)
    ensures PlainKind(g, e, fuel) in {None, Some(k)}
    decreases fuel, 0
  {
    if !IsNil(g, e) {
      var list := Children(g[e.value]);
      var below := UnfoldAll(g, list, fuel - 1).value;
      OneKindSplits(g, [e.value], below, k);
      assert e.value in [e.value];
      PlainAreThatKind(g, list, fuel - 1, k);
      OnlyOne(PlainKinds(g, list, fuel - 1), k);
    }
  }

  lemma OnlyOne(kinds: set<Kind>, k: Kind)
    requires kinds <= {k}
    ensures TheOnly(kinds) == if kinds == {} then None else Some(k)
  {
    OneKind(k);
    assert kinds == {} || kinds == {k};
  }

  lemma {:induction false} PlainAreThatKind(g: Graph, list: seq<Option<Id>>, fuel: nat, k: Kind)
    requires Closed(g) && (forall i :: 0 <= i < |list| ==> Refers(g, list[i])) && UnfoldAll(g, list, fuel).Some?
    requires OneKindTree(g, UnfoldAll(g, list, fuel).value, k)
    ensures PlainKinds(g, list, fuel) <= {k}
    decreases fuel, |list| + 1
  {
    if list == [] {
    } else {
      OneKindSplits(g, Unfold(g, list[0], fuel).value, UnfoldAll(g, list[1..], fuel).value, k);
      PlainIsThatKind(g, list[0], fuel, k);
      PlainAreThatKind(g, list[1..], fuel, k);
    }
  }

  ghost predicate AllPlainNone(g: Graph, tree: seq<Id>, depth: nat)
    requires Closed(g)
  {
    forall n :: n in tree && n in g ==> PlainKind(g, Some(n), depth).None?
  }

  /** With one kind an unclassified tree has no classified error in it. */
  lemma {:induction false} NoneBelow(g: Graph, e: Option<Id>, fuel: nat, k: Kind, depth: nat)
    requires Closed(g) && Refers(g, e) && Unfold(g, e, fuel).Some? && OneKindTree(g, Unfold(g, e, fuel).value, k) && fuel <= depth
    requires PlainKind(g, e, fuel).None?
    ensures AllPlainNone(g, Unfold(g, e, fuel).value, depth)
    decreases fuel, 0
  {
    hide TheOnly;
    if !IsNil(g, e) {
      PlainKindSettled(g, e, fuel, depth);
      var list := Children(g[e.value]);
      var below := UnfoldAll(g, list, fuel - 1).value;
      OneKindSplits(g, [e.value], below, k);
      PlainAreThatKind(g, list, fuel - 1, k);
      OnlyOne(PlainKinds(g, list, fuel - 1), k);
      NoneBelowAll(g, list, fuel - 1, k, depth);
    }
  }

  lemma {:induction false} NoneBelowAll(g: Graph, list: seq<Option<Id>>, fuel: nat, k: Kind, depth: nat)
    requires Closed(g) && (forall i :: 0 <= i < |list| ==> Refers(g, list[i])) && UnfoldAll(g, list, fuel).Some? && fuel <= depth
    requires OneKindTree(g, UnfoldAll(g, list, fuel).value, k) && PlainKinds(g, list, fuel) == {}
    ensures AllPlainNone(g, UnfoldAll(g, list, fuel).value, depth)
    decreases fuel, |list| + 1
  {
    if list == [] {
    } else {
      OneKindSplits(g, Unfold(g, list[0], fuel).value, UnfoldAll(g, list[1..], fuel).value, k);
      assert PlainKind(g, list[0], fuel).None?;
      NoneBelow(g, list[0], fuel, k, depth);
      NoneBelowAll(g, list[1..], fuel, k, depth);
    }
  }

  /** Every marked error whose tree has height h or less is unclassified. */
  ghost predicate MarkedNone(g: Graph, seen: set<Id>, h: nat, depth: nat)
    requires Closed(g)
  {
    forall m :: m in seen && m in g && Unfold(g, Some(m), h).Some? ==> PlainKind(g, Some(m), depth).None?
  }

  lemma MarkedNoneBelow(g: Graph, seen: set<Id>, h: nat, low: nat, depth: nat)
    requires Closed(g) && MarkedNone(g, seen, h, depth) && low <= h
    ensures MarkedNone(g, seen, low, depth)
  {
    forall m | m in seen && m in g && Unfold(g, Some(m), low).Some?
      ensures PlainKind(g, Some(m), depth).None?
    {
      MoreFuelUnfold(g, Some(m), low, h);
    }
  }

  lemma MarkedNoneAfter(g: Graph, tree: seq<Id>, seen: set<Id>, after: set<Id>, h: nat, depth: nat)
    requires Closed(g) && MarkedNone(g, seen, h, depth) && AllPlainNone(g, tree, depth)
    requires forall m :: m in after ==> m in seen || m in tree
    ensures MarkedNone(g, after, h, depth)
  {
  }

  lemma {:induction false} OneKindSearch(g: Graph, e: Option<Id>, seen: set<Id>, h: nat, k: Kind, depth: nat)
    requires Closed(g) && Refers(g, e) && Unfold(g, e, h).Some? && (h == 0 || Unfold(g, e, h - 1).None?) && h <= depth
    requires OneKindTree(g, Unfold(g, e, h).value, k) && MarkedNone(g, seen, h, depth)
    ensures KindAt(g, e, seen, h).Some? && KindAt(g, e, seen, h).value.kind == PlainKind(g, e, h)
    decreases h, 0
  {
    hide TheOnly, AllPlainNone;
    AsksInTree(g, e, seen, h);
    if IsNil(g, e) {
    } else if Skipped(g, e, seen) {
      PlainKindSettled(g, e, h, depth);
    } else {
      var n, list := e.value, Children(g[e.value]);
      var marked := Mark(g, n, seen);
      OneKindSplits(g, [n], UnfoldAll(g, list, h - 1).value, k);
      MarkedNoneBelow(g, seen, h, h - 1, depth);
      assert MarkedNone(g, marked, h - 1, depth);
      PlainAreThatKind(g, list, h - 1, k);
      OnlyOne(PlainKinds(g, list, h - 1), k);
      if Effective(g[n]).None? {
        match g[n].shape
        case Joined(_) => OneKindJoined(g, list, marked, h - 1, k, depth, None);
        case Wrapped(inner) =>
          assert list == [inner] && list[1..] == [];
          UnfoldOne(g, inner, h - 1);
          OneKindSearchAt(g, inner, marked, h - 1, k, depth);
          PlainIsThatKind(g, inner, h - 1, k);
          assert PlainKinds(g, list, h - 1) == Agreed(PlainKind(g, inner, h - 1));
        case Plain => assert PlainKinds(g, list, h - 1) == {};
      }
    }
  }

  /** The same with any sufficient bound. */
  lemma {:induction false} OneKindSearchAt(g: Graph, e: Option<Id>, seen: set<Id>, fuel: nat, k: Kind, depth: nat)
    requires Closed(g) && Refers(g, e) && Unfold(g, e, fuel).Some? && fuel <= depth
    requires OneKindTree(g, Unfold(g, e, fuel).value, k) && MarkedNone(g, seen, fuel, depth)
    ensures KindAt(g, e, seen, fuel).Some? && KindAt(g, e, seen, fuel).value.kind == PlainKind(g, e, fuel)
    decreases fuel, 1
  {
    var h := LeastFuel(g, e, fuel);
    MarkedNoneBelow(g, seen, fuel, h, depth);
    OneKindSearch(g, e, seen, h, k, depth);
    MoreFuelKind(g, e, seen, h, fuel);
    PlainKindSettled(g, e, h, fuel);
  }

  lemma {:induction false} OneKindJoined(g: Graph, list: seq<Option<Id>>, seen: set<Id>, fuel: nat, k: Kind, depth: nat,
          kind: Option<Kind>)
    requires Closed(g) && (forall i :: 0 <= i < |list| ==> Refers(g, list[i])) && UnfoldAll(g, list, fuel).Some? && fuel <= depth
    requires OneKindTree(g, UnfoldAll(g, list, fuel).value, k) && kind in {None, Some(k)}
    requires kind.None? ==> MarkedNone(g, seen, fuel, depth)
    ensures KindOfJoined(g, list, seen, fuel, kind).Some?
    ensures KindOfJoined(g, list, seen, fuel, kind).value.kind == if kind.Some? || PlainKinds(g, list, fuel) != {} then Some(k) else None
    decreases fuel, |list| + 1
  {
    hide TheOnly, MarkedNone, AllPlainNone;
    if list == [] {
      assert PlainKinds(g, list, fuel) == {};
    } else {
      var tree, rest := Unfold(g, list[0], fuel).value, list[1..];
      OneKindSplits(g, tree, UnfoldAll(g, rest, fuel).value, k);
      AsksInTree(g, list[0], seen, fuel);
      var first := KindAt(g, list[0], seen, fuel).value;
      AnswerIsThatKind(g, list[0], seen, fuel, k);
      if kind.Some? {
        OneKindJoined(g, rest, first.seen, fuel, k, depth, kind);
      } else {
        OneKindSearchAt(g, list[0], seen, fuel, k, depth);
        PlainIsThatKind(g, list[0], fuel, k);
        if first.kind.None? {
          NoneBelow(g, list[0], fuel, k, depth);
          MarkedNoneAfter(g, tree, seen, first.seen, fuel, depth);
          assert PlainKinds(g, list, fuel) == PlainKinds(g, rest, fuel);
        } else {
          assert k in PlainKinds(g, list, fuel);
        }
        OneKindJoined(g, rest, first.seen, fuel, k, depth, first.kind);
      }
    }
  }

  /** Whatever is marked, the search answers nothing or that kind. */
  lemma {:induction false} AnswerIsThatKind(g: Graph, e: Option<Id>, seen: set<Id>, fuel: nat, k: Kind)
    requires Closed(g) && Refers(g, e) && Unfold(g, e, fuel).Some? && OneKindTree(g, Unfold(g, e, fuel).value, k)
    ensures KindAt(g, e, seen, fuel).Some? && KindAt(g, e, seen, fuel).value.kind in {None, Some(k)}
    decreases fuel, 0
  {
    AsksInTree(g, e, seen, fuel);
    if !Skipped(g, e, seen) {
      var n, list := e.value, Children(g[e.value]);
      OneKindSplits(g, [n], UnfoldAll(g, list, fuel - 1).value, k);
      assert n in [n];
      if Effective(g[n]).None? {
        match g[n].shape
        case Joined(_) => JoinedAnswerIsThatKind(g, list, Mark(g, n, seen), fuel - 1, k, None);
        case Wrapped(inner) =>
          assert list == [inner];
          UnfoldOne(g, inner, fuel - 1);
          AnswerIsThatKind(g, inner, Mark(g, n, seen), fuel - 1, k);
        case Plain =>
      }
    }
  }

  lemma {:induction false} JoinedAnswerIsThatKind(g: Graph, list: seq<Option<Id>>, seen: set<Id>, fuel: nat, k: Kind, kind: Option<Kind>)
    requires Closed(g) && (forall i :: 0 <= i < |list| ==> Refers(g, list[i])) && UnfoldAll(g, list, fuel).Some?
    requires OneKindTree(g, UnfoldAll(g, list, fuel).value, k) && kind in {None, Some(k)}
    ensures KindOfJoined(g, list, seen, fuel, kind).Some? && KindOfJoined(g, list, seen, fuel, kind).value.kind in {None, Some(k)}
    decreases fuel, |list| + 1
  {
    if list == [] {
    } else {
      OneKindSplits(g, Unfold(g, list[0], fuel).value, UnfoldAll(g, list[1..], fuel).value, k);
      AnswerIsThatKind(g, list[0], seen, fuel, k);
      var first := KindAt(g, list[0], seen, fuel).value;
      JoinedAnswerIsThatKind(g, list[1..], first.seen, fuel, k, kind);
      JoinedAnswerIsThatKind(g, list[1..], first.seen, fuel, k, first.kind);
    }
  }

  /** On a finite tree in which all classified errors have one kind, KindOf is the plain definition
      however much is shared: to change a result sharing needs two kinds. */
  lemma OneKindIsPlain(g: Graph, e: Option<Id>, depth: nat, k: Kind)
    requires Closed(g) && Refers(g, e) && Unfold(g, e, depth).Some? && OneKindTree(g, Unfold(g, e, depth).value, k)
    ensures KindAt(g, e, {}, depth).Some? && KindAt(g, e, {}, depth).value.kind == PlainKind(g, e, depth)
  {
    OneKindSearchAt(g, e, {}, depth, k, depth);
  }
}
