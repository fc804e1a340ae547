/** Rebuilding one certificate chain from loose certificates (certs/bundle.go). Which certificate
    verifies under which is an arbitrary relation, so nothing here rests on cryptography. */
module Bundles {
  import opened Wrappers
  import opened Certificates

  /** CheckSignatureFrom(parent) == nil on (child, parent). */
  type Verifies = (Certificate, Certificate) -> bool

  type Parents = map<Certificate, Certificate>
  type Children = map<Certificate, seq<Certificate>>

  /** key is the public half of the private key, None when there is no key. */
  datatype Bundle = Bundle(
    certs: seq<Certificate>,
    leaf: Option<Certificate>,
    intermediates: seq<Certificate>,
    root: Option<Certificate>,
    key: Option<nat>)

  // ----- the graph of issuers -----

  predicate Anchor(v: Verifies, c: Certificate) {
    c.subject == c.issuer && c.isCA && v(c, c)
  }

  predicate Issued(v: Verifies, child: Certificate, parent: Certificate) {
    parent != child && child.issuer == parent.subject && v(child, parent)
  }

  predicate Parent(v: Verifies, certs: seq<Certificate>, child: Certificate, parent: Certificate) {
    !Anchor(v, child) && parent in certs && Issued(v, child, parent)
  }

  /** The certificates in an order in which each has the next one, and no other, as its issuer. */
  ghost predicate IsPath(v: Verifies, certs: seq<Certificate>, path: seq<Certificate>) {
    && multiset(path) == multiset(certs)
    && (forall i, p :: 0 <= i < |path| ==>
          (Parent(v, certs, path[i], p) <==> i + 1 < |path| && p == path[i + 1]))
  }

  // ----- what normalizeBundle computes -----

  /** A Go slice of certificate pointers, None for nil. */
  function Present(certs: seq<Certificate>): (r: seq<Option<Certificate>>)
    ensures |r| == |certs| && forall i :: 0 <= i < |r| ==> r[i] == Some(certs[i])
  {
    seq(|certs|, i requires 0 <= i < |certs| => Some(certs[i]))
  }

  function Values(certs: seq<Option<Certificate>>): (r: seq<Certificate>)
    requires forall i :: 0 <= i < |certs| ==> certs[i].Some?
    ensures |r| == |certs| && forall i :: 0 <= i < |r| ==> r[i] == certs[i].value
  {
    seq(|certs|, i requires 0 <= i < |certs| => certs[i].value)
  }

  predicate Clean(certs: seq<Option<Certificate>>) {
    && (forall i :: 0 <= i < |certs| ==> certs[i].Some?)
    && (forall i, j :: 0 <= i < j < |certs| ==> certs[i].value.raw != certs[j].value.raw)
  }

  /** The first nil or repeated certificate decides the error. */
  function CheckInputs(certs: seq<Option<Certificate>>): (r: Result<()>)
    ensures r.Ok? <==> Clean(certs)
  {
    if certs == [] then Ok(())
    else
      var init, c := certs[..|certs| - 1], certs[|certs| - 1];
      assert forall i :: 0 <= i < |init| ==> init[i] == certs[i];
      assert Clean(certs) ==> Clean(init);
      var _ :- CheckInputs(init);
      if c.None? then Err(Corrupt)
      else if exists i :: 0 <= i < |init| && init[i].value.raw == c.value.raw then Err(Conflict)
      else Ok(())
  }

  ghost predicate Ambiguous(v: Verifies, certs: seq<Certificate>, c: Certificate) {
    exists p, q :: Parent(v, certs, c, p) && Parent(v, certs, c, q) && p != q
  }

  ghost function CheckLink(v: Verifies, certs: seq<Certificate>, c: Certificate): Result<()> {
    if Ambiguous(v, certs, c) then Err(Conflict)
    else if exists p :: Parent(v, certs, c, p) && !CACapable(p) then Err(Corrupt)
    else Ok(())
  }

  /** The first certificate with several issuers, or with one that is no CA, decides the error. */
  ghost function CheckLinks(v: Verifies, certs: seq<Certificate>, k: nat): Result<()>
    requires k <= |certs|
  {
    if k == 0 then Ok(())
    else
      var _ :- CheckLinks(v, certs, k - 1);
      CheckLink(v, certs, certs[k - 1])
  }

  function Assemble(v: Verifies, path: seq<Certificate>, key: Option<nat>): Bundle
    requires path != []
  {
    var top := path[|path| - 1];
    var root := if Anchor(v, top) then Some(top) else None;
    var end := if root.Some? then |path| - 1 else |path|;
    if path[0].isCA then Bundle(path, None, path[..end], root, key)
    else Bundle(path, Some(path[0]), if end > 1 then path[1..end] else [], root, key)
  }

  predicate KeyFits(b: Bundle) {
    b.key.Some? && b.leaf.Some? ==> b.key.value == b.leaf.value.publicKey
  }

  ghost function Normalized(v: Verifies, certs: seq<Option<Certificate>>, key: Option<nat>): Result<Bundle> {
    if certs == [] then Ok(Bundle([], None, [], None, key))
    else
      var _ :- CheckInputs(certs);
      var cs := Values(certs);
      var _ :- CheckLinks(v, cs, |cs|);
      if exists path :: IsPath(v, cs, path) then
        var path :| IsPath(v, cs, path);
        assert |multiset(path)| == |multiset(cs)|;
        var b := Assemble(v, path, key);
        if KeyFits(b) then Ok(b) else Err(Validation)
      else Err(Conflict)
  }

  // ----- linking -----

  function ChildrenOf(children: Children, c: Certificate): seq<Certificate> {
    if c in children then children[c] else []
  }

  /** The two maps after the first k certificates. */
  ghost predicate Linked(v: Verifies, certs: seq<Certificate>, k: nat, parents: Parents, children: Children)
    requires k <= |certs|
  {
    && (forall c, p :: c in certs[..k] ==> (Parent(v, certs, c, p) <==> c in parents && parents[c] == p))
    && (forall c :: c in parents ==> c in certs[..k])
    && (forall p, c :: c in ChildrenOf(children, p) <==> c in parents && parents[c] == p)
    && (forall p :: NoRepeats(ChildrenOf(children, p)))
  }

  /** The candidates the inner loop collects. */
  method Candidates(v: Verifies, certs: seq<Certificate>, child: Certificate) returns (matches: seq<Certificate>)
    requires DistinctRaw(certs) && !Anchor(v, child)
    ensures NoRepeats(matches) && forall p :: p in matches <==> Parent(v, certs, child, p)
  {
    matches := [];
    var k := 0;
    while k < |certs|
      invariant 0 <= k <= |certs|
      invariant NoRepeats(matches)
      invariant forall p :: p in matches <==> p in certs[..k] && Issued(v, child, p)
    {
      var candidate := certs[k];
      if candidate != child && child.issuer == candidate.subject && v(child, candidate) {
        assert candidate !in certs[..k];
        matches := matches + [candidate];
      }
      k := k + 1;
    }
    assert certs[..k] == certs;
  }

  method Link(v: Verifies, certs: seq<Certificate>) returns (r: Result<()>, parents: Parents, children: Children)
    requires DistinctRaw(certs)
    ensures r == CheckLinks(v, certs, |certs|)
    ensures r.Ok? ==> Linked(v, certs, |certs|, parents, children)
  {
    hide Linked, Issued, CACapable;
    parents, children := map[], map[];
    LinkedStart(v, certs);
    var k := 0;
    while k < |certs|
      invariant 0 <= k <= |certs|
      invariant CheckLinks(v, certs, k) == Ok(())
      invariant Linked(v, certs, k, parents, children)
    {
      var child := certs[k];
      if !Anchor(v, child) {
        var matches := Candidates(v, certs, child);
        if |matches| > 1 {
          TwoMembers(matches);
          LinksStop(v, certs, k + 1, |certs|);
          return Err(Conflict), parents, children;
        }
        if |matches| == 1 {
          var parent := matches[0];
          assert parent in matches;
          if !CACapable(parent) {
            LinksStop(v, certs, k + 1, |certs|);
            return Err(Corrupt), parents, children;
          }
          LinkedWith(v, certs, k, parents, children, parent);
          parents := parents[child := parent];
          children := children[parent := ChildrenOf(children, parent) + [child]];
        } else {
          LinkedWithout(v, certs, k, parents, children);
        }
      } else {
        LinkedWithout(v, certs, k, parents, children);
      }
      k := k + 1;
    }
    return Ok(()), parents, children;
  }

  lemma LinkedStart(v: Verifies, certs: seq<Certificate>)
    ensures Linked(v, certs, 0, map[], map[])
  {
  }

  lemma LinkedWithout(v: Verifies, certs: seq<Certificate>, k: nat, parents: Parents, children: Children)
    requires k < |certs| && DistinctRaw(certs) && Linked(v, certs, k, parents, children)
    requires forall p :: !Parent(v, certs, certs[k], p)
    ensures Linked(v, certs, k + 1, parents, children)
  {
    assert certs[k] !in certs[..k];
    assert certs[..k + 1] == certs[..k] + [certs[k]];
  }

  lemma LinkedWith(v: Verifies, certs: seq<Certificate>, k: nat, parents: Parents, children: Children, parent: Certificate)
    requires DistinctRaw(certs) && k < |certs| && Linked(v, certs, k, parents, children)
    requires forall p :: Parent(v, certs, certs[k], p) <==> p == parent
    ensures Linked(v, certs, k + 1, parents[certs[k] := parent], children[parent := ChildrenOf(children, parent) + [certs[k]]])
  {
    var child := certs[k];
    assert child !in certs[..k];
    assert certs[..k + 1] == certs[..k] + [child];
    var parents', children' := parents[child := parent], children[parent := ChildrenOf(children, parent) + [child]];
    assert child !in ChildrenOf(children, parent);
    assert forall p :: p != parent ==> ChildrenOf(children', p) == ChildrenOf(children, p);
  }

  lemma {:induction false} LinksStop(v: Verifies, certs: seq<Certificate>, k: nat, n: nat)
    requires k <= n <= |certs| && CheckLinks(v, certs, k).Err?
    ensures CheckLinks(v, certs, n) == CheckLinks(v, certs, k)
    decreases n
  {
    if k < n {
      LinksStop(v, certs, k, n - 1);
    }
  }

  // ----- the walk from the bottom -----

  predicate IsWalk(parents: Parents, walk: seq<Certificate>) {
    forall i :: 0 <= i < |walk| - 1 ==> walk[i] in parents && parents[walk[i]] == walk[i + 1]
  }

  predicate SingleChildren(parents: Parents) {
    forall c, d :: c in parents && d in parents && parents[c] == parents[d] ==> c == d
  }

  /** Without branching, a walk that starts below every issuer cannot come back to where it was:
      the cycle branch of normalizeBundle is never taken. */
  lemma NoCycle(parents: Parents, walk: seq<Certificate>, next: Certificate)
    requires SingleChildren(parents) && IsWalk(parents, walk) && NoRepeats(walk) && walk != []
    requires walk[|walk| - 1] in parents && parents[walk[|walk| - 1]] == next
    requires forall c :: c in parents ==> parents[c] != walk[0]
    ensures next !in walk
  {
    forall j | 0 <= j < |walk|
      ensures walk[j] != next
    {
      if j > 0 {
        assert parents[walk[j - 1]] == walk[j];
      }
    }
  }

  lemma {:induction false} SubsetSize(xs: seq<Certificate>, ys: seq<Certificate>)
    requires NoRepeats(xs) && NoRepeats(ys) && forall x :: x in xs ==> x in ys
    ensures |xs| <= |ys|
    ensures |xs| == |ys| ==> multiset(xs) == multiset(ys)
    decreases |xs|
  {
    if xs == [] {
    } else {
      assert xs[0] in ys;
      var k :| 0 <= k < |ys| && ys[k] == xs[0];
      var rest := ys[..k] + ys[k + 1..];
      assert ys == ys[..k] + [ys[k]] + ys[k + 1..];
      assert xs == [xs[0]] + xs[1..];
      forall x | x in xs[1..]
        ensures x in rest
      {
        assert x in xs && x != xs[0];
      }
      SubsetSize(xs[1..], rest);
    }
  }

  method Walk(parents: Parents, bottom: Certificate, ghost certs: seq<Certificate>) returns (ordered: seq<Certificate>)
    requires SingleChildren(parents) && NoRepeats(certs) && bottom in certs
    requires forall c :: c in parents ==> c in certs && parents[c] in certs && parents[c] != bottom
    ensures ordered != [] && ordered[0] == bottom && ordered[|ordered| - 1] !in parents
    ensures IsWalk(parents, ordered) && NoRepeats(ordered) && forall c :: c in ordered ==> c in certs
  {
    ordered := [];
    var seen: set<Certificate> := {};
    var c := Some(bottom);
    while c.Some?
      invariant seen == set x | x in ordered
      invariant ordered == [] ==> c == Some(bottom)
      invariant ordered != [] ==> ordered[0] == bottom
      invariant ordered != [] ==> c == ParentIn(parents, ordered[|ordered| - 1])
      invariant IsWalk(parents, ordered) && NoRepeats(ordered) && forall x :: x in ordered ==> x in certs
      decreases c.Some?, |certs| - |ordered|
    {
      if ordered != [] {
        NoCycle(parents, ordered, c.value);
      }
      if c.value in seen {
        // "certificate cycle"
        assert false;
      }
      seen := seen + {c.value};
      ordered := ordered + [c.value];
      SubsetSize(ordered, certs);
      c := ParentIn(parents, c.value);
    }
  }

  function ParentIn(parents: Parents, c: Certificate): Option<Certificate> {
    if c in parents then Some(parents[c]) else None
  }

  /** If the certificates form a path, every walk from its bottom to its top is that path. */
  lemma {:induction false} WalkIsPath(v: Verifies, certs: seq<Certificate>, path: seq<Certificate>,
          parents: Parents, walk: seq<Certificate>, k: nat)
    requires IsPath(v, certs, path) && path != []
    requires forall c, p :: c in certs ==> (Parent(v, certs, c, p) <==> c in parents && parents[c] == p)
    requires walk != [] && walk[0] == path[0] && IsWalk(parents, walk) && k < |walk|
    ensures k < |path| && walk[k] == path[k]
  {
    if k == 0 {
    } else {
      WalkIsPath(v, certs, path, parents, walk, k - 1);
      assert path[k - 1] in multiset(path);
      assert Parent(v, certs, path[k - 1], walk[k]);
    }
  }

  // ----- normalizeBundle -----

  /** Nobody in a path has its first certificate as issuer. */
  lemma NobodyAbove(v: Verifies, certs: seq<Certificate>, path: seq<Certificate>, c: Certificate)
    requires IsPath(v, certs, path) && DistinctRaw(certs) && c in certs
    ensures path != [] && !Parent(v, certs, c, path[0])
  {
    SameMembers(path, certs);
    PermutationNoRepeats(certs, path);
    var j :| 0 <= j < |path| && path[j] == c;
    assert !Parent(v, certs, path[j], path[0]);
  }

  /** In a path nobody branches, and only its first certificate is nobody's issuer. */
  lemma PathShape(v: Verifies, certs: seq<Certificate>, path: seq<Certificate>, parents: Parents, children: Children)
    requires IsPath(v, certs, path) && Linked(v, certs, |certs|, parents, children) && certs != [] && DistinctRaw(certs)
    ensures forall p :: |ChildrenOf(children, p)| <= 1
    ensures path != [] && forall c :: c in certs ==> (ChildrenOf(children, c) == [] <==> c == path[0])
  {
    SameMembers(path, certs);
    PermutationNoRepeats(certs, path);
    assert certs[..|certs|] == certs;
    forall c, d | c in parents && d in parents && parents[c] == parents[d]
      ensures c == d
    {
      var i :| 0 <= i < |path| && path[i] == c;
      var j :| 0 <= j < |path| && path[j] == d;
      assert Parent(v, certs, path[i], parents[c]) && Parent(v, certs, path[j], parents[c]);
    }
    forall p
      ensures |ChildrenOf(children, p)| <= 1
    {
      var below := ChildrenOf(children, p);
      forall x, y | x in below && y in below
        ensures x == y
      {
        assert parents[x] == p && parents[y] == p;
      }
      TwoMembers(below);
    }
    forall c | c in certs
      ensures ChildrenOf(children, c) == [] <==> c == path[0]
    {
      var i :| 0 <= i < |path| && path[i] == c;
      if i > 0 {
        assert Parent(v, certs, path[i - 1], c);
        assert path[i - 1] in ChildrenOf(children, c);
      } else {
        forall d | d in certs
          ensures d !in ChildrenOf(children, c)
        {
          NobodyAbove(v, certs, path, d);
        }
        assert forall k :: 0 <= k < |ChildrenOf(children, c)| ==> ChildrenOf(children, c)[k] in ChildrenOf(children, c);
      }
    }
  }

  /** A walk over all certificates is a path. */
  lemma FullWalkIsPath(v: Verifies, certs: seq<Certificate>, parents: Parents, children: Children, walk: seq<Certificate>)
    requires DistinctRaw(certs) && Linked(v, certs, |certs|, parents, children)
    requires walk != [] && walk[|walk| - 1] !in parents && IsWalk(parents, walk) && NoRepeats(walk)
    requires (forall c :: c in walk ==> c in certs) && |walk| == |certs|
    ensures IsPath(v, certs, walk)
  {
    SubsetSize(walk, certs);
    assert certs[..|certs|] == certs;
    forall i, p | 0 <= i < |walk|
      ensures Parent(v, certs, walk[i], p) <==> i + 1 < |walk| && p == walk[i + 1]
    {
      assert walk[i] in certs;
      if i + 1 < |walk| {
        assert parents[walk[i]] == walk[i + 1];
      }
    }
  }

  /** There is at most one path. */
  lemma {:induction false} PathUnique(v: Verifies, certs: seq<Certificate>, a: seq<Certificate>, b: seq<Certificate>)
    requires DistinctRaw(certs) && IsPath(v, certs, a) && IsPath(v, certs, b)
    ensures a == b
  {
    SameMembers(a, certs);
    SameMembers(b, certs);
    forall i | 0 <= i < |a|
      ensures a[i] == b[i]
    {
      SameStep(v, certs, a, b, i);
    }
  }

  lemma {:induction false} SameStep(v: Verifies, certs: seq<Certificate>, a: seq<Certificate>, b: seq<Certificate>, i: nat)
    requires DistinctRaw(certs) && IsPath(v, certs, a) && IsPath(v, certs, b)
    requires |a| == |b| == |certs| && i < |a| && (forall c :: c in a <==> c in certs) && (forall c :: c in b <==> c in certs)
    ensures a[i] == b[i]
  {
    if i > 0 {
      SameStep(v, certs, a, b, i - 1);
      assert Parent(v, certs, a[i - 1], a[i]) && Parent(v, certs, b[i - 1], b[i]);
    } else {
      assert a[0] in b;
      var j :| 0 <= j < |b| && b[j] == a[0];
      if j > 0 {
        NobodyAbove(v, certs, a, b[j - 1]);
      }
    }
  }

  lemma NoPathWhenBranching(v: Verifies, certs: seq<Certificate>, parents: Parents, children: Children, p: Certificate)
    requires DistinctRaw(certs) && certs != [] && Linked(v, certs, |certs|, parents, children) && |ChildrenOf(children, p)| > 1
    ensures forall path :: !IsPath(v, certs, path)
  {
    forall path
      ensures !IsPath(v, certs, path)
    {
      if IsPath(v, certs, path) {
        PathShape(v, certs, path, parents, children);
      }
    }
  }

  lemma OneBottom(v: Verifies, certs: seq<Certificate>, path: seq<Certificate>, parents: Parents,
          children: Children, bottoms: seq<Certificate>)
    requires DistinctRaw(certs) && certs != [] && Linked(v, certs, |certs|, parents, children) && IsPath(v, certs, path)
    requires NoRepeats(bottoms) && forall c :: c in bottoms <==> c in certs && ChildrenOf(children, c) == []
    ensures |bottoms| == 1
  {
    PathShape(v, certs, path, parents, children);
    SameMembers(path, certs);
    assert path[0] in bottoms;
    TwoMembers(bottoms);
  }

  lemma NoPathUnlessOneBottom(v: Verifies, certs: seq<Certificate>, parents: Parents, children: Children,
          bottoms: seq<Certificate>)
    requires DistinctRaw(certs) && certs != [] && Linked(v, certs, |certs|, parents, children)
    requires NoRepeats(bottoms) && |bottoms| != 1 && forall c :: c in bottoms <==> c in certs && ChildrenOf(children, c) == []
    ensures forall path :: !IsPath(v, certs, path)
  {
    forall path
      ensures !IsPath(v, certs, path)
    {
      if IsPath(v, certs, path) {
        OneBottom(v, certs, path, parents, children, bottoms);
      }
    }
  }

  lemma NextIsParent(v: Verifies, certs: seq<Certificate>, path: seq<Certificate>, i: nat)
    requires IsPath(v, certs, path) && i + 1 < |path|
    ensures Parent(v, certs, path[i], path[i + 1])
  {
  }

  lemma WholeWalk(v: Verifies, certs: seq<Certificate>, path: seq<Certificate>, parents: Parents,
          children: Children, walk: seq<Certificate>)
    requires DistinctRaw(certs) && certs != [] && Linked(v, certs, |certs|, parents, children) && IsPath(v, certs, path)
    requires walk != [] && walk[0] in certs && ChildrenOf(children, walk[0]) == []
    requires IsWalk(parents, walk) && walk[|walk| - 1] !in parents
    ensures |walk| == |certs|
  {
    PathShape(v, certs, path, parents, children);
    SameMembers(path, certs);
    assert certs[..|certs|] == certs;
    WalkIsPath(v, certs, path, parents, walk, |walk| - 1);
    assert path[|walk| - 1] in certs;
    if |walk| < |path| {
      NextIsParent(v, certs, path, |walk| - 1);
    }
  }

  lemma NoPathUnlessFullWalk(v: Verifies, certs: seq<Certificate>, parents: Parents, children: Children,
          walk: seq<Certificate>)
    requires DistinctRaw(certs) && certs != [] && Linked(v, certs, |certs|, parents, children)
    requires walk != [] && walk[0] in certs && ChildrenOf(children, walk[0]) == []
    requires IsWalk(parents, walk) && walk[|walk| - 1] !in parents && |walk| != |certs|
    ensures forall path :: !IsPath(v, certs, path)
  {
    forall path
      ensures !IsPath(v, certs, path)
    {
      if IsPath(v, certs, path) {
        WholeWalk(v, certs, path, parents, children, walk);
      }
    }
  }

  // ----- normalizeBundle -----

  method CheckAll(certs: seq<Option<Certificate>>) returns (r: Result<()>)
    ensures r == CheckInputs(certs)
  {
    var byRaw: set<nat> := {};
    var k := 0;
    while k < |certs|
      invariant 0 <= k <= |certs|
      invariant Clean(certs[..k])
      invariant byRaw == set i | 0 <= i < k :: certs[i].value.raw
    {
      ghost var prefix := certs[..k + 1];
      assert prefix[..k] == certs[..k] && prefix[k] == certs[k];
      if certs[k].None? {
        InputsStop(certs, k + 1);
        return Err(Corrupt);
      }
      assert certs[k].value.raw in byRaw <==> exists i :: 0 <= i < k && certs[..k][i].value.raw == certs[k].value.raw;
      if certs[k].value.raw in byRaw {
        InputsStop(certs, k + 1);
        return Err(Conflict);
      }
      byRaw := byRaw + {certs[k].value.raw};
      k := k + 1;
    }
    assert certs[..k] == certs;
    return Ok(());
  }

  lemma {:induction false} InputsStop(certs: seq<Option<Certificate>>, k: nat)
    requires k <= |certs| && CheckInputs(certs[..k]).Err?
    ensures CheckInputs(certs) == CheckInputs(certs[..k])
    decreases |certs|
  {
    if k < |certs| {
      var init := certs[..|certs| - 1];
      assert init[..k] == certs[..k];
      InputsStop(init, k);
    } else {
      assert certs[..k] == certs;
    }
  }

  /** One of the issuers has more than one child. */
  method Branches(children: Children) returns (branching: Option<Certificate>)
    ensures branching.Some? ==> |ChildrenOf(children, branching.value)| > 1
    ensures branching.None? ==> forall p :: |ChildrenOf(children, p)| <= 1
  {
    var todo := children.Keys;
    while todo != {}
      invariant todo <= children.Keys
      invariant forall p :: p in children.Keys - todo ==> |children[p]| <= 1
      decreases |todo|
    {
      ghost var some := SomeMember(todo);
      var p :| p in todo;
      todo := todo - {p};
      if |children[p]| > 1 {
        return Some(p);
      }
    }
    return None;
  }

  method Bottoms(certs: seq<Certificate>, children: Children) returns (bottoms: seq<Certificate>)
    requires DistinctRaw(certs)
    ensures NoRepeats(bottoms) && forall c :: c in bottoms <==> c in certs && ChildrenOf(children, c) == []
  {
    bottoms := [];
    var k := 0;
    while k < |certs|
      invariant 0 <= k <= |certs|
      invariant NoRepeats(bottoms)
      invariant forall c :: c in bottoms <==> c in certs[..k] && ChildrenOf(children, c) == []
    {
      if |ChildrenOf(children, certs[k])| == 0 {
        assert certs[k] !in certs[..k];
        bottoms := bottoms + [certs[k]];
      }
      k := k + 1;
    }
    assert certs[..k] == certs;
  }

  /** The only path there is, found by linking and walking, or the reason why there is none. */
  method FindPath(v: Verifies, certs: seq<Certificate>) returns (r: Result<seq<Certificate>>)
    requires DistinctRaw(certs) && certs != []
    ensures r.Ok? ==> CheckLinks(v, certs, |certs|).Ok? && IsPath(v, certs, r.value)
    ensures r.Err? && CheckLinks(v, certs, |certs|).Ok? ==> r.error == Conflict && forall path :: !IsPath(v, certs, path)
    ensures CheckLinks(v, certs, |certs|).Err? ==> r.Err? && r.error == CheckLinks(v, certs, |certs|).error
  {
    hide CheckLinks, IsPath;
    var linked, parents, children := Link(v, certs);
    if linked.Err? {
      return Err(linked.error);
    }
    var branching := Branches(children);
    if branching.Some? {
      NoPathWhenBranching(v, certs, parents, children, branching.value);
      return Err(Conflict);
    }
    var bottoms := Bottoms(certs, children);
    if |bottoms| != 1 {
      NoPathUnlessOneBottom(v, certs, parents, children, bottoms);
      return Err(Conflict);
    }
    assert bottoms[0] in bottoms;
    OneChildEach(v, certs, parents, children);
    assert certs[..|certs|] == certs;
    assert forall c :: c in parents ==> c in ChildrenOf(children, parents[c]);
    var ordered := Walk(parents, bottoms[0], certs);
    if |ordered| != |certs| {
      NoPathUnlessFullWalk(v, certs, parents, children, ordered);
      return Err(Conflict);
    }
    FullWalkIsPath(v, certs, parents, children, ordered);
    return Ok(ordered);
  }

  lemma OneChildEach(v: Verifies, certs: seq<Certificate>, parents: Parents, children: Children)
    requires Linked(v, certs, |certs|, parents, children) && forall p :: |ChildrenOf(children, p)| <= 1
    ensures SingleChildren(parents)
    ensures forall c :: c in parents ==> parents[c] in certs
  {
    assert certs[..|certs|] == certs;
    forall c, d | c in parents && d in parents && parents[c] == parents[d]
      ensures c == d
    {
      assert c in ChildrenOf(children, parents[c]) && d in ChildrenOf(children, parents[c]);
    }
    forall c | c in parents
      ensures parents[c] in certs
    {
      assert Parent(v, certs, c, parents[c]);
    }
  }

  /** normalizeBundle. Whatever order the children map is walked in, the outcome, the errors
      included, is the one Normalized describes. */
  method NormalizeBundle(v: Verifies, certs: seq<Option<Certificate>>, key: Option<nat>) returns (r: Result<Bundle>)
    ensures r == Normalized(v, certs, key)
  {
    hide CheckInputs, CheckLinks;
    if |certs| == 0 {
      return Ok(Bundle([], None, [], None, key));
    }
    var checked := CheckAll(certs);
    if checked.Err? {
      return Err(checked.error);
    }
    var cs := Values(certs);
    var found := FindPath(v, cs);
    if found.Err? {
      return Err(found.error);
    }
    var ordered := found.value;
    SameMembers(ordered, cs);
    assert forall path :: IsPath(v, cs, path) ==> path == ordered by {
      forall path | IsPath(v, cs, path)
        ensures path == ordered
      {
        PathUnique(v, cs, path, ordered);
      }
    }
    var top := ordered[|ordered| - 1];
    var root, leaf, intermediates := None, None, [];
    if top.subject == top.issuer && top.isCA && v(top, top) {
      root := Some(top);
    }
    var end := |ordered|;
    if root.Some? {
      end := end - 1;
    }
    if !ordered[0].isCA {
      leaf := Some(ordered[0]);
      if end > 1 {
        intermediates := ordered[1..end];
      }
    } else if end > 0 {
      intermediates := ordered[..end];
    }
    if key.Some? && leaf.Some? && key.value != leaf.value.publicKey {
      return Err(Validation);
    }
    return Ok(Bundle(ordered, leaf, intermediates, root, key));
  }
}
