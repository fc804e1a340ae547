/** Keys of a configuration schema and the namespace check (config/registry.go). */
module ConfigRegistry {
  import opened Wrappers
  import opened DottedKeys

  // ----- byte order -----

  /** The order of Go strings. UTF-8 keeps the order of characters, so characters stand for bytes. */
  predicate Less(a: string, b: string) {
    if b == "" then false
    else if a == "" then true
    else a[0] < b[0] || (a[0] == b[0] && Less(a[1..], b[1..]))
  }

  lemma {:induction false} LessTotal(a: string, b: string)
    ensures Less(a, b) || a == b || Less(b, a)
    ensures !(Less(a, b) && (Less(b, a) || a == b))
  {
    if a != "" && b != "" {
      LessTotal(a[1..], b[1..]);
      assert a == [a[0]] + a[1..] && b == [b[0]] + b[1..];
    }
  }

  lemma {:induction false} LessTransitive(a: string, b: string, c: string)
    requires Less(a, b) && Less(b, c)
    ensures Less(a, c)
  {
    if a == "" {
    } else {
      if a[0] == b[0] == c[0] {
        LessTransitive(a[1..], b[1..], c[1..]);
      }
    }
  }

  /** Everything between a key and an extension of it extends the key as well. */
  lemma {:induction false} BetweenExtends(p: string, s: string, q: string)
    requires p <= q && Less(p, s) && (s == q || Less(s, q))
    ensures p < s && |p| < |q| && s[|p|] <= q[|p|]
  {
    if p == "" {
    } else {
      assert p[0] == q[0] && p[1..] <= q[1..];
      assert s[0] == p[0];
      BetweenExtends(p[1..], s[1..], q[1..]);
      assert p == [p[0]] + p[1..] && s == [s[0]] + s[1..];
      assert s[1..][|p| - 1] == s[|p|] && q[1..][|p| - 1] == q[|p|];
    }
  }

  lemma {:induction false} PrefixIsLess(p: string, q: string)
    requires p < q
    ensures Less(p, q)
  {
    if p == "" {
    } else {
      assert p[0] == q[0] && p[1..] < q[1..];
      PrefixIsLess(p[1..], q[1..]);
    }
  }

  // ----- the namespace check on sorted keys -----

  predicate Sorted(keys: seq<string>) {
    forall i, j :: 0 <= i < j < |keys| ==> Less(keys[i], keys[j])
  }

  /** What the loop after the sort looks for. */
  predicate AdjacentClash(keys: seq<string>) {
    exists i :: 1 <= i < |keys| && NamespaceOf(keys[i - 1], keys[i])
  }

  /** One key is used both as a scalar and as a namespace. */
  predicate Clashes(keys: seq<string>, p: string) {
    p in keys && exists q :: q in keys && NamespaceOf(p, q)
  }

  /** Some key extends p with a byte that sorts before the dot, as "a-b" extends "a". */
  predicate Shadowed(keys: seq<string>, p: string) {
    exists k :: k in keys && p < k && k[|p|] < '.'
  }

  lemma SortedIndex(keys: seq<string>, i: nat, j: nat)
    requires Sorted(keys) && i < |keys| && j < |keys| && Less(keys[i], keys[j])
    ensures i < j
  {
    LessTotal(keys[i], keys[j]);
  }

  lemma AdjacentIsClash(keys: seq<string>, i: nat)
    requires Sorted(keys) && 1 <= i < |keys| && NamespaceOf(keys[i - 1], keys[i])
    ensures Clashes(keys, keys[i - 1]) && !Shadowed(keys, keys[i - 1])
  {
    var p, q := keys[i - 1], keys[i];
    assert p in keys && q in keys;
    assert q[|p|] == '.';
    forall k | k in keys && p < k
      ensures k[|p|] >= '.'
    {
      var j :| 0 <= j < |keys| && keys[j] == k;
      PrefixIsLess(p, k);
      SortedIndex(keys, i - 1, j);
      assert k == q || Less(q, k);
      BetweenExtends(p, q, k);
    }
  }

  lemma ClashIsAdjacent(keys: seq<string>, p: string)
    requires Sorted(keys) && Clashes(keys, p) && !Shadowed(keys, p)
    ensures AdjacentClash(keys)
  {
    var q :| q in keys && NamespaceOf(p, q);
    var i :| 0 <= i < |keys| && keys[i] == p;
    var j :| 0 <= j < |keys| && keys[j] == q;
    PrefixIsLess(p, q);
    SortedIndex(keys, i, j);
    var s := keys[i + 1];
    assert s in keys && Less(p, s) && (s == q || Less(s, q));
    BetweenExtends(p, s, q);
    assert q[|p|] == (p + ".")[|p|] == '.';
    assert s[|p|] == '.';
    assert s[..|p| + 1] == p + ".";
    assert NamespaceOf(keys[i + 1 - 1], keys[i + 1]);
  }

  /** The loop over neighbours finds a clash exactly when there is one that no other key shadows. */
  lemma AdjacentTestIsExact(keys: seq<string>)
    requires Sorted(keys)
    ensures AdjacentClash(keys) <==> exists p :: Clashes(keys, p) && !Shadowed(keys, p)
  {
    if AdjacentClash(keys) {
      var i :| 1 <= i < |keys| && NamespaceOf(keys[i - 1], keys[i]);
      AdjacentIsClash(keys, i);
    }
    if exists p :: Clashes(keys, p) && !Shadowed(keys, p) {
      var p :| Clashes(keys, p) && !Shadowed(keys, p);
      ClashIsAdjacent(keys, p);
    }
  }

  predicate FromDotUp(s: string) {
    forall i :: 0 <= i < |s| ==> s[i] >= '.'
  }

  /** When no key holds a byte below the dot, comparing neighbours is comparing all pairs. */
  lemma AdjacentTestSuffices(keys: seq<string>)
    requires Sorted(keys) && forall k :: k in keys ==> FromDotUp(k)
    ensures AdjacentClash(keys) <==> exists p :: Clashes(keys, p)
  {
    AdjacentTestIsExact(keys);
    forall p
      ensures !Shadowed(keys, p)
    {
    }
  }

  /** A cfg tag may hold such a byte, and then a clash can go unnoticed. */
  lemma MissedClash()
    ensures var keys := ["a", "a-b", "a.c"];
            Sorted(keys) && Clashes(keys, "a") && !AdjacentClash(keys)
  {
    var keys := ["a", "a-b", "a.c"];
    assert Less("a-b", "a.c") by {
      assert "a-b"[1..] == "-b" && "a.c"[1..] == ".c";
    }
    assert Less("a", "a-b") && Less("a", "a.c") by {
      assert "a"[1..] == "" && "a-b"[1..] == "-b" && "a.c"[1..] == ".c";
    }
    assert keys[0] == "a" && keys[1] == "a-b" && keys[2] == "a.c";
    assert "a" in keys && "a.c" in keys && NamespaceOf("a", "a.c") by {
      assert "a" + "." == "a.c"[..2];
    }
    assert ("a" + ".")[1] != "a-b"[1];
    assert ("a-b" + ".")[1] != "a.c"[1];
  }

  // ----- the walk over the schema -----

  /** A struct field: a scalar with its bindings, or a nested struct. The name is the cfg tag or,
      without one, the field's name in snake case. */
  datatype Element =
    | Scalar(name: string, env: string, flag: string)
    | Group(name: string, embedded: bool, fields: seq<Element>)

  datatype Meta = Meta(key: string, env: string, flag: string)

  predicate WellNamed(e: Element) {
    Component(e.name) && (e.Group? ==> AllWellNamed(e.fields))
  }

  predicate AllWellNamed(fields: seq<Element>) {
    forall i :: 0 <= i < |fields| ==> WellNamed(fields[i])
  }

  function Below(e: Element, prefix: Path): Path {
    if e.Group? && e.embedded then prefix else prefix + [e.name]
  }

  /** The scalars of the schema in declaration order. */
  function Leaves(fields: seq<Element>, prefix: Path): seq<Meta>
    decreases fields
  {
    if fields == [] then []
    else Leaves(fields[..|fields| - 1], prefix) + LeavesOf(fields[|fields| - 1], prefix)
  }

  function LeavesOf(e: Element, prefix: Path): seq<Meta>
    decreases e
  {
    match e
    case Scalar(_, env, flag) => [Meta(Join(Below(e, prefix)), env, flag)]
    case Group(_, _, fields) => Leaves(fields, Below(e, prefix))
  }

  function KeysOf(metas: seq<Meta>): (r: seq<string>)
    ensures |r| == |metas| && forall i :: 0 <= i < |r| ==> r[i] == metas[i].key
  {
    seq(|metas|, i requires 0 <= i < |metas| => metas[i].key)
  }

  predicate DistinctKeys(metas: seq<Meta>) {
    forall i, j :: 0 <= i < j < |metas| ==> metas[i].key != metas[j].key
  }

  class Builder {
    var fields: seq<Meta>
    var byKey: set<string>

    constructor ()
      ensures fields == [] && byKey == {}
    {
      fields, byKey := [], {};
    }

    ghost predicate Valid()
      reads this
    {
      && DistinctKeys(fields)
      && (forall i :: 0 <= i < |fields| ==> fields[i].key in byKey)
      && (forall k :: k in byKey ==> exists i :: 0 <= i < |fields| && fields[i].key == k)
    }

    /** The closure walk: it fails exactly on a name that is no component or on a repeated key. */
    method Walk(current: seq<Element>, prefix: Path) returns (ok: bool)
      requires Valid()
      modifies this
      ensures ok ==> Valid() && AllWellNamed(current) && fields == old(fields) + Leaves(current, prefix)
      ensures !ok ==> !(AllWellNamed(current) && DistinctKeys(old(fields) + Leaves(current, prefix)))
      decreases current
    {
      hide DistinctKeys, WellNamed, LeavesOf;
      var k := 0;
      ok := true;
      assert current[..0] == [];
      while k < |current|
        invariant 0 <= k <= |current|
        invariant ok && Valid() && AllWellNamed(current[..k])
        invariant fields == old(fields) + Leaves(current[..k], prefix)
      {
        LeavesStep(current, prefix, k);
        ok := Visit(current[k], prefix);
        if !ok {
          WalkStops(current, prefix, k, old(fields));
          return;
        }
        assert current[..k + 1] == current[..k] + [current[k]];
        k := k + 1;
      }
      assert current[..k] == current;
    }

    method Visit(e: Element, prefix: Path) returns (ok: bool)
      requires Valid()
      modifies this
      ensures ok ==> Valid() && WellNamed(e) && fields == old(fields) + LeavesOf(e, prefix)
      ensures !ok ==> !(WellNamed(e) && DistinctKeys(old(fields) + LeavesOf(e, prefix)))
      decreases e
    {
      if e.name == "" || '.' in e.name {
        return false;
      }
      match e
      case Group(name, embedded, nested) =>
        ok := Walk(nested, if embedded then prefix else prefix + [name]);
      case Scalar(name, env, flag) =>
        var key := Join(prefix + [name]);
        ghost var after := fields + [Meta(key, env, flag)];
        if key in byKey {
          var i :| 0 <= i < |fields| && fields[i].key == key;
          assert after[i].key == after[|fields|].key;
          return false;
        }
        byKey := byKey + {key};
        fields := fields + [Meta(key, env, flag)];
        assert fields[|fields| - 1].key == key;
        assert forall i :: 0 <= i < |fields| - 1 ==> fields[i] == old(fields)[i];
        return true;
    }
  }

  lemma LeavesStep(fields: seq<Element>, prefix: Path, k: nat)
    requires k < |fields|
    ensures Leaves(fields[..k + 1], prefix) == Leaves(fields[..k], prefix) + LeavesOf(fields[k], prefix)
  {
    assert fields[..k + 1][..k] == fields[..k];
  }

  lemma WalkStops(fields: seq<Element>, prefix: Path, k: nat, before: seq<Meta>)
    requires k < |fields|
    requires !(WellNamed(fields[k]) && DistinctKeys((before + Leaves(fields[..k], prefix)) + LeavesOf(fields[k], prefix)))
    ensures !(AllWellNamed(fields) && DistinctKeys(before + Leaves(fields, prefix)))
  {
    hide WellNamed;
    LeavesGrow(fields, prefix, k + 1);
    LeavesStep(fields, prefix, k);
    var all, some := before + Leaves(fields, prefix), before + Leaves(fields[..k + 1], prefix);
    assert some == (before + Leaves(fields[..k], prefix)) + LeavesOf(fields[k], prefix);
    DistinctPrefix(some, all);
  }

  lemma DistinctPrefix(some: seq<Meta>, all: seq<Meta>)
    requires some <= all
    ensures DistinctKeys(all) ==> DistinctKeys(some)
  {
    assert forall i :: 0 <= i < |some| ==> some[i] == all[i];
  }

  lemma {:induction false} LeavesGrow(fields: seq<Element>, prefix: Path, k: nat)
    requires k <= |fields|
    ensures Leaves(fields[..k], prefix) <= Leaves(fields, prefix)
    decreases |fields| - k
  {
    if k == |fields| {
      assert fields[..k] == fields;
    } else {
      assert fields[..k + 1][..k] == fields[..k];
      LeavesGrow(fields, prefix, k + 1);
    }
  }

  // ----- the keys of a schema -----

  predicate NamesFromDotUp(fields: seq<Element>) {
    forall i :: 0 <= i < |fields| ==> NameFromDotUp(fields[i])
  }

  predicate NameFromDotUp(e: Element) {
    FromDotUp(e.name) && (e.Group? ==> NamesFromDotUp(e.fields))
  }

  predicate PathFromDotUp(p: Path) {
    forall i :: 0 <= i < |p| ==> FromDotUp(p[i])
  }

  predicate KeyOfPath(key: string, p: Path) {
    ValidPath(p) && key == Join(p)
  }

  /** Every key is a path of components, made of the names on the way to its field. */
  lemma {:induction false} LeafKeys(fields: seq<Element>, prefix: Path, i: nat)
    requires AllWellNamed(fields) && (prefix == [] || ValidPath(prefix)) && i < |Leaves(fields, prefix)|
    ensures exists p :: KeyOfPath(Leaves(fields, prefix)[i].key, p) && (NamesFromDotUp(fields) && PathFromDotUp(prefix) ==> PathFromDotUp(p))
    decreases fields
  {
    var init, e := fields[..|fields| - 1], fields[|fields| - 1];
    var before := Leaves(init, prefix);
    if i < |before| {
      LeafKeys(init, prefix, i);
      assert Leaves(fields, prefix)[i] == before[i];
    } else {
      LeafKeysOf(e, prefix, i - |before|);
      assert Leaves(fields, prefix)[i] == LeavesOf(e, prefix)[i - |before|];
    }
  }

  lemma {:induction false} LeafKeysOf(e: Element, prefix: Path, i: nat)
    requires WellNamed(e) && (prefix == [] || ValidPath(prefix)) && i < |LeavesOf(e, prefix)|
    ensures exists p :: KeyOfPath(LeavesOf(e, prefix)[i].key, p) && (NameFromDotUp(e) && PathFromDotUp(prefix) ==> PathFromDotUp(p))
    decreases e
  {
    var p := Below(e, prefix);
    match e
    case Scalar(_, _, _) => assert KeyOfPath(LeavesOf(e, prefix)[i].key, p);
    case Group(_, _, fields) => LeafKeys(fields, p, i);
  }

  lemma {:induction false} JoinFromDotUp(p: Path)
    requires PathFromDotUp(p)
    ensures FromDotUp(Join(p))
  {
    if |p| > 1 {
      JoinFromDotUp(p[1..]);
    }
  }

  // ----- makeRegistry -----

  function InsertMeta(m: Meta, metas: seq<Meta>): (r: seq<Meta>)
    ensures multiset(r) == multiset(metas) + multiset{m}
  {
    if metas == [] || Less(m.key, metas[0].key) then [m] + metas
    else
      assert metas == [metas[0]] + metas[1..];
      [metas[0]] + InsertMeta(m, metas[1..])
  }

  /** Stands for the library's sort.Slice. */
  function SortMetas(metas: seq<Meta>): (r: seq<Meta>)
    ensures multiset(r) == multiset(metas)
  {
    if metas == [] then []
    else
      assert metas == metas[..|metas| - 1] + [metas[|metas| - 1]];
      InsertMeta(metas[|metas| - 1], SortMetas(metas[..|metas| - 1]))
  }

  predicate SortedMetas(metas: seq<Meta>) {
    forall i, j :: 0 <= i < j < |metas| ==> Less(metas[i].key, metas[j].key)
  }

  lemma {:induction false} InsertSorted(m: Meta, metas: seq<Meta>)
    requires SortedMetas(metas) && forall i :: 0 <= i < |metas| ==> metas[i].key != m.key
    ensures SortedMetas(InsertMeta(m, metas))
  {
    if metas == [] {
    } else if Less(m.key, metas[0].key) {
      forall j | 0 <= j < |metas|
        ensures Less(m.key, metas[j].key)
      {
        if j > 0 {
          LessTransitive(m.key, metas[0].key, metas[j].key);
        }
      }
    } else {
      LessTotal(m.key, metas[0].key);
      InsertSorted(m, metas[1..]);
      var rest := InsertMeta(m, metas[1..]);
      forall j | 0 <= j < |rest|
        ensures Less(metas[0].key, rest[j].key)
      {
        assert rest[j] in multiset(rest);
        assert rest[j] == m || rest[j] in metas[1..];
      }
    }
  }

  lemma {:induction false} SortSorts(metas: seq<Meta>)
    requires DistinctKeys(metas)
    ensures SortedMetas(SortMetas(metas))
  {
    if metas == [] {
    } else {
      var init, m := metas[..|metas| - 1], metas[|metas| - 1];
      SortSorts(init);
      SameMembers(SortMetas(init), init);
      forall i | 0 <= i < |SortMetas(init)|
        ensures SortMetas(init)[i].key != m.key
      {
        assert SortMetas(init)[i] in init;
      }
      InsertSorted(m, SortMetas(init));
    }
  }

  predicate DistinctBindings(metas: seq<Meta>) {
    forall i, j :: 0 <= i < j < |metas| ==>
      (metas[i].env == "" || metas[i].env != metas[j].env) && (metas[i].flag == "" || metas[i].flag != metas[j].flag)
  }

  /** The loop over the neighbours in the sorted fields. */
  method FindClash(fields: seq<Meta>) returns (clash: bool)
    ensures clash <==> AdjacentClash(KeysOf(fields))
  {
    var keys := KeysOf(fields);
    var i := 1;
    while i < |fields|
      invariant 1 <= i
      invariant forall j :: 1 <= j < i && j < |fields| ==> !NamespaceOf(keys[j - 1], keys[j])
    {
      if NamespaceOf(fields[i - 1].key, fields[i].key) {
        assert NamespaceOf(keys[i - 1], keys[i]);
        return true;
      }
      i := i + 1;
    }
    return false;
  }

  /** The two maps after the first k fields. */
  predicate Bound(fields: seq<Meta>, k: nat, envs: set<string>, flags: set<string>)
    requires k <= |fields|
  {
    && (forall i :: 0 <= i < k ==> (fields[i].env == "" || fields[i].env in envs) && (fields[i].flag == "" || fields[i].flag in flags))
    && (forall e :: e in envs ==> e != "" && exists i :: 0 <= i < k && fields[i].env == e)
    && (forall e :: e in flags ==> e != "" && exists i :: 0 <= i < k && fields[i].flag == e)
  }

  predicate Free(name: string, names: set<string>) {
    name == "" || name !in names
  }

  function With(names: set<string>, name: string): set<string> {
    if name == "" then names else names + {name}
  }

  lemma BindingTaken(fields: seq<Meta>, k: nat, envs: set<string>, flags: set<string>)
    requires k < |fields| && Bound(fields, k, envs, flags) && !(Free(fields[k].env, envs) && Free(fields[k].flag, flags))
    ensures !DistinctBindings(fields)
  {
  }

  lemma BindingFree(fields: seq<Meta>, k: nat, envs: set<string>, flags: set<string>)
    requires k < |fields| && Bound(fields, k, envs, flags) && DistinctBindings(fields[..k])
    requires Free(fields[k].env, envs) && Free(fields[k].flag, flags)
    ensures DistinctBindings(fields[..k + 1])
    ensures Bound(fields, k + 1, With(envs, fields[k].env), With(flags, fields[k].flag))
  {
    var f := fields[k];
    forall i, j | 0 <= i < j < k + 1
      ensures (fields[i].env == "" || fields[i].env != fields[j].env) && (fields[i].flag == "" || fields[i].flag != fields[j].flag)
    {
      if j < k {
        assert fields[..k][i] == fields[i] && fields[..k][j] == fields[j];
      }
    }
  }

  /** The loop that looks for environment variables and flags bound twice. */
  method CheckBindings(fields: seq<Meta>) returns (ok: bool)
    ensures ok <==> DistinctBindings(fields)
  {
    hide DistinctBindings, Bound;
    var seenEnv: set<string>, seenFlag: set<string> := {}, {};
    var k := 0;
    NothingBound(fields);
    while k < |fields|
      invariant 0 <= k <= |fields|
      invariant DistinctBindings(fields[..k]) && Bound(fields, k, seenEnv, seenFlag)
    {
      var f := fields[k];
      if f.env != "" && f.env in seenEnv {
        BindingTaken(fields, k, seenEnv, seenFlag);
        return false;
      }
      if f.flag != "" && f.flag in seenFlag {
        BindingTaken(fields, k, seenEnv, seenFlag);
        return false;
      }
      BindingFree(fields, k, seenEnv, seenFlag);
      if f.env != "" {
        seenEnv := seenEnv + {f.env};
      }
      if f.flag != "" {
        seenFlag := seenFlag + {f.flag};
      }
      k := k + 1;
    }
    assert fields[..k] == fields;
    return true;
  }

  lemma NothingBound(fields: seq<Meta>)
    ensures DistinctBindings(fields[..0]) && Bound(fields, 0, {}, {})
  {
  }

  /** What makeRegistry has checked when it succeeds, in the terms of its own tests. */
  predicate Accepted(schema: seq<Element>) {
    var sorted := SortMetas(Leaves(schema, []));
    && AllWellNamed(schema) && DistinctKeys(Leaves(schema, []))
    && !AdjacentClash(KeysOf(sorted)) && DistinctBindings(sorted)
  }

  /** makeRegistry, apart from the checks on single tags: None is an error, otherwise the fields
      sorted by key. */
  method MakeRegistry(schema: seq<Element>) returns (r: Option<seq<Meta>>)
    ensures r.Some? <==> Accepted(schema)
    ensures r.Some? ==> r.value == SortMetas(Leaves(schema, [])) && SortedMetas(r.value)
  {
    var b := new Builder();
    var ok := b.Walk(schema, []);
    assert [] + Leaves(schema, []) == Leaves(schema, []);
    if !ok {
      return None;
    }
    var fields := SortMetas(b.fields);
    var clash := FindClash(fields);
    if clash {
      return None;
    }
    ok := CheckBindings(fields);
    if !ok {
      return None;
    }
    SortSorts(b.fields);
    return Some(fields);
  }

  predicate PrefixFree(keys: seq<string>) {
    forall p, q :: p in keys && q in keys ==> !NamespaceOf(p, q)
  }

  /** A registry whose names stay at or above the dot holds keys of which none is a namespace of
      another, and each of them is a list of components joined by dots. */
  lemma RegistryKeys(schema: seq<Element>, r: seq<Meta>)
    requires AllWellNamed(schema) && DistinctKeys(Leaves(schema, [])) && r == SortMetas(Leaves(schema, [])) && !AdjacentClash(KeysOf(r))
    requires NamesFromDotUp(schema)
    ensures PrefixFree(KeysOf(r))
    ensures forall k :: k in KeysOf(r) ==> exists p :: KeyOfPath(k, p)
  {
    hide AdjacentClash, Leaves, SortMetas, NamesFromDotUp, AllWellNamed, SortedMetas, DistinctKeys, FromDotUp, Join, NamespaceOf;
    var keys := KeysOf(r);
    forall k | k in keys
      ensures FromDotUp(k) && exists p :: KeyOfPath(k, p)
    {
      RegistryKey(schema, r, k);
    }
    SortedKeys(schema, r);
    AdjacentTestSuffices(keys);
    forall p, q | p in keys && q in keys
      ensures !NamespaceOf(p, q)
    {
      assert !Clashes(keys, p);
    }
  }

  lemma SortedKeys(schema: seq<Element>, r: seq<Meta>)
    requires DistinctKeys(Leaves(schema, [])) && r == SortMetas(Leaves(schema, []))
    ensures Sorted(KeysOf(r))
  {
    SortSorts(Leaves(schema, []));
  }

  lemma RegistryKey(schema: seq<Element>, r: seq<Meta>, k: string)
    requires AllWellNamed(schema) && NamesFromDotUp(schema) && r == SortMetas(Leaves(schema, [])) && k in KeysOf(r)
    ensures FromDotUp(k) && exists p :: KeyOfPath(k, p)
  {
    assert PathFromDotUp([]);
    hide AllWellNamed, NamesFromDotUp, SortMetas, Leaves, FromDotUp, Join, PathFromDotUp;
    var metas := Leaves(schema, []);
    SameMembers(r, metas);
    var i :| 0 <= i < |r| && KeysOf(r)[i] == k;
    assert r[i] in metas;
    var j :| 0 <= j < |metas| && metas[j] == r[i];
    LeafKeys(schema, [], j);
    var p :| KeyOfPath(k, p) && PathFromDotUp(p);
    JoinFromDotUp(p);
  }

  /** No two fields share an environment variable or a flag. */
  predicate BindingsApart(metas: seq<Meta>) {
    forall m, n :: m in metas && n in metas && m.key != n.key ==>
      (m.env == "" || m.env != n.env) && (m.flag == "" || m.flag != n.flag)
  }

  lemma BindingsAreApart(metas: seq<Meta>)
    requires DistinctKeys(metas)
    ensures DistinctBindings(metas) <==> BindingsApart(metas)
  {
    if BindingsApart(metas) {
      forall i, j | 0 <= i < j < |metas|
        ensures (metas[i].env == "" || metas[i].env != metas[j].env) && (metas[i].flag == "" || metas[i].flag != metas[j].flag)
      {
        assert metas[i] in metas && metas[j] in metas;
      }
    }
  }

  lemma SortedIsDistinct(metas: seq<Meta>)
    requires Sorted(KeysOf(metas))
    ensures DistinctKeys(metas)
  {
    forall i, j | 0 <= i < j < |metas|
      ensures metas[i].key != metas[j].key
    {
      assert Less(KeysOf(metas)[i], KeysOf(metas)[j]);
      LessTotal(metas[i].key, metas[j].key);
    }
  }

  /** What a schema must satisfy, said without the sorting: with names at or above the dot a registry
      is made exactly when every name is a component, no key occurs twice, no key is a namespace of
      another, and no two fields share a binding. */
  lemma AcceptedExactly(schema: seq<Element>)
    requires NamesFromDotUp(schema)
    ensures var metas := Leaves(schema, []);
            Accepted(schema) <==> AllWellNamed(schema) && DistinctKeys(metas) && PrefixFree(KeysOf(metas)) && BindingsApart(metas)
  {
    hide NamesFromDotUp, AllWellNamed, Leaves, SortMetas, NamespaceOf, DistinctKeys, BindingsApart, DistinctBindings, AdjacentClash;
    var metas := Leaves(schema, []);
    var r := SortMetas(metas);
    if AllWellNamed(schema) && DistinctKeys(metas) {
      SortedKeys(schema, r);
      SortedIsDistinct(r);
      SameMembers(r, metas);
      SameKeys(r, metas);
      BindingsAreApart(r);
      SameBindings(r, metas);
      if !AdjacentClash(KeysOf(r)) {
        RegistryKeys(schema, r);
      }
      if PrefixFree(KeysOf(r)) {
        AdjacentTestIsExact(KeysOf(r));
      }
    }
  }

  lemma SameKeys(a: seq<Meta>, b: seq<Meta>)
    requires forall m :: m in a <==> m in b
    ensures forall k :: k in KeysOf(a) <==> k in KeysOf(b)
    ensures PrefixFree(KeysOf(a)) <==> PrefixFree(KeysOf(b))
  {
    hide NamespaceOf;
    forall k
      ensures k in KeysOf(a) <==> k in KeysOf(b)
    {
      if k in KeysOf(a) {
        var i :| 0 <= i < |a| && KeysOf(a)[i] == k;
        assert a[i] in b;
      }
      if k in KeysOf(b) {
        var i :| 0 <= i < |b| && KeysOf(b)[i] == k;
        assert b[i] in a;
      }
    }
  }

  lemma SameBindings(a: seq<Meta>, b: seq<Meta>)
    requires forall m :: m in a <==> m in b
    ensures BindingsApart(a) <==> BindingsApart(b)
  {
  }

  // ----- snake -----

  /** The Unicode tables that snake consults. */
  datatype Letters = Letters(isUpper: char -> bool, isLower: char -> bool, isDigit: char -> bool, toLower: char -> char)

  predicate NewWord(t: Letters, s: string, i: nat)
    requires i < |s|
  {
    t.isUpper(s[i]) && i > 0 && (t.isLower(s[i - 1]) || t.isDigit(s[i - 1]) || (i + 1 < |s| && t.isLower(s[i + 1])))
  }

  function SnakeUpTo(t: Letters, s: string, n: nat): string
    requires n <= |s|
  {
    if n == 0 then ""
    else SnakeUpTo(t, s, n - 1) + (if NewWord(t, s, n - 1) then "_" else "") + [t.toLower(s[n - 1])]
  }

  method Snake(t: Letters, s: string) returns (b: string)
    ensures b == SnakeUpTo(t, s, |s|)
  {
    b := "";
    var i := 0;
    while i < |s|
      invariant 0 <= i <= |s|
      invariant b == SnakeUpTo(t, s, i)
    {
      var r := s[i];
      if t.isUpper(r) && i > 0 && (t.isLower(s[i - 1]) || t.isDigit(s[i - 1]) || (i + 1 < |s| && t.isLower(s[i + 1]))) {
        b := b + "_";
      }
      b := b + [t.toLower(r)];
      i := i + 1;
    }
  }

  /** Snake case of a Go identifier is a component without bytes below the dot: letters, digits and
      underscores all sort after it. */
  lemma {:induction false} SnakeIsComponent(t: Letters, s: string, n: nat)
    requires 0 < n <= |s| && forall i :: 0 <= i < |s| ==> t.toLower(s[i]) > '.'
    ensures Component(SnakeUpTo(t, s, n)) && FromDotUp(SnakeUpTo(t, s, n))
  {
    if n > 1 {
      SnakeIsComponent(t, s, n - 1);
    }
    var last := (if NewWord(t, s, n - 1) then "_" else "") + [t.toLower(s[n - 1])];
    assert forall i :: 0 <= i < |last| ==> last[i] > '.';
    var before := SnakeUpTo(t, s, n - 1);
    assert SnakeUpTo(t, s, n) == before + last;
    assert '.' !in before && '.' !in last;
  }
}
