/** Configuration documents as nested mutable maps (config/file.go, config/format.go): putNested
    builds one, flatten reads it back. A reference names a map, as a Go map value does. */
module ConfigDocument {
  import opened Wrappers
  import opened DottedKeys

  type Ref = nat

  /** A value that is not a map; its content does not matter here. */
  type Raw = nat

  /** Foreign is a map whose keys are not strings. */
  datatype Entry = Value(value: Raw) | Child(ref: Ref) | Foreign

  type Objects = map<Ref, map<string, Entry>>

  const ROOT: Ref := 0

  /** The entry reached from an entry by a list of keys. */
  function Follow(objects: Objects, e: Entry, path: Path): Option<Entry>
    decreases |path|
  {
    if path == [] then Some(e)
    else if e.Child? && e.ref in objects && path[0] in objects[e.ref] then Follow(objects, objects[e.ref][path[0]], path[1..])
    else None
  }

  function At(objects: Objects, path: Path): Option<Entry> {
    Follow(objects, Child(ROOT), path)
  }

  lemma {:induction false} FollowAppend(objects: Objects, e: Entry, p: Path, q: Path)
    ensures Follow(objects, e, p + q) ==
            (if Follow(objects, e, p).Some? then Follow(objects, Follow(objects, e, p).value, q) else None)
    decreases |p|
  {
    if p == [] {
      assert p + q == q;
    } else {
      assert (p + q)[1..] == p[1..] + q;
      if e.Child? && e.ref in objects && p[0] in objects[e.ref] {
        FollowAppend(objects, objects[e.ref][p[0]], p[1..], q);
      }
    }
  }

  /** No map is reached in two ways, and every reference is to a map that exists. */
  ghost predicate TreeShaped(objects: Objects, next: Ref) {
    && (forall r :: r in objects ==> r < next)
    && (forall p :: At(objects, p).Some? && At(objects, p).value.Child? ==> At(objects, p).value.ref in objects)
    && (forall p, q :: At(objects, p).Some? && At(objects, p).value.Child? && At(objects, p) == At(objects, q) ==> p == q)
  }

  // ----- one assignment to one map -----

  function Assign(objects: Objects, m: Ref, key: string, e: Entry): Objects
    requires m in objects
  {
    objects[m := objects[m][key := e]]
  }

  /** Paths that do not pass the assigned key are not affected. */
  lemma {:induction false} AssignElsewhere(objects: Objects, next: Ref, at: Path, m: Ref, key: string, e: Entry,
          done: Path, here: Entry, rest: Path)
    requires TreeShaped(objects, next) && m in objects && At(objects, at) == Some(Child(m))
    requires At(objects, done) == Some(here) && !(at + [key] <= done + rest)
    ensures Follow(Assign(objects, m, key, e), here, rest) == Follow(objects, here, rest)
    decreases |rest|
  {
    if rest != [] && here.Child? {
      if here.ref == m {
        assert done == at;
        assert rest[0] == key ==> at + [key] <= done + rest;
      }
      if here.ref in objects && rest[0] in objects[here.ref] {
        FollowAppend(objects, Child(ROOT), done, [rest[0]]);
        assert [rest[0]][1..] == [];
        assert done + rest == (done + [rest[0]]) + rest[1..];
        AssignElsewhere(objects, next, at, m, key, e, done + [rest[0]], objects[here.ref][rest[0]], rest[1..]);
      }
    }
  }

  /** Walking down to the map that is assigned to is not affected either. */
  lemma AssignAbove(objects: Objects, next: Ref, at: Path, m: Ref, key: string, e: Entry)
    requires TreeShaped(objects, next) && m in objects && At(objects, at) == Some(Child(m))
    ensures At(Assign(objects, m, key, e), at) == Some(Child(m))
  {
    AssignElsewhere(objects, next, at, m, key, e, [], Child(ROOT), at);
    assert [] + at == at;
  }

  /** What every path leads to after an assignment. */
  lemma AssignEverywhere(objects: Objects, next: Ref, at: Path, m: Ref, key: string, e: Entry, q: Path)
    requires TreeShaped(objects, next) && m in objects && At(objects, at) == Some(Child(m))
    ensures at + [key] <= q ==> At(Assign(objects, m, key, e), q) == Follow(Assign(objects, m, key, e), e, q[|at| + 1..])
    ensures !(at + [key] <= q) ==> At(Assign(objects, m, key, e), q) == At(objects, q)
  {
    var after := Assign(objects, m, key, e);
    if at + [key] <= q {
      AssignAbove(objects, next, at, m, key, e);
      assert q == at + q[|at|..];
      FollowAppend(after, Child(ROOT), at, q[|at|..]);
      assert q[|at|..][0] == key && q[|at|..][1..] == q[|at| + 1..];
    } else {
      assert [] + q == q;
      AssignElsewhere(objects, next, at, m, key, e, [], Child(ROOT), q);
    }
  }

  /** A new empty map changes nothing until it is referred to. */
  lemma {:induction false} NewMapElsewhere(objects: Objects, next: Ref, done: Path, here: Entry, rest: Path)
    requires TreeShaped(objects, next) && At(objects, done) == Some(here)
    ensures Follow(objects[next := map[]], here, rest) == Follow(objects, here, rest)
    decreases |rest|
  {
    if rest != [] && here.Child? {
      assert At(objects, done).value.Child?;
      if rest[0] in objects[here.ref] {
        FollowAppend(objects, Child(ROOT), done, [rest[0]]);
        assert [rest[0]][1..] == [];
        NewMapElsewhere(objects, next, done + [rest[0]], objects[here.ref][rest[0]], rest[1..]);
      }
    }
  }

  lemma NewMapIsUnseen(objects: Objects, next: Ref)
    requires TreeShaped(objects, next)
    ensures TreeShaped(objects[next := map[]], next + 1)
    ensures forall q :: At(objects[next := map[]], q) == At(objects, q)
    ensures forall q :: At(objects, q) != Some(Child(next))
  {
    var grown := objects[next := map[]];
    forall q
      ensures At(grown, q) == At(objects, q)
    {
      NewMapElsewhere(objects, next, [], Child(ROOT), q);
    }
    SameShape(objects, grown, next);
  }

  lemma SameShape(objects: Objects, grown: Objects, next: Ref)
    requires TreeShaped(objects, next) && grown == objects[next := map[]]
    requires forall q {:trigger At(grown, q)} :: At(grown, q) == At(objects, q)
    ensures TreeShaped(grown, next + 1)
  {
    hide At;
    forall p | At(grown, p).Some? && At(grown, p).value.Child?
      ensures At(grown, p).value.ref in grown
      ensures forall q :: At(grown, p) == At(grown, q) ==> p == q
    {
      assert At(objects, p).Some?;
    }
  }

  /** Beyond something that is not a map there is nothing. */
  lemma NothingBeyond(objects: Objects, p: Path, q: Path)
    requires p < q && (At(objects, p).Some? ==> !At(objects, p).value.Child?)
    ensures At(objects, q) == None
  {
    assert q == p + q[|p|..];
    FollowAppend(objects, Child(ROOT), p, q[|p|..]);
  }

  /** m[p] = map[string]any{} where m[p] was no map. */
  lemma FreshStep(objects: Objects, next: Ref, at: Path, m: Ref, key: string)
    requires TreeShaped(objects, next) && m in objects && At(objects, at) == Some(Child(m))
    requires At(objects, at + [key]).Some? ==> !At(objects, at + [key]).value.Child?
    ensures var after := Assign(objects[next := map[]], m, key, Child(next));
            && TreeShaped(after, next + 1)
            && At(after, at + [key]) == Some(Child(next))
            && forall q :: q != at + [key] ==> At(after, q) == At(objects, q)
  {
    var grown := objects[next := map[]];
    var after := Assign(grown, m, key, Child(next));
    var target := at + [key];
    NewMapIsUnseen(objects, next);
    AssignEverywhere(grown, next + 1, at, m, key, Child(next), target);
    forall q | q != target
      ensures At(after, q) == At(objects, q)
    {
      AssignEverywhere(grown, next + 1, at, m, key, Child(next), q);
      if target <= q {
        NothingBeyond(objects, target, q);
      }
    }
  }

  /** m[key] = value. */
  lemma ValueStep(objects: Objects, next: Ref, at: Path, m: Ref, key: string, v: Raw)
    requires TreeShaped(objects, next) && m in objects && At(objects, at) == Some(Child(m))
    ensures var after := Assign(objects, m, key, Value(v));
            && TreeShaped(after, next)
            && At(after, at + [key]) == Some(Value(v))
            && forall q :: q != at + [key] ==> At(after, q) == if at + [key] < q then None else At(objects, q)
  {
    var after := Assign(objects, m, key, Value(v));
    var target := at + [key];
    AssignEverywhere(objects, next, at, m, key, Value(v), target);
    forall q | q != target
      ensures At(after, q) == if target < q then None else At(objects, q)
    {
      AssignEverywhere(objects, next, at, m, key, Value(v), q);
    }
  }

  // ----- putNested -----

  ghost predicate IsMap(objects: Objects, q: Path) {
    At(objects, q).Some? && At(objects, q).value.Child?
  }

  /** The value is at the path, maps are above it, nothing is below it, all else is as before. */
  ghost predicate PutAt(before: Objects, after: Objects, path: Path, v: Raw) {
    && At(after, path) == Some(Value(v))
    && (forall q :: q < path ==> IsMap(after, q))
    && (forall q :: path < q ==> At(after, q) == None)
    && (forall q :: !(path <= q) && !(q < path) ==> At(after, q) == At(before, q))
  }

  class Document {
    var objects: Objects
    var next: Ref

    ghost predicate Valid()
      reads this
    {
      TreeShaped(objects, next) && ROOT in objects
    }

    constructor ()
      ensures Valid() && forall q :: At(objects, q) == if q == [] then Some(Child(ROOT)) else None
    {
      objects := map[ROOT := map[]];
      next := 1;
    }

    method PutNested(path: Path, value: Raw)
      requires Valid() && path != []
      modifies this
      ensures Valid() && PutAt(old(objects), objects, path, value)
    {
      hide Follow, At, TreeShaped, PutAt, Descended;
      var m := ROOT;
      var i := 0;
      DescentStarts(objects, path);
      while i < |path| - 1
        invariant 0 <= i < |path|
        invariant Valid() && m in objects && Descended(old(objects), objects, path, i, m)
      {
        var p := path[i];
        if p in objects[m] && objects[m][p].Child? {
          DescendsAlong(old(objects), objects, next, path, i, m);
          m := objects[m][p].ref;
        } else {
          DescendsFresh(old(objects), objects, next, path, i, m);
          var n := next;
          objects := Assign(objects[n := map[]], m, p, Child(n));
          next := next + 1;
          m := n;
        }
        i := i + 1;
      }
      DescentEnds(old(objects), objects, next, path, m, value);
      objects := Assign(objects, m, path[i], Value(value));
    }
  }

  /** m is the map at the first i keys of the path, and only maps on the way to it are new. */
  ghost predicate Descended(before: Objects, objects: Objects, path: Path, i: nat, m: Ref)
    requires i <= |path|
  {
    && At(objects, path[..i]) == Some(Child(m))
    && (forall q {:trigger At(objects, q)} :: q <= path[..i] ==> At(objects, q).Some? && At(objects, q).value.Child?)
    && (forall q {:trigger At(objects, q)} :: !(q <= path[..i]) ==> At(objects, q) == At(before, q))
  }

  lemma DescentStarts(objects: Objects, path: Path)
    ensures Descended(objects, objects, path, 0, ROOT)
  {
    AtRoot(objects);
  }

  lemma PrefixOfNext(path: Path, i: nat, q: Path)
    requires i < |path|
    ensures path[..i + 1] == path[..i] + [path[i]]
    ensures q <= path[..i + 1] <==> q <= path[..i] || q == path[..i + 1]
  {
  }

  lemma DescendsAlong(before: Objects, objects: Objects, next: Ref, path: Path, i: nat, m: Ref)
    requires i < |path| && TreeShaped(objects, next) && m in objects && Descended(before, objects, path, i, m)
    requires path[i] in objects[m] && objects[m][path[i]].Child?
    ensures objects[m][path[i]].ref in objects
    ensures Descended(before, objects, path, i + 1, objects[m][path[i]].ref)
  {
    hide Follow, At;
    OneStep(objects, path[..i], m, path[i]);
    PrefixOfNext(path, i, []);
    forall q
      ensures q <= path[..i + 1] ==> At(objects, q).Some? && At(objects, q).value.Child?
      ensures !(q <= path[..i + 1]) ==> At(objects, q) == At(before, q)
    {
      PrefixOfNext(path, i, q);
    }
  }

  lemma DescendsFresh(before: Objects, objects: Objects, next: Ref, path: Path, i: nat, m: Ref)
    requires i < |path| && TreeShaped(objects, next) && m in objects && Descended(before, objects, path, i, m)
    requires path[i] in objects[m] ==> !objects[m][path[i]].Child?
    ensures var after := Assign(objects[next := map[]], m, path[i], Child(next));
            TreeShaped(after, next + 1) && Descended(before, after, path, i + 1, next)
  {
    hide Follow, At;
    OneStep(objects, path[..i], m, path[i]);
    PrefixOfNext(path, i, []);
    FreshStep(objects, next, path[..i], m, path[i]);
    var after := Assign(objects[next := map[]], m, path[i], Child(next));
    forall q
      ensures q <= path[..i + 1] ==> At(after, q).Some? && At(after, q).value.Child?
      ensures !(q <= path[..i + 1]) ==> At(after, q) == At(before, q)
    {
      PrefixOfNext(path, i, q);
      if q != path[..i + 1] {
        assert At(after, q) == At(objects, q);
      }
    }
  }

  lemma DescentEnds(before: Objects, objects: Objects, next: Ref, path: Path, m: Ref, v: Raw)
    requires path != [] && TreeShaped(objects, next) && m in objects && Descended(before, objects, path, |path| - 1, m)
    ensures var after := Assign(objects, m, path[|path| - 1], Value(v));
            TreeShaped(after, next) && PutAt(before, after, path, v)
  {
    hide Follow, At;
    var i := |path| - 1;
    PrefixOfNext(path, i, []);
    assert path[..i + 1] == path;
    ValueStep(objects, next, path[..i], m, path[i], v);
    var after := Assign(objects, m, path[i], Value(v));
    forall q
      ensures q < path ==> IsMap(after, q)
      ensures !(path <= q) && !(q < path) ==> At(after, q) == At(before, q)
    {
      PrefixOfNext(path, i, q);
      if !(path <= q) {
        assert At(after, q) == At(objects, q);
      }
    }
  }

  lemma AtRoot(objects: Objects)
    ensures At(objects, []) == Some(Child(ROOT))
  {
  }

  lemma OneStep(objects: Objects, at: Path, m: Ref, key: string)
    requires m in objects && At(objects, at) == Some(Child(m))
    ensures At(objects, at + [key]) == if key in objects[m] then Some(objects[m][key]) else None
  {
    FollowAppend(objects, Child(ROOT), at, [key]);
    assert [key][1..] == [];
  }

  // ----- saving several fields -----

  datatype Field = Field(path: Path, value: Raw)

  predicate PrefixFreeFields(fields: seq<Field>) {
    forall i, j :: 0 <= i < |fields| && 0 <= j < |fields| && i != j ==> !(fields[i].path <= fields[j].path)
  }

  /** The document holds these fields and nothing else. */
  ghost predicate Holds(objects: Objects, fields: seq<Field>) {
    && (forall f :: f in fields ==> At(objects, f.path) == Some(Value(f.value)))
    && (forall q {:trigger At(objects, q)} :: At(objects, q).Some? ==>
          || (At(objects, q).value.Child? && (q == [] || exists f :: f in fields && q < f.path))
          || (exists f :: f in fields && f.path == q && At(objects, q) == Some(Value(f.value))))
  }

  lemma PutKeepsHolding(before: Objects, after: Objects, fields: seq<Field>, f: Field)
    requires Holds(before, fields) && PutAt(before, after, f.path, f.value) && f.path != []
    requires forall g :: g in fields ==> !(g.path <= f.path) && !(f.path <= g.path)
    ensures Holds(after, fields + [f])
  {
    hide At;
    var all := fields + [f];
    assert f in all && forall g :: g in fields ==> g in all;
    forall g | g in all
      ensures At(after, g.path) == Some(Value(g.value))
    {
      assert g != f ==> At(after, g.path) == At(before, g.path);
    }
    forall q | At(after, q).Some?
      ensures || (At(after, q).value.Child? && (q == [] || exists g :: g in all && q < g.path))
              || (exists g :: g in all && g.path == q && At(after, q) == Some(Value(g.value)))
    {
      if q < f.path {
        assert IsMap(after, q);
      } else if !(f.path <= q) {
        assert At(after, q) == At(before, q);
      }
    }
  }

  /** The loop of Save over the fields it keeps, whatever their order. */
  method PutAll(fields: seq<Field>) returns (d: Document)
    requires PrefixFreeFields(fields) && forall i :: 0 <= i < |fields| ==> fields[i].path != []
    ensures fresh(d) && d.Valid() && Holds(d.objects, fields)
  {
    d := new Document();
    var k := 0;
    while k < |fields|
      invariant 0 <= k <= |fields|
      invariant fresh(d) && d.Valid() && Holds(d.objects, fields[..k])
    {
      hide At, TreeShaped, Holds, PutAt;
      ghost var before := d.objects;
      d.PutNested(fields[k].path, fields[k].value);
      PutKeepsHolding(before, d.objects, fields[..k], fields[k]);
      assert fields[..k + 1] == fields[..k] + [fields[k]];
      k := k + 1;
    }
    assert fields[..k] == fields;
  }

  // ----- flatten -----

  /** The keys of the registry and their proper namespaces. */
  datatype Schema = Schema(leaves: set<string>, namespaces: set<string>)

  /** The walk takes the entry at q as a value instead of going into it. */
  predicate Stops(objects: Objects, schema: Schema, q: Path) {
    && At(objects, q).Some?
    && var e := At(objects, q).value;
       !e.Child? || Join(q) in schema.leaves || (e.ref in objects && objects[e.ref] == map[] && Join(q) !in schema.namespaces)
  }

  /** The walk that starts in the map at pre gets to q. */
  ghost predicate Visits(objects: Objects, schema: Schema, pre: Path, q: Path) {
    && pre < q && At(objects, q).Some?
    && forall r {:trigger Stops(objects, schema, r)} :: pre < r < q ==> !Stops(objects, schema, r)
  }

  ghost predicate Bad(objects: Objects, schema: Schema, pre: Path, q: Path) {
    Visits(objects, schema, pre, q) && (!Component(q[|q| - 1]) || At(objects, q) == Some(Foreign))
  }

  ghost predicate Emits(objects: Objects, schema: Schema, pre: Path, q: Path) {
    Visits(objects, schema, pre, q) && Stops(objects, schema, q)
  }

  ghost predicate Under(pre: Path, done: set<string>, q: Path) {
    pre < q && q[|pre|] in done
  }

  /** What out holds once the keys in done have been walked. */
  ghost predicate Collected(objects: Objects, schema: Schema, pre: Path, done: set<string>,
          before: map<string, Entry>, out: map<string, Entry>) {
    && (forall k :: k in out ==> k in before || exists q :: Under(pre, done, q) && Emits(objects, schema, pre, q) && Join(q) == k)
    && (forall k :: k in before ==> k in out && out[k] == before[k])
    && (forall q :: Under(pre, done, q) && Emits(objects, schema, pre, q) ==> Join(q) in out && Some(out[Join(q)]) == At(objects, q))
  }

  ghost predicate Clean(objects: Objects, schema: Schema, pre: Path, done: set<string>) {
    forall q :: Under(pre, done, q) ==> !Bad(objects, schema, pre, q)
  }

  /** Nothing below pre has been written yet. */
  ghost predicate Untouched(pre: Path, out: map<string, Entry>) {
    forall q :: pre < q && ValidPath(q) ==> Join(q) !in out
  }

  ghost predicate Deep(objects: Objects, depth: nat) {
    forall q :: At(objects, q).Some? ==> |q| <= depth
  }

  lemma NoRoom(pre: Path, c: string, r: Path)
    ensures !(pre < r < pre + [c])
  {
  }

  lemma VisitsChild(objects: Objects, schema: Schema, pre: Path, m: Ref, c: string)
    requires m in objects && At(objects, pre) == Some(Child(m)) && c in objects[m]
    ensures At(objects, pre + [c]) == Some(objects[m][c]) && Visits(objects, schema, pre, pre + [c])
  {
    OneStep(objects, pre, m, c);
    hide At, Stops;
    forall r
      ensures pre < r < pre + [c] ==> !Stops(objects, schema, r)
    {
      NoRoom(pre, c, r);
    }
  }

  /** Where the walk stops it does not go on, and where it does not stop it starts again. */
  lemma VisitsBeyond(objects: Objects, schema: Schema, pre: Path, c: string, q: Path)
    requires pre + [c] < q
    ensures Visits(objects, schema, pre, q) <==> !Stops(objects, schema, pre + [c]) && Visits(objects, schema, pre + [c], q)
  {
    hide At, Stops;
    var first := pre + [c];
    if Visits(objects, schema, pre, q) {
      assert pre < first < q;
    }
    if !Stops(objects, schema, first) && Visits(objects, schema, first, q) {
      forall r | pre < r < q
        ensures !Stops(objects, schema, r)
      {
        assert r[|pre|] == q[|pre|] == c;
        assert r == first || first < r;
      }
    }
  }

  lemma UnderOneMore(pre: Path, done: set<string>, c: string, q: Path)
    ensures Under(pre, done + {c}, q) <==> Under(pre, done, q) || pre + [c] <= q
    ensures pre + [c] <= q && c !in done ==> !Under(pre, done, q)
  {
  }

  /** Every path the walk gets to without complaint consists of components. */
  lemma {:induction false} VisitedIsValid(objects: Objects, schema: Schema, pre: Path, done: set<string>, q: Path)
    requires (pre == [] || ValidPath(pre)) && Clean(objects, schema, pre, done)
    requires Under(pre, done, q) && Visits(objects, schema, pre, q)
    ensures ValidPath(q)
    decreases |q|
  {
    var up := q[..|q| - 1];
    assert !Bad(objects, schema, pre, q);
    assert q == up + [q[|q| - 1]];
    if pre < up {
      FollowAppend(objects, Child(ROOT), up, [q[|q| - 1]]);
      hide At, Stops;
      assert Visits(objects, schema, pre, up);
      assert Under(pre, done, up);
      VisitedIsValid(objects, schema, pre, done, up);
    } else {
      assert up == pre;
    }
  }

  /** One more key at which the walk stops: its full key is new, so the duplicate error of flatten
      does not arise. */
  lemma StopStep(objects: Objects, schema: Schema, pre: Path, m: Ref, done: set<string>, c: string,
          before: map<string, Entry>, out: map<string, Entry>)
    requires m in objects && At(objects, pre) == Some(Child(m)) && c in objects[m] && c !in done
    requires (pre == [] || ValidPath(pre)) && Untouched(pre, before)
    requires Collected(objects, schema, pre, done, before, out) && Clean(objects, schema, pre, done)
    requires Component(c) && objects[m][c] != Foreign && Stops(objects, schema, pre + [c])
    ensures Join(pre + [c]) !in out
    ensures Collected(objects, schema, pre, done + {c}, before, out[Join(pre + [c]) := objects[m][c]])
    ensures Clean(objects, schema, pre, done + {c})
  {
    var first := pre + [c];
    VisitsChild(objects, schema, pre, m, c);
    NewBelow(objects, schema, pre, done, c, before, out, first);
    StopIsClean(objects, schema, pre, m, done, c);
    hide At, Stops, Visits, Join, ValidPath, Component, Clean, Collected;
    forall q
      ensures Under(pre, done + {c}, q) <==> Under(pre, done, q) || first <= q
      ensures first < q ==> !Visits(objects, schema, pre, q)
    {
      UnderOneMore(pre, done, c, q);
      if first < q {
        VisitsBeyond(objects, schema, pre, c, q);
      }
    }
    StopCollected(objects, schema, pre, done, c, before, out, objects[m][c]);
  }

  lemma StopCollected(objects: Objects, schema: Schema, pre: Path, done: set<string>, c: string,
          before: map<string, Entry>, out: map<string, Entry>, e: Entry)
    requires Collected(objects, schema, pre, done, before, out) && Join(pre + [c]) !in out
    requires Emits(objects, schema, pre, pre + [c]) && At(objects, pre + [c]) == Some(e)
    requires forall q :: Under(pre, done + {c}, q) <==> Under(pre, done, q) || pre + [c] <= q
    requires forall q :: pre + [c] < q ==> !Visits(objects, schema, pre, q)
    ensures Collected(objects, schema, pre, done + {c}, before, out[Join(pre + [c]) := e])
  {
    hide At, Stops, Visits, Join, Under;
    var first := pre + [c];
    var after := out[Join(first) := e];
    assert Under(pre, done + {c}, first);
    forall k | k in after
      ensures k in before || exists q :: Under(pre, done + {c}, q) && Emits(objects, schema, pre, q) && Join(q) == k
    {
      if k != Join(first) && k !in before {
        var q :| Under(pre, done, q) && Emits(objects, schema, pre, q) && Join(q) == k;
        assert Under(pre, done + {c}, q);
      }
    }
    forall q | Under(pre, done + {c}, q) && Emits(objects, schema, pre, q)
      ensures Join(q) in after && Some(after[Join(q)]) == At(objects, q)
    {
      if !Under(pre, done, q) {
        assert q == first;
      } else {
        assert Join(q) in out;
      }
    }
  }

  lemma StopIsClean(objects: Objects, schema: Schema, pre: Path, m: Ref, done: set<string>, c: string)
    requires m in objects && At(objects, pre) == Some(Child(m)) && c in objects[m]
    requires Clean(objects, schema, pre, done)
    requires Component(c) && objects[m][c] != Foreign && Stops(objects, schema, pre + [c])
    ensures Clean(objects, schema, pre, done + {c})
  {
    VisitsChild(objects, schema, pre, m, c);
    hide At, Stops, Visits, Component;
    forall q | Under(pre, done + {c}, q)
      ensures !Bad(objects, schema, pre, q)
    {
      UnderOneMore(pre, done, c, q);
      if pre + [c] < q {
        VisitsBeyond(objects, schema, pre, c, q);
      } else if q == pre + [c] {
        assert q[|q| - 1] == c;
      }
    }
  }

  /** Nothing written so far lies at or below a key that has not been walked. */
  lemma NewBelow(objects: Objects, schema: Schema, pre: Path, done: set<string>, c: string,
          before: map<string, Entry>, out: map<string, Entry>, q: Path)
    requires (pre == [] || ValidPath(pre)) && Untouched(pre, before) && c !in done
    requires Collected(objects, schema, pre, done, before, out) && Clean(objects, schema, pre, done)
    requires pre + [c] <= q && ValidPath(q)
    ensures Join(q) !in out
  {
    hide At, Stops, Visits, Join, Bad;
    if Join(q) in out {
      var p :| Under(pre, done, p) && Emits(objects, schema, pre, p) && Join(p) == Join(q);
      VisitedIsValid(objects, schema, pre, done, p);
      JoinInjective(p, q);
      UnderOneMore(pre, done, c, q);
    }
  }

  /** One more key at which the walk goes on: it may start, and what it brings back is right. */
  lemma EnterStep(objects: Objects, schema: Schema, pre: Path, m: Ref, done: set<string>, c: string,
          before: map<string, Entry>, out: map<string, Entry>)
    requires m in objects && At(objects, pre) == Some(Child(m)) && c in objects[m] && c !in done
    requires (pre == [] || ValidPath(pre)) && Untouched(pre, before) && Component(c)
    requires Collected(objects, schema, pre, done, before, out) && Clean(objects, schema, pre, done)
    ensures ValidPath(pre + [c]) && Untouched(pre + [c], out)
  {
    forall q | pre + [c] < q && ValidPath(q)
      ensures Join(q) !in out
    {
      NewBelow(objects, schema, pre, done, c, before, out, q);
    }
  }

  lemma ReturnStep(objects: Objects, schema: Schema, pre: Path, m: Ref, n: Ref, done: set<string>, c: string,
          before: map<string, Entry>, mid: map<string, Entry>, out: map<string, Entry>)
    requires m in objects && n in objects && At(objects, pre) == Some(Child(m)) && c in objects[m] && objects[m][c] == Child(n) && c !in done
    requires Component(c) && !Stops(objects, schema, pre + [c])
    requires Collected(objects, schema, pre, done, before, mid) && Clean(objects, schema, pre, done)
    requires Collected(objects, schema, pre + [c], objects[n].Keys, mid, out) && Clean(objects, schema, pre + [c], objects[n].Keys)
    ensures Collected(objects, schema, pre, done + {c}, before, out)
    ensures Clean(objects, schema, pre, done + {c})
  {
    var first := pre + [c];
    VisitsChild(objects, schema, pre, m, c);
    forall q | first < q && Visits(objects, schema, first, q)
      ensures Under(first, objects[n].Keys, q)
    {
      GoesThroughKey(objects, first, n, q);
    }
    hide At, Stops, Visits, Join, Component;
    forall q
      ensures Under(pre, done + {c}, q) <==> Under(pre, done, q) || q == first || first < q
    {
      UnderOneMore(pre, done, c, q);
    }
    forall q | first < q
      ensures Visits(objects, schema, pre, q) <==> Visits(objects, schema, first, q)
    {
      VisitsBeyond(objects, schema, pre, c, q);
    }
    forall q | Under(pre, done + {c}, q)
      ensures !Bad(objects, schema, pre, q)
    {
      if q == first {
        assert q[|q| - 1] == c;
      } else if first < q {
        assert Visits(objects, schema, first, q) ==> !Bad(objects, schema, first, q);
      }
    }
    ReturnCollected(objects, schema, pre, objects[n].Keys, done, c, before, mid, out);
  }

  lemma ReturnCollected(objects: Objects, schema: Schema, pre: Path, keys: set<string>, done: set<string>,
          c: string, before: map<string, Entry>, mid: map<string, Entry>, out: map<string, Entry>)
    requires !Stops(objects, schema, pre + [c])
    requires Collected(objects, schema, pre, done, before, mid) && Collected(objects, schema, pre + [c], keys, mid, out)
    requires forall q :: Under(pre, done + {c}, q) <==> Under(pre, done, q) || q == pre + [c] || pre + [c] < q
    requires forall q :: pre + [c] < q ==> (Visits(objects, schema, pre, q) <==> Visits(objects, schema, pre + [c], q))
    requires forall q :: pre + [c] < q && Visits(objects, schema, pre + [c], q) ==> Under(pre + [c], keys, q)
    ensures Collected(objects, schema, pre, done + {c}, before, out)
  {
    hide At, Stops, Visits, Join, Under;
    var first := pre + [c];
    forall k | k in out
      ensures k in before || exists q :: Under(pre, done + {c}, q) && Emits(objects, schema, pre, q) && Join(q) == k
    {
      if k !in mid {
        var q :| Under(first, keys, q) && Emits(objects, schema, first, q) && Join(q) == k;
        UnderIsBelow(first, keys, q);
        assert Visits(objects, schema, pre, q);
      }
    }
    forall q | Under(pre, done + {c}, q) && Emits(objects, schema, pre, q)
      ensures Join(q) in out && Some(out[Join(q)]) == At(objects, q)
    {
      if !Under(pre, done, q) {
        assert q != first;
        assert Emits(objects, schema, first, q);
      } else {
        assert Join(q) in mid;
      }
    }
  }

  lemma UnderIsBelow(pre: Path, done: set<string>, q: Path)
    ensures Under(pre, done, q) ==> pre < q
  {
  }

  lemma GoesThroughKey(objects: Objects, pre: Path, n: Ref, q: Path)
    requires n in objects && At(objects, pre) == Some(Child(n)) && pre < q && At(objects, q).Some?
    ensures q[|pre|] in objects[n]
  {
    var rest := q[|pre|..];
    assert q == pre + rest;
    FollowAppend(objects, Child(ROOT), pre, rest);
    assert rest[0] == q[|pre|];
  }

  /** flatten, for the map m at the path pre; prefix is the joined path. It fails exactly when the
      walk meets a key that is no component or a map with foreign keys, never on a duplicate, and
      otherwise adds one entry per path at which it stops. */
  method Flatten(objects: Objects, schema: Schema, prefix: string, m: Ref, before: map<string, Entry>,
          ghost pre: Path, ghost depth: nat)
    returns (ok: bool, out: map<string, Entry>)
    requires m in objects && At(objects, pre) == Some(Child(m)) && Deep(objects, depth)
    requires forall q :: IsMap(objects, q) ==> At(objects, q).value.ref in objects
    requires (pre == [] || ValidPath(pre)) && prefix == Join(pre) && Untouched(pre, before)
    ensures ok <==> Clean(objects, schema, pre, objects[m].Keys)
    ensures ok ==> Collected(objects, schema, pre, objects[m].Keys, before, out)
    decreases if |pre| <= depth then depth - |pre| + 1 else 0
  {
    hide At, Stops, Visits, Join, ValidPath, Follow, Untouched, Collected, Clean;
    out := before;
    var todo := objects[m].Keys;
    NothingWalked(objects, schema, pre, before);
    assert |pre| <= depth;
    assert objects[m].Keys - todo == {};
    while todo != {}
      invariant todo <= objects[m].Keys
      invariant Collected(objects, schema, pre, objects[m].Keys - todo, before, out) && Clean(objects, schema, pre, objects[m].Keys - todo)
      decreases |todo|
    {
      ghost var done := objects[m].Keys - todo;
      ghost var some := SomeMember(todo);
      var key :| key in todo;
      todo := todo - {key};
      assert objects[m].Keys - todo == done + {key};
      VisitsChild(objects, schema, pre, m, key);
      if key == "" || '.' in key {
        BadKey(objects, schema, pre, m, key);
        return false, out;
      }
      var fullKey := if prefix != "" then prefix + "." + key else key;
      FullKey(pre, key);
      var value := objects[m][key];
      match value
      case Child(n) =>
        IsMapAt(objects, pre + [key], n);
        StopsAtMap(objects, schema, pre + [key], n);
        if fullKey in schema.leaves || (objects[n] == map[] && fullKey !in schema.namespaces) {
          StopStep(objects, schema, pre, m, done, key, before, out);
          if fullKey in out {
            // "duplicate key"
            assert false;
          }
          out := out[fullKey := value];
        } else {
          EnterStep(objects, schema, pre, m, done, key, before, out);
          ghost var mid := out;
          ok, out := Flatten(objects, schema, fullKey, n, out, pre + [key], depth);
          if !ok {
            BadBelow(objects, schema, pre, m, key, n);
            return;
          }
          ReturnStep(objects, schema, pre, m, n, done, key, before, mid, out);
        }
      case Foreign =>
        ForeignIsBad(objects, schema, pre, m, key);
        return false, out;
      case Value(_) =>
        StopsAtValue(objects, schema, pre + [key]);
        StopStep(objects, schema, pre, m, done, key, before, out);
        if fullKey in out {
          // "duplicate key"
          assert false;
        }
        out := out[fullKey := value];
    }
    assert objects[m].Keys - todo == objects[m].Keys;
    ok := true;
  }

  /** What flatten keeps, from the root: an entry at a path of which no part is a registry key before
      its end, and which is no map, or a map at a registry key, or an empty map that is no namespace of
      the registry. In particular an empty object under an unknown key is kept. */
  lemma KeptExactly(objects: Objects, schema: Schema, q: Path)
    requires forall r :: IsMap(objects, r) ==> At(objects, r).value.ref in objects
    ensures Emits(objects, schema, [], q) <==>
            && q != [] && At(objects, q).Some?
            && (forall n {:trigger q[..n]} :: 0 < n < |q| ==> Join(q[..n]) !in schema.leaves)
            && (At(objects, q).value.Child? ==>
                  || Join(q) in schema.leaves
                  || (At(objects, q).value.ref in objects && objects[At(objects, q).value.ref] == map[] && Join(q) !in schema.namespaces))
  {
    hide Join;
    if q != [] && At(objects, q).Some? {
      assert At(objects, q).value.Child? ==> IsMap(objects, q);
      forall r | [] < r < q
        ensures Stops(objects, schema, r) <==> Join(r) in schema.leaves
      {
        MapAbove(objects, r, q);
        BelowIsNotEmpty(objects, r, q);
      }
      forall n | 0 < n < |q|
        ensures [] < q[..n] < q
      {
      }
      forall r | [] < r < q
        ensures r == q[..|r|] && 0 < |r| < |q|
      {
      }
      hide At, Stops;
    }
  }

  /** Whatever is above an entry is a map. */
  lemma MapAbove(objects: Objects, r: Path, q: Path)
    requires r < q && At(objects, q).Some?
    ensures IsMap(objects, r)
  {
    var rest := q[|r|..];
    assert q == r + rest;
    FollowAppend(objects, Child(ROOT), r, rest);
  }

  lemma NothingWalked(objects: Objects, schema: Schema, pre: Path, before: map<string, Entry>)
    ensures Collected(objects, schema, pre, {}, before, before) && Clean(objects, schema, pre, {})
  {
  }

  lemma FullKey(pre: Path, key: string)
    requires (pre == [] || ValidPath(pre)) && Component(key)
    ensures ValidPath(pre + [key])
    ensures Join(pre + [key]) == if Join(pre) != "" then Join(pre) + "." + key else key
  {
    if pre != [] {
      JoinAppend(pre, [key]);
      assert pre[0] != "";
    } else {
      assert pre + [key] == [key];
    }
  }

  lemma IsMapAt(objects: Objects, q: Path, n: Ref)
    requires At(objects, q) == Some(Child(n))
    ensures IsMap(objects, q)
  {
  }

  lemma StopsAtMap(objects: Objects, schema: Schema, q: Path, n: Ref)
    requires At(objects, q) == Some(Child(n)) && n in objects
    ensures Stops(objects, schema, q) <==> Join(q) in schema.leaves || (objects[n] == map[] && Join(q) !in schema.namespaces)
  {
  }

  lemma StopsAtValue(objects: Objects, schema: Schema, q: Path)
    requires At(objects, q).Some? && !At(objects, q).value.Child?
    ensures Stops(objects, schema, q)
  {
  }

  lemma BadKey(objects: Objects, schema: Schema, pre: Path, m: Ref, key: string)
    requires m in objects && At(objects, pre) == Some(Child(m)) && key in objects[m] && !Component(key)
    ensures !Clean(objects, schema, pre, objects[m].Keys)
  {
    VisitsChild(objects, schema, pre, m, key);
    hide Visits, At, Component;
    var q := pre + [key];
    assert q[|q| - 1] == key;
    assert Under(pre, objects[m].Keys, q) && Bad(objects, schema, pre, q);
  }

  lemma ForeignIsBad(objects: Objects, schema: Schema, pre: Path, m: Ref, key: string)
    requires m in objects && At(objects, pre) == Some(Child(m)) && key in objects[m] && objects[m][key] == Foreign
    ensures !Clean(objects, schema, pre, objects[m].Keys)
  {
    VisitsChild(objects, schema, pre, m, key);
    hide Visits, At;
    var q := pre + [key];
    assert Under(pre, objects[m].Keys, q) && Bad(objects, schema, pre, q);
  }

  lemma BadBelow(objects: Objects, schema: Schema, pre: Path, m: Ref, key: string, n: Ref)
    requires m in objects && At(objects, pre) == Some(Child(m)) && key in objects[m] && objects[m][key] == Child(n) && n in objects
    requires !Stops(objects, schema, pre + [key]) && !Clean(objects, schema, pre + [key], objects[n].Keys)
    ensures !Clean(objects, schema, pre, objects[m].Keys)
  {
    hide Visits, At, Stops;
    var q :| Under(pre + [key], objects[n].Keys, q) && Bad(objects, schema, pre + [key], q);
    VisitsBeyond(objects, schema, pre, key, q);
    assert Under(pre, objects[m].Keys, q) && Bad(objects, schema, pre, q);
  }

  // ----- saving and loading -----

  /** Fields of a registry in which no key is a namespace of another: their keys are among its
      leaves, and no two fields are the same. */
  predicate OfRegistry(fields: seq<Field>, schema: Schema) {
    && (forall p, q :: p in schema.leaves && q in schema.leaves ==> !NamespaceOf(p, q))
    && (forall i :: 0 <= i < |fields| ==> ValidPath(fields[i].path) && Join(fields[i].path) in schema.leaves)
    && (forall i, j :: 0 <= i < j < |fields| ==> fields[i].path != fields[j].path)
  }

  lemma RegistryFieldsArePrefixFree(fields: seq<Field>, schema: Schema)
    requires OfRegistry(fields, schema)
    ensures PrefixFreeFields(fields)
  {
    hide Join, NamespaceOf;
    forall i, j | 0 <= i < |fields| && 0 <= j < |fields| && i != j
      ensures !(fields[i].path <= fields[j].path)
    {
      NamespaceIsPrefix(fields[i].path, fields[j].path);
    }
  }

  lemma NoLeafAbove(fields: seq<Field>, schema: Schema, f: Field, q: Path)
    requires OfRegistry(fields, schema) && f in fields && q != [] && q < f.path
    ensures Join(q) !in schema.leaves
  {
    hide Join, NamespaceOf;
    assert forall i :: 0 <= i < |q| ==> q[i] == f.path[i];
    NamespaceIsPrefix(q, f.path);
  }

  /** In the saved document the walk stops exactly at the fields. */
  lemma StopsAtFields(objects: Objects, fields: seq<Field>, schema: Schema, q: Path)
    requires Holds(objects, fields) && OfRegistry(fields, schema) && q != [] && At(objects, q).Some?
    ensures Stops(objects, schema, q) <==> exists f :: f in fields && f.path == q
  {
    hide At, Join;
    if At(objects, q).value.Child? {
      var f :| f in fields && q < f.path;
      NoLeafAbove(fields, schema, f, q);
      BelowIsNotEmpty(objects, q, f.path);
      forall g | g in fields
        ensures g.path != q
      {
        assert At(objects, g.path) == Some(Value(g.value));
      }
    }
  }

  lemma BelowIsNotEmpty(objects: Objects, q: Path, p: Path)
    requires q < p && At(objects, p).Some? && IsMap(objects, q)
    ensures At(objects, q).value.ref in objects ==> objects[At(objects, q).value.ref] != map[]
  {
    var n := At(objects, q).value.ref;
    if n in objects {
      GoesThroughKey(objects, q, n, p);
    }
  }

  lemma SavedIsClean(objects: Objects, fields: seq<Field>, schema: Schema, done: set<string>)
    requires Holds(objects, fields) && OfRegistry(fields, schema)
    ensures Clean(objects, schema, [], done)
  {
    hide At, Join, Stops, NamespaceOf;
    forall q | Under([], done, q) && Visits(objects, schema, [], q)
      ensures !Bad(objects, schema, [], q)
    {
      var f :| f in fields && q <= f.path;
      assert q[|q| - 1] == f.path[|q| - 1];
    }
  }

  lemma SavedEmits(objects: Objects, fields: seq<Field>, schema: Schema, q: Path)
    requires Holds(objects, fields) && OfRegistry(fields, schema)
    ensures Emits(objects, schema, [], q) <==> exists f :: f in fields && f.path == q
  {
    hide At, Join, Stops, NamespaceOf;
    if exists f :: f in fields && f.path == q {
      var f :| f in fields && f.path == q;
      StopsAtFields(objects, fields, schema, q);
      RegistryFieldsArePrefixFree(fields, schema);
      forall r | [] < r < q
        ensures !Stops(objects, schema, r)
      {
        if Stops(objects, schema, r) {
          StopsImpliesAt(objects, schema, r);
          StopsAtFields(objects, fields, schema, r);
        }
      }
    }
    if Emits(objects, schema, [], q) {
      StopsAtFields(objects, fields, schema, q);
    }
  }

  lemma StopsImpliesAt(objects: Objects, schema: Schema, q: Path)
    requires Stops(objects, schema, q)
    ensures At(objects, q).Some?
  {
  }

  ghost function Longest(fields: seq<Field>): (n: nat)
    ensures forall f :: f in fields ==> |f.path| <= n
  {
    if fields == [] then 0
    else
      var n := Longest(fields[1..]);
      assert fields == [fields[0]] + fields[1..];
      if n < |fields[0].path| then |fields[0].path| else n
  }

  /** Save followed by loadFile, with the codec between them taken as the identity: the entries read
      back are exactly the fields written, in whatever order they were written. */
  method SaveThenLoad(fields: seq<Field>, schema: Schema) returns (ok: bool, out: map<string, Entry>)
    requires OfRegistry(fields, schema)
    ensures ok
    ensures forall k :: k in out <==> exists f :: f in fields && Join(f.path) == k
    ensures forall f :: f in fields ==> Join(f.path) in out && out[Join(f.path)] == Value(f.value)
  {
    RegistryFieldsArePrefixFree(fields, schema);
    var d := PutAll(fields);
    var objects := d.objects;
    assert forall q :: IsMap(objects, q) ==> At(objects, q).value.ref in objects;
    hide At, Join, TreeShaped, Stops, NamespaceOf, Follow, Visits;
    AtRoot(objects);
    forall q | At(objects, q).Some?
      ensures |q| <= Longest(fields)
    {
    }
    SavedIsClean(objects, fields, schema, objects[ROOT].Keys);
    assert Join([]) == "" by {
      EmptyJoin();
    }
    ok, out := Flatten(objects, schema, "", ROOT, map[], [], Longest(fields));
    forall k
      ensures k in out <==> exists f :: f in fields && Join(f.path) == k
    {
      if k in out {
        var q :| Under([], objects[ROOT].Keys, q) && Emits(objects, schema, [], q) && Join(q) == k;
        SavedEmits(objects, fields, schema, q);
      }
      if exists f :: f in fields && Join(f.path) == k {
        var f :| f in fields && Join(f.path) == k;
        FieldIsRead(objects, fields, schema, f);
      }
    }
    forall f | f in fields
      ensures Join(f.path) in out && out[Join(f.path)] == Value(f.value)
    {
      FieldIsRead(objects, fields, schema, f);
    }
  }

  lemma EmptyJoin()
    ensures Join([]) == ""
  {
  }

  lemma FieldIsRead(objects: Objects, fields: seq<Field>, schema: Schema, f: Field)
    requires Holds(objects, fields) && OfRegistry(fields, schema) && f in fields && ROOT in objects
    ensures Under([], objects[ROOT].Keys, f.path) && Emits(objects, schema, [], f.path) && At(objects, f.path) == Some(Value(f.value))
  {
    SavedEmits(objects, fields, schema, f.path);
    GoesThroughKey(objects, [], ROOT, f.path);
  }
}
