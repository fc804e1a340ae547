/** What the keys of a schema are made of, and where snake case puts its underscores
    (config/registry.go). */
module ConfigNames {
  import opened DottedKeys
  import opened ConfigRegistry

  // ----- keys -----

  /** The elements from the top of the schema down to a scalar: each after the first is a field of the
      group before it. */
  predicate Way(fields: seq<Element>, way: seq<Element>)
    decreases |way|
  {
    && way != [] && way[0] in fields
    && if |way| == 1 then way[0].Scalar? else way[0].Group? && Way(way[0].fields, way[1..])
  }

  /** The names on the way, without those of embedded groups. */
  function Names(way: seq<Element>): Path {
    if way == [] then []
    else if way[0].Group? && way[0].embedded then Names(way[1..])
    else [way[0].name] + Names(way[1..])
  }

  /** What the registry notes about the scalar at the end of the way. */
  predicate Notes(m: Meta, prefix: Path, way: seq<Element>)
    requires way != [] && way[|way| - 1].Scalar?
  {
    var e := way[|way| - 1];
    m.key == Join(prefix + Names(way)) && m.env == e.env && m.flag == e.flag
  }

  lemma {:induction false} WayEndsInScalar(fields: seq<Element>, way: seq<Element>)
    requires Way(fields, way)
    ensures way[|way| - 1].Scalar?
    decreases |way|
  {
    if |way| > 1 {
      WayEndsInScalar(way[0].fields, way[1..]);
    }
  }

  predicate NotedBy(m: Meta, prefix: Path, fields: seq<Element>, way: seq<Element>) {
    Way(fields, way) && way != [] && way[|way| - 1].Scalar? && Notes(m, prefix, way)
  }

  lemma NamesFirst(prefix: Path, e: Element, rest: seq<Element>)
    ensures prefix + Names([e] + rest) == Below(e, prefix) + Names(rest)
  {
    assert ([e] + rest)[1..] == rest;
  }

  lemma WayDown(m: Meta, prefix: Path, e: Element, way: seq<Element>)
    requires e.Group? && NotedBy(m, Below(e, prefix), e.fields, way)
    ensures NotedBy(m, prefix, [e], [e] + way)
  {
    NamesFirst(prefix, e, way);
    assert ([e] + way)[1..] == way;
  }

  lemma WayWider(m: Meta, prefix: Path, some: seq<Element>, fields: seq<Element>, way: seq<Element>)
    requires NotedBy(m, prefix, some, way) && forall e :: e in some ==> e in fields
    ensures NotedBy(m, prefix, fields, way)
  {
  }

  /** Every leaf is at the end of a way. */
  lemma {:induction false} LeafHasWay(fields: seq<Element>, prefix: Path, m: Meta)
    requires m in Leaves(fields, prefix)
    ensures exists way :: NotedBy(m, prefix, fields, way)
    decreases fields
  {
    var init, e := fields[..|fields| - 1], fields[|fields| - 1];
    hide NotedBy;
    if m in Leaves(init, prefix) {
      LeafHasWay(init, prefix, m);
      var way :| NotedBy(m, prefix, init, way);
      WayWider(m, prefix, init, fields, way);
    } else {
      ElementHasWay(e, prefix, m);
      var way :| NotedBy(m, prefix, [e], way);
      WayWider(m, prefix, [e], fields, way);
    }
  }

  lemma {:induction false} ElementHasWay(e: Element, prefix: Path, m: Meta)
    requires m in LeavesOf(e, prefix)
    ensures exists way :: NotedBy(m, prefix, [e], way)
    decreases e
  {
    if e.Scalar? {
      assert Names([e]) == [e.name];
      assert NotedBy(m, prefix, [e], [e]);
    } else {
      hide NotedBy;
      LeafHasWay(e.fields, Below(e, prefix), m);
      var way :| NotedBy(m, Below(e, prefix), e.fields, way);
      WayDown(m, prefix, e, way);
    }
  }

  lemma {:induction false} LeavesInclude(fields: seq<Element>, prefix: Path, e: Element, m: Meta)
    requires e in fields && m in LeavesOf(e, prefix)
    ensures m in Leaves(fields, prefix)
  {
    if e != fields[|fields| - 1] {
      LeavesInclude(fields[..|fields| - 1], prefix, e, m);
    }
  }

  /** Every way leads to a leaf. */
  lemma {:induction false} WayHasLeaf(fields: seq<Element>, prefix: Path, m: Meta, way: seq<Element>)
    requires NotedBy(m, prefix, fields, way)
    ensures m in Leaves(fields, prefix)
    decreases |way|
  {
    var e := way[0];
    assert way == [e] + way[1..];
    NamesFirst(prefix, e, way[1..]);
    if |way| == 1 {
      assert Names(way[1..]) == [];
      assert Below(e, prefix) + [] == Below(e, prefix);
    } else {
      WayHasLeaf(e.fields, Below(e, prefix), m, way[1..]);
    }
    LeavesInclude(fields, prefix, e, m);
  }

  /** How many scalars there are. */
  function Scalars(fields: seq<Element>): nat
    decreases fields
  {
    if fields == [] then 0
    else
      var e := fields[0];
      (if e.Scalar? then 1 else Scalars(e.fields)) + Scalars(fields[1..])
  }

  lemma {:induction false} ScalarsLast(fields: seq<Element>, e: Element)
    ensures Scalars(fields + [e]) == Scalars(fields) + if e.Scalar? then 1 else Scalars(e.fields)
  {
    var all := fields + [e];
    if fields == [] {
      assert all[1..] == [];
    } else {
      ScalarsLast(fields[1..], e);
      assert all[1..] == fields[1..] + [e];
    }
  }

  lemma {:induction false} LeavesCount(fields: seq<Element>, prefix: Path)
    ensures |Leaves(fields, prefix)| == Scalars(fields)
    decreases fields
  {
    if fields != [] {
      var init, e := fields[..|fields| - 1], fields[|fields| - 1];
      LeavesCount(init, prefix);
      assert init + [e] == fields;
      ScalarsLast(init, e);
      if e.Group? {
        LeavesCount(e.fields, Below(e, prefix));
      }
    }
  }

  /** The registry has one entry for each scalar, under the names that lead to it joined by dots,
      where an embedded group adds no name. */
  lemma KeysExactly(schema: seq<Element>, m: Meta)
    ensures |Leaves(schema, [])| == Scalars(schema)
    ensures m in Leaves(schema, []) <==>
            exists way: seq<Element> :: Way(schema, way) && way[|way| - 1].Scalar?
              && m == Meta(Join(Names(way)), way[|way| - 1].env, way[|way| - 1].flag)
  {
    LeavesCount(schema, []);
    if m in Leaves(schema, []) {
      LeafHasWay(schema, [], m);
      var way :| NotedBy(m, [], schema, way);
      assert [] + Names(way) == Names(way);
    }
    if way: seq<Element> :| Way(schema, way) && way[|way| - 1].Scalar? && m == Meta(Join(Names(way)), way[|way| - 1].env, way[|way| - 1].flag) {
      assert [] + Names(way) == Names(way);
      WayHasLeaf(schema, [], m, way);
    }
  }

  // ----- snake case -----

  /** An upper-case letter other than the first starts a word after a lower-case letter or a digit, and
      before a lower-case letter. */
  predicate StartsWord(t: Letters, s: string, i: nat)
    requires i < |s|
  {
    && i > 0 && t.isUpper(s[i])
    && (t.isLower(s[i - 1]) || t.isDigit(s[i - 1]) || (i < |s| - 1 && t.isLower(s[i + 1])))
  }

  /** Where each character of s stands in b: one place after the one before it, or two with an
      underscore between where a word starts. */
  predicate PlacedAt(t: Letters, s: string, n: nat, b: string, place: seq<nat>)
    requires n <= |s|
  {
    && |place| == n
    && (n > 0 ==> place[0] == 0)
    && (forall i :: 0 <= i < n ==> place[i] < |b| && b[place[i]] == t.toLower(s[i]))
    && (forall i :: 0 < i < n ==>
          if StartsWord(t, s, i) then place[i] == place[i - 1] + 2 && b[place[i] - 1] == '_' else place[i] == place[i - 1] + 1)
    && |b| == if n == 0 then 0 else place[n - 1] + 1
  }

  /** One more character, with an underscore before it where a word starts. */
  lemma PlacedNext(t: Letters, s: string, n: nat, b: string, place: seq<nat>)
    requires 0 < n <= |s| && PlacedAt(t, s, n - 1, b, place)
    ensures var gap := if StartsWord(t, s, n - 1) then "_" else "";
            PlacedAt(t, s, n, b + gap + [t.toLower(s[n - 1])], place + [|b| + |gap|])
  {
    var gap := if StartsWord(t, s, n - 1) then "_" else "";
    var longer, more := b + gap + [t.toLower(s[n - 1])], place + [|b| + |gap|];
    hide StartsWord;
    forall i | 0 <= i < n
      ensures more[i] < |longer| && longer[more[i]] == t.toLower(s[i])
    {
      if i < n - 1 {
        assert more[i] == place[i];
      }
    }
    forall i | 0 < i < n
      ensures if StartsWord(t, s, i) then more[i] == more[i - 1] + 2 && longer[more[i] - 1] == '_' else more[i] == more[i - 1] + 1
    {
      assert more[i - 1] == place[i - 1];
      if i < n - 1 {
        assert more[i] == place[i];
      }
    }
  }

  lemma WordsAgree(t: Letters, s: string, i: nat)
    requires i < |s|
    ensures NewWord(t, s, i) <==> StartsWord(t, s, i)
  {
  }

  lemma {:induction false} SnakeExactly(t: Letters, s: string, n: nat) returns (place: seq<nat>)
    requires n <= |s|
    ensures PlacedAt(t, s, n, SnakeUpTo(t, s, n), place)
  {
    if n == 0 {
      place := [];
    } else {
      hide PlacedAt, NewWord, StartsWord;
      var before := SnakeExactly(t, s, n - 1);
      var b := SnakeUpTo(t, s, n - 1);
      WordsAgree(t, s, n - 1);
      PlacedNext(t, s, n, b, before);
      place := before + [if StartsWord(t, s, n - 1) then |b| + 1 else |b|];
      assert place == before + [|b| + |if StartsWord(t, s, n - 1) then "_" else ""|];
    }
  }
}
