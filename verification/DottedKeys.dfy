/** Configuration keys: components joined by dots (strings.Join, strings.Split). */
module DottedKeys {
  predicate Component(s: string) {
    s != "" && '.' !in s
  }

  type Path = seq<string>

  predicate ValidPath(p: Path) {
    p != [] && forall i :: 0 <= i < |p| ==> Component(p[i])
  }

  predicate DotFree(p: Path) {
    p != [] && forall i :: 0 <= i < |p| ==> '.' !in p[i]
  }

  function Join(p: Path): string {
    if p == [] then "" else if |p| == 1 then p[0] else p[0] + "." + Join(p[1..])
  }

  function FirstDot(s: string): (i: nat)
    ensures i <= |s| && '.' !in s[..i] && (i < |s| ==> s[i] == '.')
  {
    if s == "" || s[0] == '.' then 0
    else
      var i := FirstDot(s[1..]);
      assert s[..i + 1] == [s[0]] + s[1..][..i];
      i + 1
  }

  function Split(s: string): (p: Path)
    ensures DotFree(p)
    decreases |s|
  {
    var i := FirstDot(s);
    if i == |s| then [s] else [s[..i]] + Split(s[i + 1..])
  }

  lemma {:induction false} FirstDotAt(a: string, rest: string)
    requires '.' !in a
    ensures FirstDot(a) == |a|
    ensures FirstDot(a + "." + rest) == |a|
  {
    if a == "" {
    } else {
      assert a[0] in a;
      FirstDotAt(a[1..], rest);
      assert (a + "." + rest)[1..] == a[1..] + "." + rest;
    }
  }

  lemma SplitFirst(a: string, rest: string)
    requires '.' !in a
    ensures Split(a) == [a]
    ensures Split(a + "." + rest) == [a] + Split(rest)
  {
    FirstDotAt(a, rest);
    var s := a + "." + rest;
    assert s[..|a|] == a && s[|a| + 1..] == rest;
  }

  lemma {:induction false} SplitJoin(p: Path)
    requires DotFree(p)
    ensures Split(Join(p)) == p
  {
    assert p == [p[0]] + p[1..];
    if |p| == 1 {
      SplitFirst(p[0], "");
    } else {
      SplitJoin(p[1..]);
      SplitFirst(p[0], Join(p[1..]));
    }
  }

  lemma JoinCons(a: string, p: Path)
    requires p != []
    ensures Join([a] + p) == a + "." + Join(p)
  {
    assert ([a] + p)[1..] == p;
  }

  lemma SplitCons(s: string)
    requires FirstDot(s) < |s|
    ensures Split(s) == [s[..FirstDot(s)]] + Split(s[FirstDot(s) + 1..])
  {
  }

  lemma {:induction false} JoinSplit(s: string)
    ensures Join(Split(s)) == s
    decreases |s|
  {
    hide Join, Split;
    var i := FirstDot(s);
    if i == |s| {
      NoDots(s);
    } else {
      SplitCons(s);
      JoinSplit(s[i + 1..]);
      JoinCons(s[..i], Split(s[i + 1..]));
      assert s == s[..i] + "." + s[i + 1..];
    }
  }

  lemma NoDots(s: string)
    requires FirstDot(s) == |s|
    ensures Join(Split(s)) == s
  {
  }

  lemma JoinInjective(p: Path, q: Path)
    requires DotFree(p) && DotFree(q) && Join(p) == Join(q)
    ensures p == q
  {
    SplitJoin(p);
    SplitJoin(q);
  }

  lemma {:induction false} JoinAppend(p: Path, q: Path)
    requires p != [] && q != []
    ensures Join(p + q) == Join(p) + "." + Join(q)
  {
    if |p| == 1 {
      assert (p + q)[1..] == q;
    } else {
      JoinAppend(p[1..], q);
      assert (p + q)[1..] == p[1..] + q;
      assert Join(p) == p[0] + "." + Join(p[1..]);
    }
  }

  /** The key p is a namespace of the key q. */
  predicate NamespaceOf(p: string, q: string) {
    p + "." <= q
  }

  lemma NamespaceSplits(p: Path, s: string)
    requires DotFree(p) && NamespaceOf(Join(p), s)
    ensures Join(p + Split(s[|Join(p)| + 1..])) == s
  {
    hide Join, Split;
    var rest := s[|Join(p)| + 1..];
    JoinSplit(rest);
    JoinAppend(p, Split(rest));
    assert s == (Join(p) + ".") + rest;
  }

  /** Being a namespace of a key is being a proper prefix as a list of components. */
  lemma NamespaceIsPrefix(p: Path, q: Path)
    requires DotFree(p) && DotFree(q)
    ensures NamespaceOf(Join(p), Join(q)) <==> p < q
  {
    hide Join, Split;
    if p < q {
      var rest := q[|p|..];
      assert q == p + rest;
      JoinAppend(p, rest);
    }
    if NamespaceOf(Join(p), Join(q)) {
      NamespaceSplits(p, Join(q));
      var rest := Split(Join(q)[|Join(p)| + 1..]);
      JoinInjective(p + rest, q);
    }
  }
}
