/** What a reconstructed chain is worth: success condition, order independence, round trips. */
module BundleProperties {
  import opened Wrappers
  import opened Certificates
  import opened Bundles

  // ----- when it succeeds -----

  predicate CAPath(path: seq<Certificate>) {
    forall i :: 0 < i < |path| ==> CACapable(path[i])
  }

  lemma {:induction false} LinksMeaning(v: Verifies, certs: seq<Certificate>, k: nat)
    requires k <= |certs|
    ensures CheckLinks(v, certs, k).Ok? <==> forall i :: 0 <= i < k ==> CheckLink(v, certs, certs[i]).Ok?
  {
    if k == 0 {
    } else {
      LinksMeaning(v, certs, k - 1);
    }
  }

  lemma PathLinks(v: Verifies, certs: seq<Certificate>, path: seq<Certificate>)
    requires IsPath(v, certs, path)
    ensures CheckLinks(v, certs, |certs|).Ok? <==> CAPath(path)
  {
    hide CACapable;
    LinksMeaning(v, certs, |certs|);
    SameMembers(path, certs);
    if CAPath(path) {
      forall i | 0 <= i < |certs|
        ensures CheckLink(v, certs, certs[i]).Ok?
      {
        assert certs[i] in path;
        var j :| 0 <= j < |path| && path[j] == certs[i];
        assert !Ambiguous(v, certs, path[j]);
      }
    }
    if CheckLinks(v, certs, |certs|).Ok? {
      forall i | 0 < i < |path|
        ensures CACapable(path[i])
      {
        NextIsParent(v, certs, path, i - 1);
        assert path[i - 1] in certs;
        var j :| 0 <= j < |certs| && certs[j] == path[i - 1];
        assert CheckLink(v, certs, certs[j]).Ok?;
      }
    }
  }

  /** What the result of a successful call is. */
  lemma NormalizedResult(v: Verifies, certs: seq<Option<Certificate>>, key: Option<nat>)
    requires Normalized(v, certs, key).Ok? && certs != []
    ensures Clean(certs)
    ensures var b := Normalized(v, certs, key).value;
            IsPath(v, Values(certs), b.certs) && b.certs != [] && CAPath(b.certs) && b == Assemble(v, b.certs, key) && KeyFits(b)
  {
    hide CheckLinks, IsPath, KeyFits, CAPath;
    var cs := Values(certs);
    forall path | IsPath(v, cs, path)
      ensures CheckLinks(v, cs, |cs|).Ok? <==> CAPath(path)
      ensures path != []
    {
      PathLinks(v, cs, path);
      PathNotEmpty(v, cs, path);
    }
  }

  ghost predicate Acceptable(v: Verifies, certs: seq<Certificate>, path: seq<Certificate>, key: Option<nat>) {
    path != [] && IsPath(v, certs, path) && CAPath(path) && KeyFits(Assemble(v, path, key))
  }

  /** A non-empty input is accepted exactly when it has no nil and no repetition, its certificates
      form one path in which every issuer is CA-capable, and the key, if any, is the leaf's. */
  lemma NormalizedMeaning(v: Verifies, certs: seq<Option<Certificate>>, key: Option<nat>)
    requires certs != []
    ensures Normalized(v, certs, key).Ok? <==> Clean(certs) && exists path :: Acceptable(v, Values(certs), path, key)
  {
    hide CheckLinks, IsPath, KeyFits, CAPath;
    if Normalized(v, certs, key).Ok? {
      NormalizedResult(v, certs, key);
      assert Acceptable(v, Values(certs), Normalized(v, certs, key).value.certs, key);
    } else if Clean(certs) && exists path :: Acceptable(v, Values(certs), path, key) {
      var cs := Values(certs);
      var path :| Acceptable(v, cs, path, key);
      PathLinks(v, cs, path);
      forall p | IsPath(v, cs, p)
        ensures p == path
      {
        PathUnique(v, cs, p, path);
      }
    }
  }

  lemma PathNotEmpty(v: Verifies, certs: seq<Certificate>, path: seq<Certificate>)
    requires IsPath(v, certs, path)
    ensures |path| == |certs|
  {
    SameMembers(path, certs);
  }

  function Listed(c: Option<Certificate>): seq<Certificate> {
    if c.Some? then [c.value] else []
  }

  predicate IssuedByNext(v: Verifies, certs: seq<Certificate>, i: nat)
    requires i + 1 < |certs|
  {
    Issued(v, certs[i], certs[i + 1]) && CACapable(certs[i + 1])
  }

  /** Leaf, intermediates and root put together are the whole chain. */
  predicate WellParted(v: Verifies, b: Bundle) {
    && Listed(b.leaf) + b.intermediates + Listed(b.root) == b.certs
    && (b.leaf.Some? <==> b.certs != [] && !b.certs[0].isCA)
    && (b.root.Some? <==> b.certs != [] && Anchor(v, b.certs[|b.certs| - 1]))
  }

  lemma PiecesFromFirst<T>(xs: seq<T>)
    requires xs != []
    ensures [] + xs[..|xs|] + [] == xs
    ensures [] + xs[..|xs| - 1] + [xs[|xs| - 1]] == xs
  {
  }

  lemma PiecesFromSecond<T>(xs: seq<T>)
    requires xs != []
    ensures [xs[0]] + (if |xs| > 1 then xs[1..|xs|] else []) + [] == xs
    ensures |xs| > 1 ==> [xs[0]] + (if |xs| - 1 > 1 then xs[1..|xs| - 1] else []) + [xs[|xs| - 1]] == xs
  {
  }

  lemma AssembledParts(v: Verifies, path: seq<Certificate>, key: Option<nat>)
    requires path != []
    ensures WellParted(v, Assemble(v, path, key))
  {
    AnchorIsCA(v, path[|path| - 1]);
    hide Anchor;
    PiecesFromFirst(path);
    PiecesFromSecond(path);
  }

  lemma AnchorIsCA(v: Verifies, c: Certificate)
    ensures Anchor(v, c) ==> c.isCA
  {
  }

  /** The result is a permutation of the input in which each certificate is issued by the next, as
      RFC 8446 section 4.4.2 orders a chain, and nothing but its end can be self-signed. */
  lemma NormalizedChain(v: Verifies, certs: seq<Option<Certificate>>, key: Option<nat>)
    requires Normalized(v, certs, key).Ok? && certs != []
    ensures Clean(certs)
    ensures var b := Normalized(v, certs, key).value;
            && multiset(b.certs) == multiset(Values(certs))
            && (forall i :: 0 <= i < |b.certs| - 1 ==> IssuedByNext(v, b.certs, i) && !Anchor(v, b.certs[i]))
            && WellParted(v, b)
            && b.key == key
  {
    hide Normalized, KeyFits, WellParted, Assemble, CAPath, Anchor, Issued, CACapable;
    NormalizedResult(v, certs, key);
    var b := Normalized(v, certs, key).value;
    AssembledParts(v, b.certs, key);
    AssembledCerts(v, b.certs, key);
    forall i | 0 <= i < |b.certs| - 1
      ensures IssuedByNext(v, b.certs, i) && !Anchor(v, b.certs[i])
    {
      PathStep(v, Values(certs), b.certs, i);
    }
    PathPermutes(v, Values(certs), b.certs);
  }

  lemma AssembledCerts(v: Verifies, path: seq<Certificate>, key: Option<nat>)
    requires path != []
    ensures Assemble(v, path, key).certs == path && Assemble(v, path, key).key == key
  {
  }

  lemma PathPermutes(v: Verifies, certs: seq<Certificate>, path: seq<Certificate>)
    requires IsPath(v, certs, path)
    ensures multiset(path) == multiset(certs)
  {
  }

  lemma PathStep(v: Verifies, certs: seq<Certificate>, path: seq<Certificate>, i: nat)
    requires IsPath(v, certs, path) && CAPath(path) && i + 1 < |path|
    ensures IssuedByNext(v, path, i) && !Anchor(v, path[i])
  {
    NextIsParent(v, certs, path, i);
  }

  // ----- order independence -----

  lemma {:induction false} ValuesCount(certs: seq<Option<Certificate>>, c: Certificate)
    requires forall i :: 0 <= i < |certs| ==> certs[i].Some?
    ensures multiset(Values(certs))[c] == multiset(certs)[Some(c)]
  {
    if certs == [] {
    } else {
      var rest := certs[1..];
      ValuesCount(rest, c);
      assert multiset(certs) == multiset{certs[0]} + multiset(rest) by {
        assert certs == [certs[0]] + rest;
      }
      assert multiset(Values(certs)) == multiset{certs[0].value} + multiset(Values(rest)) by {
        assert Values(certs) == [certs[0].value] + Values(rest);
      }
    }
  }

  lemma SameValues(a: seq<Option<Certificate>>, b: seq<Option<Certificate>>)
    requires multiset(a) == multiset(b) && Clean(a)
    ensures Clean(b) && multiset(Values(a)) == multiset(Values(b))
  {
    SameMembers(a, b);
    assert forall i :: 0 <= i < |b| ==> b[i] in a;
    forall c
      ensures multiset(Values(a))[c] == multiset(Values(b))[c]
    {
      ValuesCount(a, c);
      ValuesCount(b, c);
    }
    MultisetPreservesDistinct(Values(a), Values(b));
    assert forall i :: 0 <= i < |b| ==> b[i].value == Values(b)[i];
  }

  lemma SamePaths(v: Verifies, a: seq<Certificate>, b: seq<Certificate>, path: seq<Certificate>)
    requires multiset(a) == multiset(b) && IsPath(v, a, path)
    ensures IsPath(v, b, path)
  {
    SameMembers(a, b);
    assert forall c, p :: Parent(v, a, c, p) <==> Parent(v, b, c, p);
  }

  /** Every permutation of the input gives the same bundle, or none does. */
  lemma OrderIndependent(v: Verifies, a: seq<Option<Certificate>>, b: seq<Option<Certificate>>, key: Option<nat>)
    requires multiset(a) == multiset(b)
    ensures Normalized(v, a, key).Ok? <==> Normalized(v, b, key).Ok?
    ensures Normalized(v, a, key).Ok? ==> Normalized(v, a, key) == Normalized(v, b, key)
  {
    hide Normalized;
    SameMembers(a, b);
    if a == [] {
      assert a == b;
    } else {
      if Normalized(v, a, key).Ok? {
        SameOutcome(v, a, b, key);
      } else if Normalized(v, b, key).Ok? {
        SameOutcome(v, b, a, key);
      }
    }
  }

  lemma SameOutcome(v: Verifies, a: seq<Option<Certificate>>, b: seq<Option<Certificate>>, key: Option<nat>)
    requires multiset(a) == multiset(b) && a != [] && b != [] && Normalized(v, a, key).Ok?
    ensures Normalized(v, b, key) == Normalized(v, a, key)
  {
    hide Normalized, IsPath, CAPath, KeyFits, Assemble;
    NormalizedResult(v, a, key);
    SameValues(a, b);
    var path := Normalized(v, a, key).value.certs;
    SamePaths(v, Values(a), Values(b), path);
    assert Acceptable(v, Values(b), path, key);
    NormalizedMeaning(v, b, key);
    NormalizedResult(v, b, key);
    PathUnique(v, Values(b), path, Normalized(v, b, key).value.certs);
  }

  // ----- bundles that were built -----

  lemma PresentPermutes(v: Verifies, certs: seq<Option<Certificate>>, key: Option<nat>)
    requires Normalized(v, certs, key).Ok?
    ensures multiset(Present(Normalized(v, certs, key).value.certs)) == multiset(certs)
  {
    hide Normalized, WellParted, IssuedByNext, Anchor, IsPath, CAPath, KeyFits, Assemble;
    if certs == [] {
      EmptyInput(v, key);
    } else {
      NormalizedChain(v, certs, key);
      var chain := Normalized(v, certs, key).value.certs;
      assert Values(Present(chain)) == chain;
      forall o
        ensures multiset(Present(chain))[o] == multiset(certs)[o]
      {
        if o.Some? {
          ValuesCount(Present(chain), o.value);
          ValuesCount(certs, o.value);
        } else {
          assert o !in Present(chain) && o !in certs;
        }
      }
    }
  }

  lemma EmptyInput(v: Verifies, key: Option<nat>)
    ensures Normalized(v, [], key) == Ok(Bundle([], None, [], None, key))
  {
  }

  /** Normalising the chain of a bundle gives the bundle back: Validate accepts every bundle that
      normalizeBundle returned. */
  lemma BuiltIsValid(v: Verifies, certs: seq<Option<Certificate>>, key: Option<nat>)
    requires Normalized(v, certs, key).Ok?
    ensures Normalized(v, Present(Normalized(v, certs, key).value.certs), key) == Normalized(v, certs, key)
  {
    PresentPermutes(v, certs, key);
    OrderIndependent(v, Present(Normalized(v, certs, key).value.certs), certs, key);
  }

  /** AddCert, AddCertPEM and AddKeyPEM. */
  ghost function Extended(v: Verifies, b: Bundle, add: seq<Option<Certificate>>, key: Option<nat>): Result<Bundle> {
    Normalized(v, Present(b.certs) + add, key)
  }

  /** Building a bundle step by step is building it at once. */
  lemma AddingIsLoading(v: Verifies, certs: seq<Option<Certificate>>, key: Option<nat>,
          add: seq<Option<Certificate>>, newKey: Option<nat>)
    requires Normalized(v, certs, key).Ok?
    ensures var b := Normalized(v, certs, key).value;
            && (Extended(v, b, add, newKey).Ok? <==> Normalized(v, certs + add, newKey).Ok?)
            && (Extended(v, b, add, newKey).Ok? ==> Extended(v, b, add, newKey) == Normalized(v, certs + add, newKey))
  {
    PresentPermutes(v, certs, key);
    OrderIndependent(v, Present(Normalized(v, certs, key).value.certs) + add, certs + add, newKey);
  }

  /** TLSCertificate. */
  ghost function TLSChain(v: Verifies, b: Bundle): Result<(seq<Certificate>, nat)> {
    if b.leaf.None? then Err(NotFound)
    else if b.key.None? then Err(NotFound)
    else
      var _ :- Normalized(v, Present(b.certs), b.key);
      Ok(([b.leaf.value] + b.intermediates, b.key.value))
  }

  /** A bundle that was built can be served over TLS exactly when it has a leaf and a key; what is
      sent is the chain without its root, and the key is the leaf's. */
  lemma BuiltIsServable(v: Verifies, certs: seq<Option<Certificate>>, key: Option<nat>)
    requires Normalized(v, certs, key).Ok?
    ensures var b := Normalized(v, certs, key).value;
            && (TLSChain(v, b).Ok? <==> b.leaf.Some? && b.key.Some?)
            && (TLSChain(v, b).Ok? ==>
                  && TLSChain(v, b).value.0 + Listed(b.root) == b.certs
                  && TLSChain(v, b).value.1 == b.leaf.value.publicKey)
  {
    hide Normalized, IssuedByNext, Anchor, IsPath, Clean, CAPath;
    BuiltIsValid(v, certs, key);
    if certs == [] {
      EmptyInput(v, key);
    } else {
      NormalizedResult(v, certs, key);
      NormalizedChain(v, certs, key);
    }
  }
}
