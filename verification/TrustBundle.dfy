/** Canonical trust bundles (certs/trust_bundle.go, certs/trust.go). */
module TrustBundle {
  import opened Wrappers
  import opened Certificates
  import opened Authority
  import opened AuthorityInvariant

  // ----- sorting by bytes -----

  predicate StrictlySorted(certs: seq<Certificate>) {
    forall i, j :: 0 <= i < j < |certs| ==> certs[i].raw < certs[j].raw
  }

  predicate Ascending(certs: seq<Certificate>) {
    forall i, j :: 0 <= i < j < |certs| ==> certs[i].raw <= certs[j].raw
  }

  function Insert(c: Certificate, certs: seq<Certificate>): (r: seq<Certificate>)
    ensures multiset(r) == multiset(certs) + multiset{c}
  {
    if certs == [] || c.raw <= certs[0].raw then [c] + certs
    else
      assert certs == [certs[0]] + certs[1..];
      [certs[0]] + Insert(c, certs[1..])
  }

  lemma {:induction false} InsertAscending(c: Certificate, certs: seq<Certificate>)
    requires Ascending(certs)
    ensures Ascending(Insert(c, certs))
  {
    if certs != [] && c.raw > certs[0].raw {
      InsertAscending(c, certs[1..]);
      var rest := Insert(c, certs[1..]);
      forall i | 0 <= i < |rest|
        ensures rest[i].raw >= certs[0].raw
      {
        assert rest[i] in multiset(rest);
        assert rest[i] == c || rest[i] in certs[1..];
      }
    }
  }

  /** Stands for the library's sort.Slice. */
  function SortByRaw(certs: seq<Certificate>): (r: seq<Certificate>)
    ensures Ascending(r) && multiset(r) == multiset(certs)
  {
    if certs == [] then []
    else
      assert certs == certs[..|certs| - 1] + [certs[|certs| - 1]];
      InsertAscending(certs[|certs| - 1], SortByRaw(certs[..|certs| - 1]));
      Insert(certs[|certs| - 1], SortByRaw(certs[..|certs| - 1]))
  }

  /** A strictly sorted sequence is determined by its elements. */
  lemma {:induction false} StrictlySortedUnique(a: seq<Certificate>, b: seq<Certificate>)
    requires StrictlySorted(a) && StrictlySorted(b)
    requires forall c :: c in a <==> c in b
    ensures a == b
  {
    assert b != [] ==> b[0] in b;
    if a == [] {
    } else {
      assert a[0] in b;
      assert b[0] in a;
      assert a[0] == b[0];
      forall c
        ensures c in a[1..] <==> c in b[1..]
      {
        assert c in a[1..] ==> c in a && c.raw > a[0].raw;
        assert c in b[1..] ==> c in b && c.raw > b[0].raw;
        assert a == [a[0]] + a[1..] && b == [b[0]] + b[1..];
      }
      StrictlySortedUnique(a[1..], b[1..]);
      assert a == [a[0]] + a[1..] && b == [b[0]] + b[1..];
    }
  }

  // ----- normalizeTrustCertificates -----

  predicate TrustAnchor(c: Certificate) {
    CACapable(c) && c.subject == c.issuer && SignedBy(c, c)
  }

  /** None is a nil certificate. */
  predicate AllGiven(certs: seq<Option<Certificate>>) {
    forall i :: 0 <= i < |certs| ==> certs[i].Some?
  }

  function Given(certs: seq<Option<Certificate>>): (r: seq<Certificate>)
    requires AllGiven(certs)
    ensures |r| == |certs| && forall i :: 0 <= i < |r| ==> certs[i] == Some(r[i])
  {
    seq(|certs|, i requires 0 <= i < |certs| => certs[i].value)
  }

  /** The first certificate that is refused decides the error. */
  function CheckTrust(certs: seq<Option<Certificate>>): Result<()> {
    if certs == [] then Ok(())
    else
      var _ :- CheckTrust(certs[..|certs| - 1]);
      var c := certs[|certs| - 1];
      if c.None? then Err(Corrupt)
      else if !TrustAnchor(c.value) then Err(Validation)
      else if exists i :: 0 <= i < |certs| - 1 && certs[i].Some? && certs[i].value.raw == c.value.raw then Err(Conflict)
      else Ok(())
  }

  lemma {:induction false} CheckTrustMeaning(certs: seq<Option<Certificate>>)
    ensures CheckTrust(certs).Ok? <==>
            AllGiven(certs) && (forall i :: 0 <= i < |certs| ==> TrustAnchor(certs[i].value)) && DistinctRaw(Given(certs))
  {
    if certs == [] {
    } else {
      var init := certs[..|certs| - 1];
      CheckTrustMeaning(init);
      assert forall i :: 0 <= i < |init| ==> init[i] == certs[i];
      if AllGiven(certs) && DistinctRaw(Given(certs)) {
        assert forall i :: 0 <= i < |init| ==> Given(init)[i] == Given(certs)[i];
        assert DistinctRaw(Given(init));
      }
    }
  }

  function Normalized(certs: seq<Option<Certificate>>): Result<seq<Certificate>> {
    if certs == [] then Err(Validation)
    else
      var _ :- CheckTrust(certs);
      CheckTrustMeaning(certs);
      Ok(SortByRaw(Given(certs)))
  }

  lemma {:induction false} CheckTrustStops(certs: seq<Option<Certificate>>, k: nat)
    requires k <= |certs| && CheckTrust(certs[..k]).Err?
    ensures CheckTrust(certs) == CheckTrust(certs[..k])
    decreases |certs|
  {
    if k < |certs| {
      var init := certs[..|certs| - 1];
      assert init[..k] == certs[..k];
      CheckTrustStops(init, k);
    } else {
      assert certs[..k] == certs;
    }
  }

  /** The verdict about one more certificate, by the bytes of those before it. */
  lemma CheckTrustNext(certs: seq<Option<Certificate>>, k: nat, cloned: seq<Certificate>)
    requires k < |certs| && AllGiven(certs[..k]) && cloned == Given(certs[..k]) && CheckTrust(certs[..k]) == Ok(())
    ensures CheckTrust(certs[..k + 1]) ==
            if certs[k].None? then Err(Corrupt)
            else if !TrustAnchor(certs[k].value) then Err(Validation)
            else if exists i :: 0 <= i < k && cloned[i].raw == certs[k].value.raw then Err(Conflict)
            else Ok(())
    ensures certs[k].Some? ==> AllGiven(certs[..k + 1]) && Given(certs[..k + 1]) == cloned + [certs[k].value]
  {
    hide TrustAnchor;
    var prefix := certs[..k + 1];
    assert prefix[..k] == certs[..k] && prefix[k] == certs[k];
    assert forall i :: 0 <= i < k ==> prefix[i] == certs[..k][i] == Some(cloned[i]);
  }

  method NormalizeTrustCertificates(certs: seq<Option<Certificate>>) returns (r: Result<seq<Certificate>>)
    ensures r == Normalized(certs)
  {
    hide TrustAnchor, CheckTrust;
    if |certs| == 0 {
      return Err(Validation);
    }
    NoneChecked(certs);
    var byRaw: set<nat> := {};
    var cloned: seq<Certificate> := [];
    var k := 0;
    while k < |certs|
      invariant 0 <= k <= |certs|
      invariant AllGiven(certs[..k]) && cloned == Given(certs[..k])
      invariant byRaw == set i | 0 <= i < k :: cloned[i].raw
      invariant CheckTrust(certs[..k]) == Ok(())
    {
      CheckTrustNext(certs, k, cloned);
      if certs[k].None? {
        CheckTrustStops(certs, k + 1);
        return Err(Corrupt);
      }
      var c := certs[k].value;
      if !TrustAnchor(c) {
        CheckTrustStops(certs, k + 1);
        return Err(Validation);
      }
      if c.raw in byRaw {
        CheckTrustStops(certs, k + 1);
        return Err(Conflict);
      }
      byRaw := byRaw + {c.raw};
      cloned := cloned + [c];
      k := k + 1;
    }
    assert certs[..k] == certs;
    return Ok(SortByRaw(cloned));
  }

  lemma NoneChecked(certs: seq<Option<Certificate>>)
    ensures CheckTrust(certs[..0]) == Ok(())
  {
  }

  /** Normalisation succeeds exactly on a non-empty set of distinct self-signed CA certificates,
      none of them nil, and then returns the one strictly sorted sequence of them. */
  lemma NormalizedMeaning(certs: seq<Option<Certificate>>)
    ensures Normalized(certs).Ok? <==>
            && certs != [] && AllGiven(certs)
            && (forall i :: 0 <= i < |certs| ==> TrustAnchor(certs[i].value)) && DistinctRaw(Given(certs))
    ensures Normalized(certs).Ok? ==>
            StrictlySorted(Normalized(certs).value) && multiset(Normalized(certs).value) == multiset(Given(certs))
  {
    CheckTrustMeaning(certs);
    if Normalized(certs).Ok? {
      MultisetPreservesDistinct(Given(certs), SortByRaw(Given(certs)));
    }
  }

  lemma {:induction false} GivenCount(certs: seq<Option<Certificate>>, c: Certificate)
    requires AllGiven(certs)
    ensures multiset(Given(certs))[c] == multiset(certs)[Some(c)]
  {
    if certs == [] {
    } else {
      var init, last := certs[..|certs| - 1], certs[|certs| - 1];
      GivenCount(init, c);
      assert certs == init + [last];
      assert Given(certs) == Given(init) + [last.value];
    }
  }

  lemma GivenPermutes(a: seq<Option<Certificate>>, b: seq<Option<Certificate>>)
    requires multiset(a) == multiset(b) && AllGiven(a)
    ensures AllGiven(b) && multiset(Given(a)) == multiset(Given(b))
  {
    forall i | 0 <= i < |b|
      ensures b[i].Some?
    {
      assert b[i] in multiset(b) && b[i] in multiset(a);
    }
    forall c: Certificate
      ensures multiset(Given(a))[c] == multiset(Given(b))[c]
    {
      GivenCount(a, c);
      GivenCount(b, c);
    }
  }

  function AllOf(certs: seq<Certificate>): (r: seq<Option<Certificate>>)
    ensures AllGiven(r) && Given(r) == certs
  {
    seq(|certs|, i requires 0 <= i < |certs| => Some(certs[i]))
  }

  /** The canonical form does not depend on the order in which certificates are supplied, and
      normalising it again changes nothing. */
  lemma NormalizedCanonical(a: seq<Option<Certificate>>, b: seq<Option<Certificate>>)
    requires multiset(a) == multiset(b) && Normalized(a).Ok?
    ensures Normalized(b) == Normalized(a)
    ensures Normalized(AllOf(Normalized(a).value)) == Normalized(a)
  {
    hide Normalized, DistinctRaw;
    NormalizedMeaning(a);
    GivenPermutes(a, b);
    SameNormal(a, b);
    SameNormal(a, AllOf(Normalized(a).value));
  }

  lemma SameNormal(a: seq<Option<Certificate>>, b: seq<Option<Certificate>>)
    requires Normalized(a).Ok? && AllGiven(a) && AllGiven(b) && multiset(Given(a)) == multiset(Given(b))
    ensures Normalized(b) == Normalized(a)
  {
    hide Normalized, TrustAnchor;
    NormalizedMeaning(a);
    MultisetPreservesDistinct(Given(a), Given(b));
    SameMembers(Given(a), Given(b));
    assert |Given(a)| == |multiset(Given(a))| == |multiset(Given(b))| == |Given(b)|;
    forall i | 0 <= i < |b|
      ensures TrustAnchor(b[i].value)
    {
      assert Given(b)[i] in Given(a);
    }
    NormalizedMeaning(b);
    var x, y := Normalized(a).value, Normalized(b).value;
    SameMembers(x, y);
    StrictlySortedUnique(x, y);
    NormalizedIsOk(a, b);
  }

  lemma NormalizedIsOk(a: seq<Option<Certificate>>, b: seq<Option<Certificate>>)
    requires Normalized(a).Ok? && Normalized(b).Ok? && Normalized(a).value == Normalized(b).value
    ensures Normalized(a) == Normalized(b)
  {
    hide Normalized;
  }

  // ----- buildTrustBundle -----

  predicate Trusted(s: AuthorityState, g: int, now: Instant)
    requires g in s.roots
  {
    || g == s.activeRoot
    || (s.pending.Some? && g == s.pending.value.rootGeneration)
    || s.roots[g].retiredTrustUntil > now
  }

  function TrustedGenerations(s: AuthorityState, now: Instant): set<int> {
    set g | g in s.roots && Trusted(s, g, now)
  }

  ghost predicate IsBundleOf(s: AuthorityState, now: Instant, bundle: seq<Certificate>) {
    && StrictlySorted(bundle)
    && (forall c :: c in bundle <==> exists g :: g in TrustedGenerations(s, now) && s.roots[g].certificate == c)
  }

  /** Whatever order the roots map is walked in, a valid document has exactly one bundle: the
      certificates of its trusted generations, strictly sorted. */
  method BuildTrustBundle(s: AuthorityState, now: Instant) returns (r: Result<seq<Certificate>>)
    requires Inv(s)
    ensures r.Ok? && IsBundleOf(s, now, r.value) && |r.value| == |TrustedGenerations(s, now)| >= 1
  {
    hide Inv, IsBundleOf, Normalized;
    var certificates: seq<Certificate> := [];
    var todo: set<int> := s.roots.Keys;
    ghost var chosen: seq<int> := [];
    while todo != {}
      invariant todo <= s.roots.Keys
      invariant |chosen| == |certificates|
      invariant forall i :: 0 <= i < |chosen| ==> chosen[i] in s.roots.Keys - todo && Trusted(s, chosen[i], now) && certificates[i] == s.roots[chosen[i]].certificate
      invariant forall i, j :: 0 <= i < j < |chosen| ==> chosen[i] != chosen[j]
      invariant forall g :: g in s.roots.Keys - todo && Trusted(s, g, now) ==> g in chosen
      decreases |todo|
    {
      ghost var some := SomeMember(todo);
      var g :| g in todo;
      todo := todo - {g};
      if !(g != s.activeRoot && (s.pending.None? || g != s.pending.value.rootGeneration) && s.roots[g].retiredTrustUntil <= now) {
        certificates := certificates + [s.roots[g].certificate];
        chosen := chosen + [g];
      }
    }
    ChosenBundle(s, now, chosen, certificates);
    r := NormalizeTrustCertificates(AllOf(certificates));
  }

  /** The roots that a walk of the map has chosen, in the order of the walk. */
  ghost predicate Chosen(s: AuthorityState, now: Instant, chosen: seq<int>, certificates: seq<Certificate>) {
    && |chosen| == |certificates|
    && (forall i :: 0 <= i < |chosen| ==>
          chosen[i] in TrustedGenerations(s, now) && certificates[i] == s.roots[chosen[i]].certificate)
    && (forall i, j :: 0 <= i < j < |chosen| ==> chosen[i] != chosen[j])
    && (forall g :: g in TrustedGenerations(s, now) ==> g in chosen)
  }

  lemma RootIsAnchor(s: AuthorityState, g: int)
    requires Inv(s) && g in s.roots
    ensures TrustAnchor(s.roots[g].certificate)
  {
    hide IssuerInv, PendingInv;
    assert RootInv(s, g);
  }

  lemma ChosenNormalizes(s: AuthorityState, now: Instant, chosen: seq<int>, certificates: seq<Certificate>)
    requires Inv(s) && Chosen(s, now, chosen, certificates)
    ensures Normalized(AllOf(certificates)).Ok?
  {
    hide RootInv, IssuerInv, PendingInv, TrustAnchor, Normalized, Trusted;
    assert s.activeRoot in TrustedGenerations(s, now) by {
      ActiveIsTrusted(s, now);
    }
    forall i | 0 <= i < |certificates|
      ensures TrustAnchor(certificates[i])
    {
      RootIsAnchor(s, chosen[i]);
    }
    NormalizedMeaning(AllOf(certificates));
  }

  lemma ActiveIsTrusted(s: AuthorityState, now: Instant)
    requires Inv(s)
    ensures s.activeRoot in TrustedGenerations(s, now)
  {
    hide RootInv, IssuerInv, PendingInv;
  }

  lemma ChosenMembers(s: AuthorityState, now: Instant, chosen: seq<int>, certificates: seq<Certificate>, c: Certificate)
    requires Chosen(s, now, chosen, certificates)
    ensures c in certificates <==> exists g :: g in TrustedGenerations(s, now) && s.roots[g].certificate == c
  {
    hide Trusted;
    if c in certificates {
      var i :| 0 <= i < |certificates| && certificates[i] == c;
      assert chosen[i] in TrustedGenerations(s, now);
    }
    if g :| g in TrustedGenerations(s, now) && s.roots[g].certificate == c {
      var i :| 0 <= i < |chosen| && chosen[i] == g;
      assert certificates[i] in certificates;
    }
  }

  lemma ChosenBundle(s: AuthorityState, now: Instant, chosen: seq<int>, certificates: seq<Certificate>)
    requires Inv(s) && Chosen(s, now, chosen, certificates)
    ensures Normalized(AllOf(certificates)).Ok? && IsBundleOf(s, now, Normalized(AllOf(certificates)).value)
    ensures |Normalized(AllOf(certificates)).value| == |TrustedGenerations(s, now)| >= 1
  {
    hide Inv, Normalized, TrustAnchor, DistinctRaw, Trusted;
    ChosenNormalizes(s, now, chosen, certificates);
    NormalizedMeaning(AllOf(certificates));
    var bundle := Normalized(AllOf(certificates)).value;
    SameMembers(bundle, certificates);
    forall c
      ensures c in bundle <==> exists g :: g in TrustedGenerations(s, now) && s.roots[g].certificate == c
    {
      ChosenMembers(s, now, chosen, certificates, c);
    }
    DistinctCount(chosen, TrustedGenerations(s, now));
    assert |bundle| == |multiset(bundle)| == |multiset(certificates)| == |certificates|;
    ActiveIsTrusted(s, now);
  }

  /** There is only one bundle to build, so two walks of the map cannot differ. */
  lemma BundleUnique(s: AuthorityState, now: Instant, a: seq<Certificate>, b: seq<Certificate>)
    requires IsBundleOf(s, now, a) && IsBundleOf(s, now, b)
    ensures a == b
  {
    StrictlySortedUnique(a, b);
  }
}
