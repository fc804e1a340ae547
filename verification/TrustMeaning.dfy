/** Which certificates a trust set accepts and holds, said of their fields and of the document
    (certs/trust_bundle.go, certs/trust.go). */
module TrustMeaning {
  import opened Wrappers
  import opened Certificates
  import opened Authority
  import opened AuthorityInvariant
  import opened TrustBundle

  /** A self-signed certificate of a CA that may sign certificates. */
  predicate SelfSignedCA(c: Certificate) {
    && c.isCA && c.basicConstraintsValid && CertSign in c.usage
    && c.subject == c.issuer && c.signedBy == c.publicKey
  }

  /** The certificate at i is the first that cannot be taken. */
  predicate FirstRefused(certs: seq<Option<Certificate>>, i: int) {
    && 0 <= i < |certs|
    && Refused(certs, i)
    && forall j :: 0 <= j < i ==> !Refused(certs, j)
  }

  predicate Refused(certs: seq<Option<Certificate>>, i: int)
    requires 0 <= i < |certs|
  {
    certs[i].None? || !SelfSignedCA(certs[i].value) || exists j :: 0 <= j < i && certs[j].Some? && certs[j].value.raw == certs[i].value.raw
  }

  /** The first certificate that cannot be taken decides the error. */
  ghost predicate RefusedWith(certs: seq<Option<Certificate>>, e: Error) {
    exists i :: FirstRefused(certs, i)
      && e == if certs[i].None? then Corrupt else if !SelfSignedCA(certs[i].value) then Validation else Conflict
  }

  lemma {:induction false} CheckedExactly(certs: seq<Option<Certificate>>)
    ensures var r := CheckTrust(certs);
            && (r.Ok? <==> forall i :: 0 <= i < |certs| ==> !Refused(certs, i))
            && (r.Err? ==> RefusedWith(certs, r.error))
  {
    if certs == [] {
    } else {
      var init, n := certs[..|certs| - 1], |certs| - 1;
      CheckedExactly(init);
      forall i | 0 <= i < n
        ensures Refused(init, i) <==> Refused(certs, i)
      {
      }
      if CheckTrust(init).Err? {
        var i :| FirstRefused(init, i)
          && CheckTrust(init).error == if init[i].None? then Corrupt else if !SelfSignedCA(init[i].value) then Validation else Conflict;
        assert FirstRefused(certs, i);
      } else if CheckTrust(certs).Err? {
        assert FirstRefused(certs, n);
      }
    }
  }

  /** A trust set is made exactly from one or more certificates that are all there, all self-signed CA
      certificates and all different; the first that is not decides the error, and none at all is
      invalid. What is made holds the same certificates in the order of their bytes. */
  lemma NormalizedExactly(certs: seq<Option<Certificate>>)
    ensures var r := Normalized(certs);
            && (r.Ok? <==> certs != [] && forall i :: 0 <= i < |certs| ==> !Refused(certs, i))
            && (r.Err? && certs == [] ==> r.error == Validation)
            && (r.Err? && certs != [] ==> RefusedWith(certs, r.error))
            && (r.Ok? ==>
                  && |r.value| == |certs|
                  && (forall c :: c in r.value <==> Some(c) in certs)
                  && forall i, j :: 0 <= i < j < |r.value| ==> r.value[i].raw < r.value[j].raw)
  {
    CheckedExactly(certs);
    hide CheckTrust, Refused;
    if Normalized(certs).Ok? {
      NormalizedMeaning(certs);
      SameMembers(Normalized(certs).value, Given(certs));
      assert |Normalized(certs).value| == |multiset(Normalized(certs).value)| == |multiset(Given(certs))| == |certs|;
      forall c: Certificate
        ensures c in Given(certs) <==> Some(c) in certs
      {
        if Some(c) in certs {
          var i :| 0 <= i < |certs| && certs[i] == Some(c);
          assert Given(certs)[i] == c;
        }
      }
      hide Normalized, TrustAnchor;
    }
  }

  /** The bundle of a document: the active root, a pending one, and each retired root whose window
      has not ended, in the order of their bytes and nothing else. */
  lemma BundleExactly(s: AuthorityState, now: Instant, bundle: seq<Certificate>)
    requires Inv(s)
    ensures IsBundleOf(s, now, bundle) <==>
            && (forall i, j :: 0 <= i < j < |bundle| ==> bundle[i].raw < bundle[j].raw)
            && (forall c :: c in bundle <==>
                  exists g :: g in s.roots && s.roots[g].certificate == c
                    && (g == s.activeRoot
                        || (s.pending.Some? && s.pending.value.kind == PendingRoot && g == s.activeRoot + 1)
                        || s.roots[g].retiredTrustUntil > now))
  {
    hide RootInv, IssuerInv;
    forall g | g in s.roots
      ensures g in TrustedGenerations(s, now) <==>
              || g == s.activeRoot
              || (s.pending.Some? && s.pending.value.kind == PendingRoot && g == s.activeRoot + 1)
              || s.roots[g].retiredTrustUntil > now
    {
    }
    hide Trusted, Inv, TrustedGenerations;
    assert forall g :: g in TrustedGenerations(s, now) ==> g in s.roots by {
      Generations(s, now);
    }
  }

  lemma Generations(s: AuthorityState, now: Instant)
    ensures forall g :: g in TrustedGenerations(s, now) ==> g in s.roots
  {
  }
}
