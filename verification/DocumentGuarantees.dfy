/** What a document that validateState accepts holds, field by field, and which faults are reported as
    drift, as corruption and as an unknown format (certs/validate.go). */
module DocumentGuarantees {
  import opened Wrappers
  import opened Certificates
  import opened Policy
  import opened Authority
  import opened Validation
  import Text

  // ----- one root -----

  predicate RootShaped(s: AuthorityState, g: int)
    requires g in s.roots
  {
    var r := s.roots[g];
    var c := r.certificate;
    && r.generation == g
    && c.isCA && c.basicConstraintsValid && c.maxPathLen == 1 && {CertSign, CRLSign} <= c.usage
    && c.signedBy == c.publicKey
  }

  /** A key is stored with the active root and with a pending one, and with no other. */
  predicate RootKeyed(s: AuthorityState, g: int)
    requires g in s.roots
  {
    s.roots[g].key.Some? <==>
      g == s.activeRoot || (s.pending.Some? && s.pending.value.kind == PendingRoot && s.pending.value.rootGeneration == g)
  }

  /** The subject is the configured identity under the name of the generation. */
  predicate RootNamed(s: AuthorityState, g: int)
    requires g in s.roots
  {
    var n := s.roots[g].certificate.subject;
    && n.commonName == s.spec.name + " G" + Text.Itoa(g) + " Root CA"
    && n.organization == s.spec.identity.organization && n.organizationalUnit == s.spec.identity.organizationalUnit
    && n.country == s.spec.identity.country && n.province == s.spec.identity.province
    && n.locality == s.spec.identity.locality && s.spec.identity.commonName == ""
  }

  predicate RootPrinted(s: AuthorityState, g: int)
    requires g in s.roots
  {
    s.roots[g].fingerprint == s.roots[g].certificate.raw
  }

  lemma RootExactly(s: AuthorityState, g: int)
    requires g in s.roots
    ensures ValidRoot(s, g) <==> RootShaped(s, g) && RootPrinted(s, g) && RootKeyed(s, g) && RootNamed(s, g)
    ensures RootError(s, g) == Some(Drift) <==>
            RootShaped(s, g) && (!RootPrinted(s, g) || (RootKeyed(s, g) && !RootNamed(s, g)))
    ensures RootError(s, g) == Some(Corrupt) <==> !RootShaped(s, g) || (RootPrinted(s, g) && !RootKeyed(s, g))
  {
    var c := s.roots[g].certificate;
    assert {CertSign, CRLSign} <= c.usage <==> CertSign in c.usage && CRLSign in c.usage;
    var n, i := c.subject, s.spec.identity;
    assert n.(commonName := "") == i <==>
      n.organization == i.organization && n.organizationalUnit == i.organizationalUnit && n.country == i.country
      && n.province == i.province && n.locality == i.locality && i.commonName == "";
  }

  // ----- one issuer version -----

  predicate VersionShaped(s: AuthorityState, slug: Slug, version: int)
    requires slug in s.issuers && version in s.issuers[slug].versions
  {
    var v := s.issuers[slug].versions[version];
    var c := v.certificate;
    && v.version == version && v.rootGeneration in s.roots
    && var root := s.roots[v.rootGeneration].certificate;
       && root.isCA && root.basicConstraintsValid && CertSign in root.usage && c.signedBy == root.publicKey
       && c.isCA && c.basicConstraintsValid && c.maxPathLen == 0 && CertSign in c.usage
  }

  predicate VersionNamed(s: AuthorityState, slug: Slug, version: int)
    requires slug in s.issuers && version in s.issuers[slug].versions
  {
    var v := s.issuers[slug].versions[version];
    v.certificate.subject.commonName
    == s.spec.name + " G" + Text.Itoa(v.rootGeneration) + " " + s.issuers[slug].definition.name + " Issuer V" + Text.Itoa(version)
  }

  predicate VersionPrinted(s: AuthorityState, slug: Slug, version: int)
    requires slug in s.issuers && version in s.issuers[slug].versions
  {
    s.issuers[slug].versions[version].fingerprint == s.issuers[slug].versions[version].certificate.raw
  }

  /** It ends at least five minutes before its root. */
  predicate VersionNested(s: AuthorityState, slug: Slug, version: int)
    requires slug in s.issuers && version in s.issuers[slug].versions
  {
    var v := s.issuers[slug].versions[version];
    v.rootGeneration in s.roots && v.certificate.notAfter + 300_000_000_000 <= s.roots[v.rootGeneration].certificate.notAfter
  }

  /** A key is stored with the active version and with the one that the manifest names; a manifest
      that does not name the issuer reads as version 0. */
  predicate VersionKeyed(s: AuthorityState, slug: Slug, version: int)
    requires slug in s.issuers && version in s.issuers[slug].versions
  {
    s.issuers[slug].versions[version].key.Some? <==>
      || version == s.issuers[slug].activeVersion
      || (s.pending.Some? && slug in s.pending.value.issuers && s.pending.value.issuers[slug] == version)
      || (s.pending.Some? && slug !in s.pending.value.issuers && version == 0)
  }

  lemma VersionExactly(s: AuthorityState, slug: Slug, version: int)
    requires slug in s.issuers && version in s.issuers[slug].versions
    ensures ValidVersion(s, slug, version) <==>
            && VersionShaped(s, slug, version) && VersionNamed(s, slug, version) && VersionPrinted(s, slug, version)
            && VersionNested(s, slug, version) && VersionKeyed(s, slug, version)
    ensures VersionError(s, slug, version) == Some(Drift) <==>
            VersionShaped(s, slug, version) && !(VersionNamed(s, slug, version) && VersionPrinted(s, slug, version))
    ensures VersionError(s, slug, version) == Some(Corrupt) <==>
            || !VersionShaped(s, slug, version)
            || (VersionNamed(s, slug, version) && VersionPrinted(s, slug, version)
                && !(VersionNested(s, slug, version) && VersionKeyed(s, slug, version)))
  {
  }

  // ----- the whole document -----

  /** A definition as validateDefinition leaves it: named, under its slug, with a validity and with
      profiles that do not repeat. */
  predicate Defined(d: IssuerDefinition) {
    && d.name != "" && |d.slug| == |d.name|
    && (forall i :: 0 <= i < |d.name| ==>
          d.slug[i] == if d.name[i] == ' ' then '-'
                       else if 'A' <= d.name[i] <= 'Z' then d.name[i] - 'A' + 'a' else d.name[i])
    && d.validity > 0
    && d.allowedProfiles != []
    && forall i, j :: 0 <= i < |d.allowedProfiles| && 0 <= j < |d.allowedProfiles| && i != j ==> d.allowedProfiles[i] != d.allowedProfiles[j]
  }

  predicate IssuerStored(s: AuthorityState, slug: Slug)
    requires slug in s.issuers
  {
    var i := s.issuers[slug];
    && i.definition.slug == slug && Defined(i.definition)
    && i.activeVersion > 0 && i.activeVersion in i.versions
    && (forall v :: v in i.versions ==>
          && VersionShaped(s, slug, v) && VersionNamed(s, slug, v) && VersionPrinted(s, slug, v)
          && VersionNested(s, slug, v) && VersionKeyed(s, slug, v))
    && var active := i.versions[i.activeVersion];
       active.rootGeneration == s.activeRoot && active.key.Some? && active.key.value == active.certificate.publicKey
  }

  /** A manifest was made on this or an earlier revision and names versions that are there; one for a
      root names one that is there and as many issuers as there are. */
  predicate ManifestStored(s: AuthorityState, p: Pending) {
    && p.expectedRevision <= s.revision
    && (forall slug :: slug in p.issuers ==> slug in s.issuers && p.issuers[slug] in s.issuers[slug].versions)
    && (p.kind == PendingRoot ==> p.rootGeneration in s.roots && |p.issuers| == |s.issuers|)
  }

  lemma DefinedExactly(d: IssuerDefinition)
    ensures ValidDefinition(d) <==> Defined(d)
  {
    if ValidDefinition(d) {
      assert |SlugOf(d.name)| == |d.name|;
    }
    if Defined(d) {
      assert d.slug == SlugOf(d.name);
      forall i, j | 0 <= i < j < |d.allowedProfiles|
        ensures d.allowedProfiles[i] != d.allowedProfiles[j]
      {
      }
    }
  }

  lemma IssuerExactly(s: AuthorityState, slug: Slug)
    requires slug in s.issuers
    ensures ValidIssuer(s, slug) <==> IssuerStored(s, slug)
  {
    DefinedExactly(s.issuers[slug].definition);
    forall v | v in s.issuers[slug].versions
      ensures ValidVersion(s, slug, v) <==>
              && VersionShaped(s, slug, v) && VersionNamed(s, slug, v) && VersionPrinted(s, slug, v)
              && VersionNested(s, slug, v) && VersionKeyed(s, slug, v)
    {
      VersionExactly(s, slug, v);
    }
    hide ValidVersion, VersionShaped, VersionNamed, VersionPrinted, VersionNested, VersionKeyed, ValidDefinition, Defined;
  }

  /** validateState accepts a document exactly when all of this holds of it. */
  lemma ValidExactly(s: AuthorityState)
    ensures ValidState(s) <==>
            && s.spec.id != "" && s.spec.name != "" && s.spec.formatVersion == 1
            && s.activeRoot > 0 && s.activeRoot in s.roots
            && (forall g :: g in s.roots ==> RootShaped(s, g) && RootPrinted(s, g) && RootKeyed(s, g) && RootNamed(s, g))
            && (forall slug :: slug in s.issuers ==> IssuerStored(s, slug))
            && (s.pending.Some? ==> ManifestStored(s, s.pending.value))
  {
    forall g | g in s.roots
      ensures ValidRoot(s, g) <==> RootShaped(s, g) && RootPrinted(s, g) && RootKeyed(s, g) && RootNamed(s, g)
    {
      RootExactly(s, g);
    }
    forall slug | slug in s.issuers
      ensures ValidIssuer(s, slug) <==> IssuerStored(s, slug)
    {
      IssuerExactly(s, slug);
    }
    hide ValidRoot, ValidIssuer, RootShaped, RootPrinted, RootKeyed, RootNamed, IssuerStored;
  }

  /** Everything that any issuer version needs but its name and its fingerprint. */
  predicate SomeVersionDrifts(s: AuthorityState, slug: Slug)
    requires slug in s.issuers
  {
    exists v :: v in s.issuers[slug].versions && VersionShaped(s, slug, v)
      && !(VersionNamed(s, slug, v) && VersionPrinted(s, slug, v))
  }

  predicate SomeRootDrifts(s: AuthorityState) {
    exists g :: g in s.roots && RootShaped(s, g) && (!RootPrinted(s, g) || (RootKeyed(s, g) && !RootNamed(s, g)))
  }

  predicate RootsStored(s: AuthorityState) {
    forall g :: g in s.roots ==> RootShaped(s, g) && RootPrinted(s, g) && RootKeyed(s, g) && RootNamed(s, g)
  }

  /** The identification of an issuer, which is checked before its versions. */
  predicate IssuerIdentified(s: AuthorityState, slug: Slug)
    requires slug in s.issuers
  {
    var i := s.issuers[slug];
    i.definition.slug == slug && Defined(i.definition) && i.activeVersion > 0 && i.activeVersion in i.versions
  }

  /** The format is unknown exactly when an identified document has another version; drift is
      reported for a name or a fingerprint that does not match, of a root, or of an issuer version once
      the roots are in order; every other fault is corruption. */
  lemma FaultsExactly(s: AuthorityState)
    ensures Unavailable in StateErrors(s) <==> s.spec.id != "" && s.spec.formatVersion != 1
    ensures Drift in StateErrors(s) <==>
            && s.spec.id != "" && s.spec.formatVersion == 1 && s.spec.name != "" && s.activeRoot > 0 && s.activeRoot in s.roots
            && (SomeRootDrifts(s)
                || (RootsStored(s) && exists slug :: slug in s.issuers && IssuerIdentified(s, slug) && SomeVersionDrifts(s, slug)))
  {
    forall g | g in s.roots
      ensures RootError(s, g).None? <==> RootShaped(s, g) && RootPrinted(s, g) && RootKeyed(s, g) && RootNamed(s, g)
      ensures RootError(s, g) == Some(Drift) <==> RootShaped(s, g) && (!RootPrinted(s, g) || (RootKeyed(s, g) && !RootNamed(s, g)))
      ensures RootError(s, g).Some? ==> RootError(s, g).value in {Corrupt, Drift}
    {
      RootExactly(s, g);
    }
    forall slug | slug in s.issuers
      ensures Drift in IssuerErrors(s, slug) <==> IssuerIdentified(s, slug) && SomeVersionDrifts(s, slug)
      ensures Unavailable !in IssuerErrors(s, slug)
    {
      IssuerFaults(s, slug);
    }
    hide RootError, RootShaped, RootPrinted, RootKeyed, RootNamed, IssuerErrors, IssuerIdentified, SomeVersionDrifts, ValidPending, ValidRoot;
    RootFaults(s);
    if slug :| slug in s.issuers && IssuerIdentified(s, slug) && SomeVersionDrifts(s, slug) {
      assert Drift in AllIssuerErrors(s);
    }
    if Drift in AllIssuerErrors(s) {
      var slug :| slug in s.issuers && Drift in IssuerErrors(s, slug);
    }
    assert Unavailable !in AllIssuerErrors(s);
  }

  lemma RootFaults(s: AuthorityState)
    ensures Drift in RootErrors(s) <==> SomeRootDrifts(s)
    ensures RootErrors(s) == {} <==> RootsStored(s)
    ensures Unavailable !in RootErrors(s)
  {
    forall g | g in s.roots
      ensures RootError(s, g).None? <==> RootShaped(s, g) && RootPrinted(s, g) && RootKeyed(s, g) && RootNamed(s, g)
      ensures RootError(s, g) == Some(Drift) <==> RootShaped(s, g) && (!RootPrinted(s, g) || (RootKeyed(s, g) && !RootNamed(s, g)))
      ensures RootError(s, g).Some? ==> RootError(s, g).value in {Corrupt, Drift}
      ensures RootError(s, g).Some? ==> RootError(s, g).value in RootErrors(s)
    {
      RootExactly(s, g);
    }
    hide RootError, RootShaped, RootPrinted, RootKeyed, RootNamed, ValidRoot;
    if RootErrors(s) != {} {
      var e :| e in RootErrors(s);
      var g :| g in s.roots && RootError(s, g) == Some(e);
    }
    if Drift in RootErrors(s) {
      var g :| g in s.roots && RootError(s, g) == Some(Drift);
    }
  }

  lemma IssuerFaults(s: AuthorityState, slug: Slug)
    requires slug in s.issuers
    ensures Drift in IssuerErrors(s, slug) <==> IssuerIdentified(s, slug) && SomeVersionDrifts(s, slug)
    ensures Unavailable !in IssuerErrors(s, slug)
  {
    DefinedExactly(s.issuers[slug].definition);
    IssuerErrorsKnown(s, slug);
    forall v | v in s.issuers[slug].versions
      ensures VersionError(s, slug, v) == Some(Drift) <==>
              VersionShaped(s, slug, v) && !(VersionNamed(s, slug, v) && VersionPrinted(s, slug, v))
    {
      VersionExactly(s, slug, v);
    }
    hide VersionError, VersionShaped, VersionNamed, VersionPrinted, ValidDefinition, Defined, ActiveFits;
    if v :| v in s.issuers[slug].versions && VersionError(s, slug, v) == Some(Drift) {
      assert Drift in (set v | v in s.issuers[slug].versions && VersionError(s, slug, v).Some? :: VersionError(s, slug, v).value);
    }
  }

  // ----- load -----

  /** load gives back a document exactly when one is there and valid, and says of a missing one that
      it was not found. */
  lemma ReadExactly(document: Option<AuthorityState>)
    ensures document.None? ==> ReadDocument(document) == Err(NotFound)
    ensures document.Some? && ValidState(document.value) ==> ReadDocument(document) == Ok(document.value)
    ensures document.Some? && !ValidState(document.value) ==>
            ReadDocument(document).Err? && ReadDocument(document).error in StateErrors(document.value)
  {
    if document.Some? {
      StateErrorsMeaning(document.value);
    }
  }
}
