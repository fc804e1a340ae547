/** When each authority operation succeeds, how it fails, and what the document then holds, said of
    its fields and of instants (certs/authority.go, certs/authority_operations.go). */
module AuthorityOutcomes {
  import opened Wrappers
  import opened Certificates
  import opened Policy
  import opened Authority
  import opened AuthorityInvariant
  import opened AuthorityEffects
  import opened MadeRecords
  import Lifecycle
  import FileStores
  import Validation

  // ----- assertSpec and the signer -----

  /** The configuration sets nothing that the document has otherwise; identities count as the texts
      of their fields. */
  predicate Agrees(cfg: ManagerConfig, spec: AuthoritySpec) {
    && spec.backend == "file"
    && (cfg.authorityName.None? || cfg.authorityName.value == spec.name)
    && (cfg.mode.None? || cfg.mode.value == spec.mode)
    && (cfg.rootValidity.None? || cfg.rootValidity.value == spec.rootValidity)
    && (cfg.identity.None?
        || var x, y := cfg.identity.value, spec.identity;
           x.organization + " " + x.organizationalUnit + " " + x.country + " " + x.province + " " + x.locality + " " + x.commonName
           == y.organization + " " + y.organizationalUnit + " " + y.country + " " + y.province + " " + y.locality + " " + y.commonName)
  }

  lemma AssertedExactly(s: AuthorityState, cfg: ManagerConfig)
    ensures AssertSpec(s, cfg) == if Agrees(cfg, s.spec) then Ok(()) else Err(Drift)
  {
  }

  /** On a reachable document the active root's key is usable with the right secret and with no other. */
  lemma SignerExactly(s: AuthorityState, secret: Secret)
    requires Inv(s)
    ensures s.activeRoot in s.roots
    ensures var r := ActiveRootSigner(s, secret);
            match secret
            case Missing => r == Err(NotFound)
            case Wrong => r == Err(Validation)
            case Right => r == Ok(s.roots[s.activeRoot].certificate.publicKey)
  {
    assert RootInv(s, s.activeRoot);
  }

  // ----- adding configured issuers -----

  /** A configured issuer is there as configured, or it is not there and fits under the active root. */
  predicate Addable(s: AuthorityState, d: IssuerDefinition, now: Instant)
    requires s.activeRoot in s.roots
  {
    if d.slug in s.issuers then s.issuers[d.slug].definition == d else FitsUnder(d, s.roots[s.activeRoot].certificate, now)
  }

  /** t is s with new issuers for the definitions that it did not have. */
  ghost predicate Extended(s: AuthorityState, t: AuthorityState, defs: seq<IssuerDefinition>, now: Instant)
    requires s.activeRoot in s.roots
  {
    && t == s.(issuers := t.issuers)
    && (forall slug :: slug in t.issuers <==> slug in s.issuers || exists i :: 0 <= i < |defs| && defs[i].slug == slug)
    && (forall slug :: slug in s.issuers ==> t.issuers[slug] == s.issuers[slug])
    && (forall i :: 0 <= i < |defs| && defs[i].slug !in s.issuers ==>
          NewIssuer(t.issuers[defs[i].slug], s.spec, s.activeRoot, defs[i], s.roots[s.activeRoot].certificate, now))
  }

  predicate DistinctSlugs(defs: seq<IssuerDefinition>) {
    forall i, j :: 0 <= i < j < |defs| ==> defs[i].slug != defs[j].slug
  }

  predicate SlugsAreKeys(s: AuthorityState) {
    forall slug :: slug in s.issuers ==> s.issuers[slug].definition.slug == slug
  }

  /** The first definition that cannot be added decides the error. */
  ghost predicate FirstRefused(s: AuthorityState, defs: seq<IssuerDefinition>, now: Instant, i: int, e: Error)
    requires s.activeRoot in s.roots
  {
    && 0 <= i < |defs| && !Addable(s, defs[i], now)
    && (forall j :: 0 <= j < i ==> Addable(s, defs[j], now))
    && e == if defs[i].slug in s.issuers then Drift else Validation
  }

  /** One definition, on a document whose slugs are its keys. */
  lemma AddOne(s: AuthorityState, d: IssuerDefinition, secret: Secret, supply: Supply, now: Instant)
    requires s.activeRoot in s.roots && ActiveRootSigner(s, secret) == Ok(s.roots[s.activeRoot].certificate.publicKey)
    requires SlugsAreKeys(s)
    ensures var r := AddIssuer(s, d, secret, supply, now);
            && (r.Ok? <==> Addable(s, d, now))
            && (r.Ok? && d.slug in s.issuers ==> r.value == s)
            && (r.Ok? && d.slug !in s.issuers ==>
                  && d.slug in r.value.issuers
                  && r.value == s.(issuers := s.issuers[d.slug := r.value.issuers[d.slug]])
                  && NewIssuer(r.value.issuers[d.slug], s.spec, s.activeRoot, d, s.roots[s.activeRoot].certificate, now))
            && (r.Err? ==> r.error == if d.slug in s.issuers then Drift else Validation)
  {
    var root := s.roots[s.activeRoot].certificate;
    VersionIsNew(s.spec, s.activeRoot, 1, d, root, now, supply(ForIssuer(d.slug)));
    hide NewVersion, FitsUnder, MakeIssuer, ActiveRootSigner;
  }

  lemma ExtendedByOne(s: AuthorityState, before: AuthorityState, t: AuthorityState, init: seq<IssuerDefinition>,
          d: IssuerDefinition, now: Instant)
    requires s.activeRoot in s.roots && Extended(s, before, init, now)
    requires forall i :: 0 <= i < |init| ==> init[i].slug != d.slug
    requires if d.slug in before.issuers then t == before
             else d.slug in t.issuers && t == before.(issuers := before.issuers[d.slug := t.issuers[d.slug]])
                  && NewIssuer(t.issuers[d.slug], s.spec, s.activeRoot, d, s.roots[s.activeRoot].certificate, now)
    ensures Extended(s, t, init + [d], now)
  {
    hide NewIssuer;
    var defs := init + [d];
    assert defs[|init|] == d;
    assert forall i :: 0 <= i < |init| ==> defs[i] == init[i];
    forall slug
      ensures slug in t.issuers <==> slug in s.issuers || exists i :: 0 <= i < |defs| && defs[i].slug == slug
    {
      if slug in before.issuers && slug !in s.issuers {
        var i :| 0 <= i < |init| && init[i].slug == slug;
        assert defs[i].slug == slug;
      }
      if i :| 0 <= i < |defs| && defs[i].slug == slug {
        if i < |init| {
          assert init[i].slug == slug;
        }
      }
    }
    forall i | 0 <= i < |defs| && defs[i].slug !in s.issuers
      ensures NewIssuer(t.issuers[defs[i].slug], s.spec, s.activeRoot, defs[i], s.roots[s.activeRoot].certificate, now)
    {
      if i < |init| {
        assert init[i].slug in before.issuers;
      }
    }
  }

  lemma ExtendedSlugs(s: AuthorityState, t: AuthorityState, defs: seq<IssuerDefinition>, d: IssuerDefinition, now: Instant)
    requires s.activeRoot in s.roots && SlugsAreKeys(s) && Extended(s, t, defs, now)
    requires forall i :: 0 <= i < |defs| ==> defs[i].slug != d.slug
    ensures SlugsAreKeys(t)
    ensures d.slug in t.issuers <==> d.slug in s.issuers
    ensures Addable(t, d, now) <==> Addable(s, d, now)
  {
    hide NewVersion, FitsUnder;
    forall slug | slug in t.issuers
      ensures t.issuers[slug].definition.slug == slug
    {
      if slug !in s.issuers {
        var i :| 0 <= i < |defs| && defs[i].slug == slug;
      }
    }
  }

  lemma ExtendedIsSame(s: AuthorityState, t: AuthorityState, defs: seq<IssuerDefinition>, secret: Secret, now: Instant)
    requires s.activeRoot in s.roots && Extended(s, t, defs, now)
    ensures t.activeRoot == s.activeRoot && t.roots == s.roots && t.spec == s.spec
    ensures ActiveRootSigner(t, secret) == ActiveRootSigner(s, secret)
  {
    hide NewIssuer;
  }

  lemma {:induction false} AddedExactly(s: AuthorityState, defs: seq<IssuerDefinition>, secret: Secret, supply: Supply, now: Instant)
    requires s.activeRoot in s.roots && ActiveRootSigner(s, secret) == Ok(s.roots[s.activeRoot].certificate.publicKey)
    requires SlugsAreKeys(s) && DistinctSlugs(defs)
    ensures var r := AddIssuers(s, defs, secret, supply, now);
            && (r.Ok? <==> forall i :: 0 <= i < |defs| ==> Addable(s, defs[i], now))
            && (r.Ok? ==> Extended(s, r.value, defs, now))
            && (r.Err? ==> exists i :: FirstRefused(s, defs, now, i, r.error))
  {
    hide AddIssuer, Addable, SlugsAreKeys, ActiveRootSigner, NewIssuer;
    if defs == [] {
    } else {
      hide Extended;
      var init, d := defs[..|defs| - 1], defs[|defs| - 1];
      assert init + [d] == defs;
      assert forall i :: 0 <= i < |init| ==> init[i] == defs[i];
      AddedExactly(s, init, secret, supply, now);
      var before := AddIssuers(s, init, secret, supply, now);
      if before.Ok? {
        ExtendedSlugs(s, before.value, init, d, now);
        ExtendedIsSame(s, before.value, init, secret, now);
        AddOne(before.value, d, secret, supply, now);
        if AddIssuer(before.value, d, secret, supply, now).Ok? {
          ExtendedByOne(s, before.value, AddIssuer(before.value, d, secret, supply, now).value, init, d, now);
        }
        if AddIssuers(s, defs, secret, supply, now).Err? {
          assert FirstRefused(s, defs, now, |init|, AddIssuers(s, defs, secret, supply, now).error);
        }
      } else {
        var i :| FirstRefused(s, init, now, i, before.error);
        assert FirstRefused(s, defs, now, i, before.error);
      }
    }
  }

  // ----- staging successors -----

  /** j is i with one more version after the active one, new under the given root. */
  predicate Succeeded(i: IssuerRecord, j: IssuerRecord, spec: AuthoritySpec, generation: int, root: Certificate, now: Instant) {
    var n := i.activeVersion + 1;
    && n in j.versions
    && j == i.(versions := i.versions[n := j.versions[n]])
    && NewVersion(j.versions[n], spec, generation, i.definition, n, root, now)
  }

  /** The issuers of t are those of s, and the due ones have their successors. */
  predicate AllSucceeded(s: AuthorityState, t: AuthorityState, due: set<Slug>, generation: int, root: Certificate, now: Instant) {
    && t.issuers.Keys == s.issuers.Keys
    && forall slug :: slug in s.issuers ==>
         if slug in due then Succeeded(s.issuers[slug], t.issuers[slug], s.spec, generation, root, now)
         else t.issuers[slug] == s.issuers[slug]
  }

  lemma StagedExactly(s: AuthorityState, due: set<Slug>, generation: int, root: Certificate, supply: Supply, now: Instant)
    requires due <= s.issuers.Keys
    ensures var r := StageIssuers(s, due, generation, root, root.publicKey, supply, now);
            && (r.Ok? <==> forall slug :: slug in due ==> FitsUnder(s.issuers[slug].definition, root, now))
            && (r.Ok? ==> r.value == s.(issuers := r.value.issuers) && AllSucceeded(s, r.value, due, generation, root, now))
            && (r.Err? ==> r.error == Validation)
  {
    forall slug | slug in due
      ensures var r := Successor(s, slug, generation, root, root.publicKey, supply, now);
              && (r.Ok? <==> FitsUnder(s.issuers[slug].definition, root, now))
              && (r.Ok? ==> NewVersion(r.value, s.spec, generation, s.issuers[slug].definition, s.issuers[slug].activeVersion + 1, root, now))
    {
      VersionIsNew(s.spec, generation, s.issuers[slug].activeVersion + 1, s.issuers[slug].definition, root, now, supply(ForIssuer(slug)));
    }
    hide Successor, FitsUnder, NewVersion;
  }

  /** What a manifest says: when it was made, on which revision, and one version further for each
      issuer in due. */
  predicate ManifestOf(p: Pending, s: AuthorityState, kind: PendingKind, generation: int, due: set<Slug>, now: Instant)
    requires due <= s.issuers.Keys
  {
    && p.kind == kind && p.expectedRevision == s.revision && p.createdAt == now && p.rootGeneration == generation
    && p.issuers.Keys == due
    && forall slug :: slug in due ==> p.issuers[slug] == s.issuers[slug].activeVersion + 1
  }

  /** A prepared root: the next generation is there, every issuer has a version signed by it, and
      nothing else has changed. */
  ghost predicate RootPrepared(s: AuthorityState, t: AuthorityState, now: Instant) {
    var g := s.activeRoot + 1;
    && g in t.roots && NewRoot(t.roots[g], s.spec, g, now)
    && t == s.(roots := s.roots[g := t.roots[g]], issuers := t.issuers, pending := t.pending)
    && AllSucceeded(s, t, s.issuers.Keys, g, t.roots[g].certificate, now)
    && t.pending.Some? && ManifestOf(t.pending.value, s, PendingRoot, g, s.issuers.Keys, now)
  }

  /** Prepared issuers: those in due have a new version under the active root. */
  ghost predicate IssuersPrepared(s: AuthorityState, t: AuthorityState, due: set<Slug>, now: Instant)
    requires s.activeRoot in s.roots && due <= s.issuers.Keys
  {
    && t == s.(issuers := t.issuers, pending := t.pending)
    && AllSucceeded(s, t, due, s.activeRoot, s.roots[s.activeRoot].certificate, now)
    && t.pending.Some? && ManifestOf(t.pending.value, s, PendingIssuer, 0, due, now)
  }

  /** The validity ends at least five minutes before a root made now would. */
  predicate FitsNextRoot(d: IssuerDefinition, spec: AuthoritySpec, now: Instant) {
    var end := now + spec.rootValidity;
    now + d.validity + 300_000_000_000 <= end - end % 1_000_000_000
  }

  lemma FitsMadeRoot(d: IssuerDefinition, spec: AuthoritySpec, generation: int, now: Instant, m: Material)
    ensures FitsUnder(d, MakeRoot(spec, generation, now, m).certificate, now) <==> FitsNextRoot(d, spec, now)
  {
  }

  lemma PreparedRootExactly(s: AuthorityState, supply: Supply, now: Instant)
    requires Inv(s) && s.pending.None?
    ensures var r := PrepareRoot(s, supply, now);
            && (r.Ok? <==> forall slug :: slug in s.issuers ==> FitsNextRoot(s.issuers[slug].definition, s.spec, now))
            && (r.Ok? ==> RootPrepared(s, r.value, now))
            && (r.Err? ==> r.error == Validation)
  {
    hide Inv, MakeRoot, NewRoot, StageIssuers, FitsUnder, FitsNextRoot, Succeeded, NextGeneration;
    NextGenerationIsNext(s);
    var g := s.activeRoot + 1;
    RootIsNew(s.spec, g, now, supply(ForRoot));
    var root := MakeRoot(s.spec, g, now, supply(ForRoot));
    var grown := s.(roots := s.roots[g := root]);
    StagedExactly(grown, s.issuers.Keys, g, root.certificate, supply, now);
    forall slug | slug in s.issuers
      ensures FitsUnder(s.issuers[slug].definition, root.certificate, now) <==> FitsNextRoot(s.issuers[slug].definition, s.spec, now)
    {
      FitsMadeRoot(s.issuers[slug].definition, s.spec, g, now, supply(ForRoot));
    }
  }

  lemma PreparedIssuersExactly(s: AuthorityState, due: set<Slug>, secret: Secret, supply: Supply, now: Instant)
    requires s.activeRoot in s.roots && ActiveRootSigner(s, secret) == Ok(s.roots[s.activeRoot].certificate.publicKey)
    requires due <= s.issuers.Keys
    ensures var r := PrepareIssuers(s, due, secret, supply, now);
            && (r.Ok? <==> forall slug :: slug in due ==> FitsUnder(s.issuers[slug].definition, s.roots[s.activeRoot].certificate, now))
            && (r.Ok? ==> IssuersPrepared(s, r.value, due, now))
            && (r.Err? ==> r.error == Validation)
  {
    StagedExactly(s, due, s.activeRoot, s.roots[s.activeRoot].certificate, supply, now);
    hide StageIssuers, FitsUnder, Succeeded, ActiveRootSigner;
  }

  // ----- Ensure on an existing authority -----

  /** A certificate ends within its rotation window: 20 days unless one is given, and a window of 0
      is always open. */
  predicate Ending(notAfter: Instant, window: Option<nat>, now: Instant) {
    match window
    case None => notAfter <= now + 1_728_000_000_000_000
    case Some(w) => w == 0 || notAfter <= now + w
  }

  predicate RootEnding(s: AuthorityState, opts: EnsureOptions, now: Instant)
    requires s.activeRoot in s.roots
  {
    Ending(s.roots[s.activeRoot].certificate.notAfter, opts.rootRotateBefore, now)
  }

  predicate IssuerEnding(i: IssuerRecord, opts: EnsureOptions, now: Instant) {
    && i.activeVersion in i.versions
    && Ending(i.versions[i.activeVersion].certificate.notAfter,
              if i.definition.name in opts.issuerRotateBefore then Some(opts.issuerRotateBefore[i.definition.name]) else None, now)
  }

  function EndingIssuers(s: AuthorityState, opts: EnsureOptions, now: Instant): set<Slug> {
    set slug | slug in s.issuers && IssuerEnding(s.issuers[slug], opts, now)
  }

  lemma DueIsEnding(s: AuthorityState, opts: EnsureOptions, now: Instant)
    requires ActiveKnown(s)
    ensures RootDue(s, opts, now) <==> RootEnding(s, opts, now)
    ensures forall slug :: slug in s.issuers ==> (IssuerDue(s, opts, slug, now) <==> IssuerEnding(s.issuers[slug], opts, now))
  {
  }

  /** The rotation that is due can be staged. */
  predicate RotationFits(s: AuthorityState, opts: EnsureOptions, now: Instant)
    requires s.activeRoot in s.roots
  {
    if RootEnding(s, opts, now) then forall slug :: slug in s.issuers ==> FitsNextRoot(s.issuers[slug].definition, s.spec, now)
    else forall slug :: slug in s.issuers && IssuerEnding(s.issuers[slug], opts, now) ==>
           FitsUnder(s.issuers[slug].definition, s.roots[s.activeRoot].certificate, now)
  }

  /** What the rotation part of Ensure leaves of the document it is given. */
  ghost predicate RotationDone(s: AuthorityState, t: AuthorityState, opts: EnsureOptions, now: Instant)
    requires s.activeRoot in s.roots
  {
    if RootEnding(s, opts, now) then RootPrepared(s, t, now)
    else if EndingIssuers(s, opts, now) != {} then IssuersPrepared(s, t, EndingIssuers(s, opts, now), now)
    else t == s
  }

  lemma RotatedExactly(before: AuthorityState, s: AuthorityState, opts: EnsureOptions, secret: Secret, supply: Supply, now: Instant)
    requires Inv(s) && s.pending.None? && ActiveKnown(s)
    requires ActiveRootSigner(s, secret) == Ok(s.roots[s.activeRoot].certificate.publicKey)
    ensures var r := Rotate(before, s, opts, secret, supply, now);
            && (r.Ok? || r == Err(NoMutation) <==> RotationFits(s, opts, now))
            && (r == Err(NoMutation) <==> s == before && !RootEnding(s, opts, now) && EndingIssuers(s, opts, now) == {})
            && (r.Ok? ==> RotationDone(s, r.value, opts, now))
            && (r.Err? ==> r.error in {NoMutation, Validation})
  {
    hide Inv, PrepareRoot, PrepareIssuers, RootDue, IssuerDue, RootEnding, IssuerEnding, FitsUnder, FitsNextRoot, RootPrepared, IssuersPrepared,
         ActiveRootSigner;
    DueIsEnding(s, opts, now);
    assert RootDue(s, opts, now) == RotationDue(opts.rootRotateBefore, s.roots[s.activeRoot].certificate.notAfter, now) by {
      RootDueIs(s, opts, now);
    }
    var due := set slug | slug in s.issuers && IssuerDue(s, opts, slug, now);
    assert due == EndingIssuers(s, opts, now);
    PreparedRootExactly(s, supply, now);
    PreparedIssuersExactly(s, due, secret, supply, now);
  }

  lemma RootDueIs(s: AuthorityState, opts: EnsureOptions, now: Instant)
    requires s.activeRoot in s.roots
    ensures RootDue(s, opts, now) == RotationDue(opts.rootRotateBefore, s.roots[s.activeRoot].certificate.notAfter, now)
  {
  }

  /** The configured issuers that are not there yet, and the rotation due with them, all fit. */
  predicate AllFits(s: AuthorityState, cfg: ManagerConfig, opts: EnsureOptions, now: Instant)
    requires s.activeRoot in s.roots
  {
    && RotationFits(s, opts, now)
    && (RootEnding(s, opts, now) ==> forall i :: 0 <= i < |cfg.issuers| ==> FitsNextRoot(cfg.issuers[i], s.spec, now))
  }

  lemma ExtendedFits(s: AuthorityState, t: AuthorityState, cfg: ManagerConfig, opts: EnsureOptions, now: Instant)
    requires s.activeRoot in s.roots && Extended(s, t, cfg.issuers, now)
    requires forall i :: 0 <= i < |cfg.issuers| ==> Addable(s, cfg.issuers[i], now)
    ensures t.activeRoot in t.roots
    ensures RotationFits(t, opts, now) <==> AllFits(s, cfg, opts, now)
  {
    hide NewVersion, FitsUnder, FitsNextRoot, IssuerEnding;
    assert RootEnding(t, opts, now) <==> RootEnding(s, opts, now);
    hide RootEnding;
    forall i | 0 <= i < |cfg.issuers|
      ensures cfg.issuers[i].slug in t.issuers && t.issuers[cfg.issuers[i].slug].definition == cfg.issuers[i]
    {
    }
    forall slug | slug in t.issuers && slug !in s.issuers
      ensures exists i :: 0 <= i < |cfg.issuers| && t.issuers[slug].definition == cfg.issuers[i]
      ensures FitsUnder(t.issuers[slug].definition, s.roots[s.activeRoot].certificate, now)
    {
      var i :| 0 <= i < |cfg.issuers| && cfg.issuers[i].slug == slug;
      assert Addable(s, cfg.issuers[i], now);
    }
  }

  lemma InvSlugs(s: AuthorityState)
    requires Inv(s)
    ensures SlugsAreKeys(s)
  {
    forall slug | slug in s.issuers
      ensures s.issuers[slug].definition.slug == slug
    {
      assert IssuerInv(s, slug);
    }
  }

  /** Ensure succeeds, or finds nothing to do, exactly when the configuration agrees, nothing is
      pending, the right secret is there, every configured issuer is there as configured or fits, and
      the rotation that is due fits. Otherwise the first of these that fails decides the error. */
  lemma EnsureSucceedsExactly(s: AuthorityState, cfg: ManagerConfig, opts: EnsureOptions, secret: Secret, supply: Supply, now: Instant)
    requires Inv(s) && ValidState(s) && ValidConfig(cfg) && FreshFor(supply, s)
    ensures var r := Ensure(s, cfg, opts, secret, supply, now);
            && (r.Ok? || r == Err(NoMutation) <==>
                  && Agrees(cfg, s.spec) && s.pending.None? && secret == Right
                  && (forall i :: 0 <= i < |cfg.issuers| ==> Addable(s, cfg.issuers[i], now))
                  && AllFits(s, cfg, opts, now))
            && (r.Err? && r.error != NoMutation ==>
                  if !Agrees(cfg, s.spec) then r.error == Drift
                  else if s.pending.Some? then r.error == Conflict
                  else if secret == Missing then r.error == NotFound
                  else if secret == Wrong then r.error == Validation
                  else if forall i :: 0 <= i < |cfg.issuers| ==> Addable(s, cfg.issuers[i], now) then r.error == Validation
                  else exists i :: FirstRefused(s, cfg.issuers, now, i, r.error))
  {
    hide Inv, ValidState, Ensure, Agrees, Addable, AllFits, Extended, RotationDone, RootEnding, EndingIssuers, ValidConfig, FreshFor;
    var added := EnsureParts(s, cfg, opts, secret, supply, now);
  }

  /** The parts of one call: the document with the configured issuers added, and then the rotation. */
  lemma EnsureParts(s: AuthorityState, cfg: ManagerConfig, opts: EnsureOptions, secret: Secret, supply: Supply, now: Instant)
    returns (added: AuthorityState)
    requires Inv(s) && ValidState(s) && ValidConfig(cfg) && FreshFor(supply, s)
    ensures var r := Ensure(s, cfg, opts, secret, supply, now);
            if !Agrees(cfg, s.spec) then r == Err(Drift)
            else if s.pending.Some? then r == Err(Conflict)
            else if secret == Missing then r == Err(NotFound)
            else if secret == Wrong then r == Err(Validation)
            else if forall i :: 0 <= i < |cfg.issuers| ==> Addable(s, cfg.issuers[i], now) then
              && Extended(s, added, cfg.issuers, now)
              && (r.Ok? || r == Err(NoMutation) <==> AllFits(s, cfg, opts, now))
              && (r == Err(NoMutation) <==> added == s && !RootEnding(s, opts, now) && EndingIssuers(s, opts, now) == {})
              && (r.Ok? ==> RotationDone(added, r.value, opts, now))
              && (r.Err? ==> r.error in {NoMutation, Validation})
            else r.Err? && exists i :: FirstRefused(s, cfg.issuers, now, i, r.error)
  {
    ValidIsKnown(s);
    AssertedExactly(s, cfg);
    SignerExactly(s, secret);
    InvSlugs(s);
    hide ValidState, Inv, Rotate, AssertSpec, AddIssuers, ActiveRootSigner, FreshFor, Agrees, Extended, SlugsAreKeys, Addable, AllFits,
         RotationDone, RotationFits, RootEnding, EndingIssuers;
    added := s;
    if Agrees(cfg, s.spec) && s.pending.None? && secret == Right {
      AddedExactly(s, cfg.issuers, secret, supply, now);
      if AddIssuers(s, cfg.issuers, secret, supply, now).Ok? {
        added := AddIssuers(s, cfg.issuers, secret, supply, now).value;
        AddIssuersInv(s, cfg.issuers, secret, supply, now);
        InvImpliesValidState(added);
        ValidIsKnown(added);
        ExtendedIsSame(s, added, cfg.issuers, secret, now);
        ExtendedFits(s, added, cfg, opts, now);
        RotatedExactly(s, added, opts, secret, supply, now);
      }
    }
  }

  /** After Ensure has found nothing to do, or has left nothing pending, every active certificate ends
      later than its rotation window from now, which is 20 days where none is given. */
  lemma EnsureLeavesNothingDue(s: AuthorityState, cfg: ManagerConfig, opts: EnsureOptions, secret: Secret, supply: Supply, now: Instant)
    requires Inv(s) && ValidState(s) && ValidConfig(cfg) && FreshFor(supply, s)
    requires var r := Ensure(s, cfg, opts, secret, supply, now);
             r == Err(NoMutation) || (r.Ok? && r.value.pending.None?)
    ensures var r := Ensure(s, cfg, opts, secret, supply, now);
            var t := if r.Ok? then r.value else s;
            && t.activeRoot in t.roots
            && var end := t.roots[t.activeRoot].certificate.notAfter;
               match opts.rootRotateBefore {
                 case None => end > now + 1_728_000_000_000_000
                 case Some(w) => w != 0 && end > now + w
               }
    ensures var r := Ensure(s, cfg, opts, secret, supply, now);
            var t := if r.Ok? then r.value else s;
            forall slug :: slug in t.issuers ==>
              var i := t.issuers[slug];
              && i.activeVersion in i.versions
              && var end := i.versions[i.activeVersion].certificate.notAfter;
                 var name := i.definition.name;
                 if name in opts.issuerRotateBefore then opts.issuerRotateBefore[name] != 0 && end > now + opts.issuerRotateBefore[name]
                 else end > now + 1_728_000_000_000_000
  {
    var added := EnsureParts(s, cfg, opts, secret, supply, now);
    EnsureAchieves(s, cfg, opts, secret, supply, now);
    hide Inv, ValidState, Ensure, Extended, Agrees, Addable, AllFits, RootPrepared, IssuersPrepared, FirstRefused, Configured, AssertSpec,
         ActiveRootSigner, StagesDue, NothingDue;
    var r := Ensure(s, cfg, opts, secret, supply, now);
    var t := if r.Ok? then r.value else s;
    assert ActiveKnown(t);
    assert !RootEnding(t, opts, now) && EndingIssuers(t, opts, now) == {} by {
      if r.Ok? {
        PreparedIsPending(added, t, opts, now);
      }
    }
    forall slug | slug in t.issuers
      ensures !IssuerEnding(t.issuers[slug], opts, now)
    {
      assert slug !in EndingIssuers(t, opts, now);
    }
  }

  lemma PreparedIsPending(s: AuthorityState, t: AuthorityState, opts: EnsureOptions, now: Instant)
    requires s.activeRoot in s.roots && RotationDone(s, t, opts, now) && t.pending.None?
    ensures t == s && !RootEnding(s, opts, now) && EndingIssuers(s, opts, now) == {}
  {
  }

  /** Ensure stages a root exactly when the active one ends within its window, and otherwise a new
      version exactly for each issuer whose active certificate does. */
  lemma EnsureStagesExactly(s: AuthorityState, cfg: ManagerConfig, opts: EnsureOptions, secret: Secret, supply: Supply, now: Instant)
    requires Inv(s) && ValidState(s) && ValidConfig(cfg) && FreshFor(supply, s)
    requires Ensure(s, cfg, opts, secret, supply, now).Ok?
    ensures var t := Ensure(s, cfg, opts, secret, supply, now).value;
            && t.activeRoot in t.roots
            && var end := t.roots[t.activeRoot].certificate.notAfter;
               (t.pending.Some? && t.pending.value.kind == PendingRoot <==>
                  match opts.rootRotateBefore {
                    case None => end <= now + 1_728_000_000_000_000
                    case Some(w) => w == 0 || end <= now + w
                  })
    ensures var t := Ensure(s, cfg, opts, secret, supply, now).value;
            !(t.pending.Some? && t.pending.value.kind == PendingRoot) ==>
            forall slug :: slug in t.issuers ==>
              var i := t.issuers[slug];
              && i.activeVersion in i.versions
              && var end := i.versions[i.activeVersion].certificate.notAfter;
                 var name := i.definition.name;
                 (t.pending.Some? && slug in t.pending.value.issuers <==>
                    if name in opts.issuerRotateBefore then opts.issuerRotateBefore[name] == 0 || end <= now + opts.issuerRotateBefore[name]
                    else end <= now + 1_728_000_000_000_000)
  {
    EnsureAchieves(s, cfg, opts, secret, supply, now);
    hide Inv, ValidState, Ensure, Configured, AssertSpec, ActiveRootSigner, NothingDue;
  }

  // ----- Ensure on a missing authority -----

  lemma {:induction false} FirstExactly(s: AuthorityState, defs: seq<IssuerDefinition>, supply: Supply, now: Instant)
    requires s.activeRoot in s.roots && s.issuers == map[] && DistinctSlugs(defs)
    ensures var root := s.roots[s.activeRoot].certificate;
            var r := FirstIssuers(s, defs, root.publicKey, supply, now);
            && (r.Ok? <==> forall i :: 0 <= i < |defs| ==> FitsUnder(defs[i], root, now))
            && (r.Ok? ==> Extended(s, r.value, defs, now))
            && (r.Err? ==> r.error == Validation)
  {
    hide NewVersion, FitsUnder, MakeIssuer;
    if defs == [] {
    } else {
      hide FirstIssuers, Extended;
      var init, d := defs[..|defs| - 1], defs[|defs| - 1];
      assert init + [d] == defs;
      assert forall i :: 0 <= i < |init| ==> init[i] == defs[i];
      FirstExactly(s, init, supply, now);
      FirstStep(s, init, d, supply, now);
    }
  }

  /** One more issuer of a new authority. */
  lemma FirstStep(s: AuthorityState, init: seq<IssuerDefinition>, d: IssuerDefinition, supply: Supply, now: Instant)
    requires s.activeRoot in s.roots && s.issuers == map[] && DistinctSlugs(init + [d])
    requires var before := FirstIssuers(s, init, s.roots[s.activeRoot].certificate.publicKey, supply, now);
             before.Ok? ==> Extended(s, before.value, init, now)
    ensures var root := s.roots[s.activeRoot].certificate;
            var before := FirstIssuers(s, init, root.publicKey, supply, now);
            var r := FirstIssuers(s, init + [d], root.publicKey, supply, now);
            && (r.Ok? <==> before.Ok? && FitsUnder(d, root, now))
            && (r.Ok? ==> Extended(s, r.value, init + [d], now))
            && (r.Err? ==> r.error == if before.Ok? then Validation else before.error)
  {
    hide NewVersion, FitsUnder, MakeIssuer, Extended;
    var root := s.roots[s.activeRoot].certificate;
    VersionIsNew(s.spec, s.activeRoot, 1, d, root, now, supply(ForIssuer(d.slug)));
    var defs := init + [d];
    assert defs[..|defs| - 1] == init;
    assert forall i :: 0 <= i < |init| ==> defs[i] == init[i];
    var before := FirstIssuers(s, init, root.publicKey, supply, now);
    var r := FirstIssuers(s, defs, root.publicKey, supply, now);
    if r.Ok? {
      NotYetFirst(s, before.value, init, d, now);
      ExtendedByOne(s, before.value, r.value, init, d, now);
    }
  }

  lemma NotYetFirst(s: AuthorityState, t: AuthorityState, defs: seq<IssuerDefinition>, d: IssuerDefinition, now: Instant)
    requires s.activeRoot in s.roots && s.issuers == map[] && Extended(s, t, defs, now)
    requires forall i :: 0 <= i < |defs| ==> defs[i].slug != d.slug
    ensures d.slug !in t.issuers
  {
  }

  /** What a new authority is configured to be; unset options give ten years, no ledger and an empty
      identity. */
  function ConfiguredSpec(cfg: ManagerConfig): AuthoritySpec
    requires cfg.authorityName.Some?
  {
    AuthoritySpec(
      cfg.authorityId, 1, cfg.authorityName.value,
      match cfg.identity { case Some(i) => i case None => Identity("", "", "", "", "", "") },
      match cfg.rootValidity { case Some(v) => v case None => 315_360_000_000_000_000 },
      match cfg.mode { case Some(m) => m case None => NoLedger },
      "file")
  }

  /** A provisioned document: generation 1 is active and alone, and every configured issuer has
      version 1 under it. */
  ghost predicate Provisioned(cfg: ManagerConfig, t: AuthorityState, now: Instant)
    requires cfg.authorityName.Some?
  {
    && t.spec == ConfiguredSpec(cfg)
    && t.revision == 0 && t.pending.None?
    && t.activeRoot == 1 && t.roots.Keys == {1} && NewRoot(t.roots[1], t.spec, 1, now)
    && (forall slug :: slug in t.issuers <==> exists i :: 0 <= i < |cfg.issuers| && cfg.issuers[i].slug == slug)
    && (forall i :: 0 <= i < |cfg.issuers| ==>
          NewIssuer(t.issuers[cfg.issuers[i].slug], t.spec, 1, cfg.issuers[i], t.roots[1].certificate, now))
  }

  /** The first Ensure succeeds exactly when a name is configured and every issuer fits under the root
      it makes. */
  lemma ProvisionExactly(cfg: ManagerConfig, supply: Supply, now: Instant)
    requires ValidConfig(cfg)
    ensures var r := Provision(cfg, supply, now);
            && (r.Ok? <==>
                  && cfg.authorityName.Some?
                  && forall i :: 0 <= i < |cfg.issuers| ==> FitsNextRoot(cfg.issuers[i], ConfiguredSpec(cfg), now))
            && (r.Ok? ==> Provisioned(cfg, r.value, now))
            && (r.Err? ==> r.error == Validation)
  {
    hide NewRoot, NewIssuer, FitsNextRoot, FitsUnder, FirstIssuers, MakeRoot;
    if cfg.authorityName.Some? {
      var spec := ConfiguredSpec(cfg);
      var root := MakeRoot(spec, 1, now, supply(ForRoot));
      RootIsNew(spec, 1, now, supply(ForRoot));
      forall i | 0 <= i < |cfg.issuers|
        ensures FitsUnder(cfg.issuers[i], root.certificate, now) <==> FitsNextRoot(cfg.issuers[i], spec, now)
      {
        FitsMadeRoot(cfg.issuers[i], spec, 1, now, supply(ForRoot));
      }
      FirstExactly(AuthorityState(spec, 0, 1, map[1 := root], map[], None), cfg.issuers, supply, now);
    }
  }

  // ----- promotion -----

  /** A stored record agrees with its certificate in every field. */
  predicate WellFormed(r: LedgerRecord) {
    var c := r.certificate;
    && r.authorityRevision > 0 && r.issuer != "" && r.issuerVersion > 0
    && r.fingerprint == c.raw && r.serial == c.serial
    && r.subject == c.subject && r.sans == c.sans
    && c.usage == {DigitalSignature} && c.profile == {r.profile}
    && 0 < r.expiresAt == c.notAfter
    && 0 < r.issuedAt == c.notBefore + 300_000_000_000
  }

  lemma ReadableExactly(ledger: seq<LedgerRecord>)
    ensures LedgerReadable(ledger) <==> forall i :: 0 <= i < |ledger| ==> WellFormed(ledger[i])
  {
  }

  /** Promotion succeeds exactly when the configuration agrees, something is pending, a pending root
      has the right unlock secret, and a ledger that the deadline depends on can be read. */
  lemma PromoteSucceedsExactly(s: AuthorityState, cfg: ManagerConfig, secret: Secret, ledger: seq<LedgerRecord>, now: Instant)
    requires Inv(s) && ValidState(s)
    ensures var r := Promote(s, cfg, secret, ledger, now);
            && (r.Ok? <==>
                  && Agrees(cfg, s.spec)
                  && s.pending.Some?
                  && (s.pending.value.kind == PendingRoot ==> secret == Right)
                  && (s.pending.value.kind == PendingRoot && s.spec.mode == Ledger ==>
                        forall i :: 0 <= i < |ledger| ==> WellFormed(ledger[i])))
            && (r.Err? ==>
                  r.error ==
                  if !Agrees(cfg, s.spec) then Drift
                  else if s.pending.None? then NotFound
                  else if s.pending.value.kind == PendingRoot && secret == Missing then NotFound
                  else if s.pending.value.kind == PendingRoot && secret == Wrong then Validation
                  else Corrupt)
  {
    hide Inv, ValidState, AssertSpec, Agrees, WellFormed, LedgerReadable, Promoted, TrustDeadline, KeyMatches;
    AssertedExactly(s, cfg);
    ReadableExactly(ledger);
    PendingKeysMatch(s);
  }

  /** On a reachable document every key that a promotion checks is the one of its certificate. */
  lemma PendingKeysMatch(s: AuthorityState)
    requires Inv(s)
    ensures s.pending.Some? ==>
            var p := s.pending.value;
            && (p.kind == PendingRoot ==> p.rootGeneration in s.roots && KeyMatches(s.roots[p.rootGeneration].key, s.roots[p.rootGeneration].certificate))
            && forall slug :: slug in p.issuers ==>
                 && slug in s.issuers && p.issuers[slug] in s.issuers[slug].versions
                 && KeyMatches(s.issuers[slug].versions[p.issuers[slug]].key, s.issuers[slug].versions[p.issuers[slug]].certificate)
  {
    if s.pending.Some? {
      var p := s.pending.value;
      if p.kind == PendingRoot {
        assert RootInv(s, p.rootGeneration);
      }
      forall slug | slug in p.issuers
        ensures slug in s.issuers && p.issuers[slug] in s.issuers[slug].versions
        ensures KeyMatches(s.issuers[slug].versions[p.issuers[slug]].key, s.issuers[slug].versions[p.issuers[slug]].certificate)
      {
        assert IssuerInv(s, slug);
        assert VersionInv(s, slug, p.issuers[slug]);
      }
    }
  }

  /** How long the promoted-away root stays trusted: one year and the clock skew without a ledger;
      with one, five minutes past the last expiry issued under it, or not at all. */
  ghost predicate TrustedFor(s: AuthorityState, ledger: seq<LedgerRecord>, deadline: Instant, now: Instant) {
    match s.spec.mode
    case NoLedger => deadline == now + 31_536_300_000_000_000
    case Ledger =>
      && (forall i :: 0 <= i < |ledger| && UnderActive(s, ledger[i]) ==> ledger[i].expiresAt + 300_000_000_000 <= deadline)
      && ((exists i :: 0 <= i < |ledger| && UnderActive(s, ledger[i]) && ledger[i].expiresAt + 300_000_000_000 == deadline)
          || (deadline == now && forall i :: 0 <= i < |ledger| ==> !UnderActive(s, ledger[i])))
  }

  /** The issuer version that the record names was signed by the active root. */
  predicate UnderActive(s: AuthorityState, r: LedgerRecord) {
    && r.issuer in s.issuers && r.issuerVersion in s.issuers[r.issuer].versions
    && s.issuers[r.issuer].versions[r.issuerVersion].rootGeneration == s.activeRoot
  }

  lemma DeadlineExactly(s: AuthorityState, ledger: seq<LedgerRecord>, now: Instant)
    ensures TrustedFor(s, ledger, TrustDeadline(s, ledger, s.activeRoot, now), now)
  {
    Lifecycle.DeadlineIsMaximum(s, ledger, s.activeRoot);
    forall r: LedgerRecord
      ensures UnderActive(s, r) <==> UnderRoot(s, r, s.activeRoot)
    {
    }
    hide LedgerDeadline, UnderRoot;
  }

  /** One issuer after its pending version has become active: the version it replaces keeps all but
      its key, and the others are as they were. */
  predicate Advanced(i: IssuerRecord, j: IssuerRecord) {
    && j.definition == i.definition
    && j.activeVersion == i.activeVersion + 1
    && j.versions.Keys == i.versions.Keys
    && forall v :: v in i.versions ==>
         j.versions[v] == if v == i.activeVersion then i.versions[v].(key := None) else i.versions[v]
  }

  /** The document after a promotion. */
  ghost predicate PromotedDocument(s: AuthorityState, t: AuthorityState, ledger: seq<LedgerRecord>, now: Instant)
    requires s.pending.Some?
  {
    var p := s.pending.value;
    && t.spec == s.spec && t.revision == s.revision && t.pending.None?
    && t.roots.Keys == s.roots.Keys && t.issuers.Keys == s.issuers.Keys
    && (forall slug :: slug in s.issuers ==>
          if slug in p.issuers then Advanced(s.issuers[slug], t.issuers[slug]) else t.issuers[slug] == s.issuers[slug])
    && (match p.kind
        case PendingIssuer => t.activeRoot == s.activeRoot && t.roots == s.roots
        case PendingRoot =>
          && t.activeRoot == s.activeRoot + 1 && t.activeRoot in t.roots
          && s.activeRoot in t.roots
          && t.roots == s.roots[s.activeRoot := t.roots[s.activeRoot]]
          && t.roots[s.activeRoot] == s.roots[s.activeRoot].(key := None, retiredTrustUntil := t.roots[s.activeRoot].retiredTrustUntil)
          && TrustedFor(s, ledger, t.roots[s.activeRoot].retiredTrustUntil, now))
  }

  lemma PromotedExactly(s: AuthorityState, cfg: ManagerConfig, secret: Secret, ledger: seq<LedgerRecord>, now: Instant)
    requires Inv(s) && ValidState(s) && Promote(s, cfg, secret, ledger, now).Ok?
    ensures s.pending.Some? && PromotedDocument(s, Promote(s, cfg, secret, ledger, now).value, ledger, now)
  {
    hide ValidState, RootInv, IssuerInv, Inv, TrustedFor, TrustDeadline, LedgerReadable, PromotedDocument, Promoted, AssertSpec;
    SignerExactly(s, secret);
    var p := s.pending.value;
    var deadline := TrustDeadline(s, ledger, s.activeRoot, now);
    assert Promote(s, cfg, secret, ledger, now).value == Promoted(s, p, deadline);
    DeadlineExactly(s, ledger, now);
    PromotedWith(s, ledger, deadline, now);
  }

  lemma PendingAdvances(s: AuthorityState, slug: Slug)
    requires Inv(s) && s.pending.Some? && slug in s.pending.value.issuers
    ensures slug in s.issuers && Advanced(s.issuers[slug], Activated(s.issuers[slug], s.pending.value.issuers[slug]))
  {
    assert IssuerInv(s, slug);
    hide RootInv, VersionInv;
  }

  lemma PromotedWith(s: AuthorityState, ledger: seq<LedgerRecord>, deadline: Instant, now: Instant)
    requires Inv(s) && s.pending.Some? && TrustedFor(s, ledger, deadline, now)
    ensures PromotedDocument(s, Promoted(s, s.pending.value, deadline), ledger, now)
  {
    hide RootInv, IssuerInv, TrustedFor, Activated, Advanced;
    var p := s.pending.value;
    forall slug | slug in p.issuers
      ensures slug in s.issuers && Advanced(s.issuers[slug], Activated(s.issuers[slug], p.issuers[slug]))
    {
      PendingAdvances(s, slug);
    }
    if p.kind == PendingRoot {
      assert s.activeRoot + 1 in s.roots;
    }
  }

  // ----- discard and prune -----

  /** The document after a discard: the pending root and the pending versions are gone. */
  ghost predicate DiscardedDocument(s: AuthorityState, t: AuthorityState)
    requires s.pending.Some?
  {
    var p := s.pending.value;
    && t == s.(roots := t.roots, issuers := t.issuers, pending := None)
    && t.roots == (if p.kind == PendingRoot then s.roots - {s.activeRoot + 1} else s.roots)
    && t.issuers.Keys == s.issuers.Keys
    && forall slug :: slug in s.issuers ==>
         t.issuers[slug] ==
         if slug in p.issuers then s.issuers[slug].(versions := s.issuers[slug].versions - {s.issuers[slug].activeVersion + 1})
         else s.issuers[slug]
  }

  lemma DiscardExactly(s: AuthorityState, cfg: ManagerConfig)
    requires Inv(s)
    ensures var r := Discard(s, cfg);
            && (r.Ok? <==> Agrees(cfg, s.spec) && s.pending.Some?)
            && (r.Ok? ==> DiscardedDocument(s, r.value))
            && (r.Err? ==> r.error == if Agrees(cfg, s.spec) then NotFound else Drift)
  {
    AssertedExactly(s, cfg);
    hide AssertSpec, Agrees, RootInv, IssuerInv;
  }

  /** A generation can be pruned when it is neither active nor pending, is there under the fingerprint
      given, and its window has ended. Only the end of the window is then forgotten. */
  lemma PruneExactly(s: AuthorityState, generation: int, fingerprint: nat, now: Instant)
    requires Inv(s)
    ensures var r := Prune(s, generation, fingerprint, now);
            && (r.Ok? <==>
                  && 1 <= generation < s.activeRoot
                  && generation in s.roots && s.roots[generation].fingerprint == fingerprint
                  && s.roots[generation].retiredTrustUntil <= now)
            && (r.Ok? ==>
                  && generation in s.roots
                  && r.value == s.(roots := s.roots[generation := s.roots[generation].(retiredTrustUntil := 0)]))
            && (r.Err? ==>
                  r.error ==
                  if generation < 1 then Validation
                  else if generation == s.activeRoot then Conflict
                  else if generation == s.activeRoot + 1 && s.pending.Some? && s.pending.value.kind == PendingRoot then Conflict
                  else if generation > s.activeRoot then NotFound
                  else if s.roots[generation].fingerprint != fingerprint then Drift
                  else Conflict)
  {
    hide RootInv, IssuerInv;
  }

  // ----- the surrounding update -----

  /** The document knows the issuer version that the record names, at a revision not before the
      record's, and that version's certificate signed the leaf. */
  predicate Vouched(s: AuthorityState, r: LedgerRecord) {
    && r.authorityRevision <= s.revision
    && r.issuer in s.issuers && r.issuerVersion in s.issuers[r.issuer].versions
    && var c := s.issuers[r.issuer].versions[r.issuerVersion].certificate;
       c.isCA && c.basicConstraintsValid && CertSign in c.usage && r.certificate.signedBy == c.publicKey
  }

  lemma AcceptedExactly(s: AuthorityState, ledger: seq<LedgerRecord>)
    ensures LedgerAccepted(s, ledger) <==> forall i :: 0 <= i < |ledger| ==> Vouched(s, ledger[i])
  {
    forall r: LedgerRecord
      ensures RecordAccepted(s, r) <==> Vouched(s, r)
    {
    }
    hide RecordAccepted, Vouched;
  }

  /** A whole update of a reachable document: in Ledger mode every record must agree with its
      certificate and be vouched for; then the operation decides, and its document is stored with the
      next revision. */
  lemma UpdateOutcome(s: AuthorityState, cfg: ManagerConfig, cmd: Command, ledger: seq<LedgerRecord>, now: Instant)
    requires Inv(s) && ValidState(s) && ValidConfig(cfg) && FreshCommand(cmd, s)
    ensures var outcome := match cmd {
              case EnsureCommand(opts, secret, supply) => Ensure(s, cfg, opts, secret, supply, now)
              case PromoteCommand(secret) => Promote(s, cfg, secret, ledger, now)
              case DiscardCommand => Discard(s, cfg)
              case PruneCommand(generation, fingerprint) => Prune(s, generation, fingerprint, now)
            };
            Update(Some(s), cfg, cmd, ledger, now) ==
            if s.spec.mode == Ledger && exists i :: 0 <= i < |ledger| && !(WellFormed(ledger[i]) && Vouched(s, ledger[i])) then Err(Corrupt)
            else if outcome.Err? then outcome
            else Ok(outcome.value.(revision := s.revision + 1))
  {
    hide Inv, ValidState, Ensure, Promote, Discard, Prune, LedgerReadable, LedgerAccepted, WellFormed, Vouched, FreshFor, Commit;
    ReadableExactly(ledger);
    AcceptedExactly(s, ledger);
    if s.spec.mode == Ledger && !(LedgerReadable(ledger) && LedgerAccepted(s, ledger)) {
    } else {
      RecheckNeverRejects(Some(s), cfg, cmd, ledger, now);
    }
  }

  /** The first update creates an authority at revision 1, or nothing. */
  lemma FirstUpdateOutcome(cfg: ManagerConfig, cmd: Command, ledger: seq<LedgerRecord>, now: Instant)
    requires ValidConfig(cfg) && FreshCommand(cmd, EMPTY_STATE)
    ensures var r := Update(None, cfg, cmd, ledger, now);
            match cmd {
              case EnsureCommand(opts, secret, supply) =>
                && (r.Ok? <==>
                      && cfg.authorityName.Some?
                      && (cfg.identity.Some? ==> cfg.identity.value.commonName == "")
                      && forall i :: 0 <= i < |cfg.issuers| ==> FitsNextRoot(cfg.issuers[i], ConfiguredSpec(cfg), now))
                && (r.Ok? ==> r.value.revision == 1 && Provisioned(cfg, r.value.(revision := 0), now))
                && (r.Err? ==>
                      r.error == if cfg.authorityName.Some? && forall i :: 0 <= i < |cfg.issuers| ==> FitsNextRoot(cfg.issuers[i], ConfiguredSpec(cfg), now)
                                 then Drift else Validation)
              case PromoteCommand(secret) => r == Err(Drift)
              case DiscardCommand => r == Err(Drift)
              case PruneCommand(generation, fingerprint) => r == Err(if generation < 1 then Validation else NotFound)
            }
  {
    RecheckNeverRejects(None, cfg, cmd, ledger, now);
    hide Provision, Provisioned, FitsNextRoot, FreshFor, Update;
    if cmd.EnsureCommand? {
      ProvisionExactly(cfg, cmd.supply, now);
    }
  }

  // ----- appending a record -----

  /** An append to a store: the document must be there and valid, the record of its revision and of an
      active version, in order, and new to a readable ledger. */
  lemma AppendOutcome(document: Option<AuthorityState>, ledger: seq<LedgerRecord>, r: LedgerRecord)
    ensures document.None? ==> FileStores.Appended(document, ledger, r) == Err(NotFound)
    ensures document.Some? && !ValidState(document.value) ==> FileStores.Appended(document, ledger, r) == Err(StateError(document.value))
    ensures document.Some? && ValidState(document.value) ==>
            var s := document.value;
            FileStores.Appended(document, ledger, r) ==
            if s.revision != r.authorityRevision || r.issuer !in s.issuers || s.issuers[r.issuer].activeVersion != r.issuerVersion
            then Err(Conflict)
            else if !WellFormed(r) || exists i :: 0 <= i < |ledger| && !WellFormed(ledger[i]) then Err(Corrupt)
            else if exists i :: 0 <= i < |ledger|
                      && (ledger[i].fingerprint == r.fingerprint
                          || (ledger[i].issuer == r.issuer && ledger[i].issuerVersion == r.issuerVersion && ledger[i].serial == r.serial))
            then Err(Conflict)
            else Ok(ledger + [r])
  {
    ReadableExactly(ledger);
    assert WellFormed(r) <==> ValidRecord(r);
    hide ValidState, WellFormed, ValidRecord, LedgerReadable;
  }

  /** An update of a store: a document that fails its validation is refused with one of its errors and
      a missing one is created; otherwise the update is the one above. */
  lemma UpdatedExactly(document: Option<AuthorityState>, cfg: ManagerConfig, cmd: Command, ledger: seq<LedgerRecord>, now: Instant)
    ensures var r := FileStores.Updated(document, cfg, cmd, ledger, now);
            if document.Some? && !ValidState(document.value) then r.Err? && r.error in StateErrors(document.value)
            else r == Update(document, cfg, cmd, ledger, now)
  {
    hide Update, ValidState, StateErrors;
    if document.Some? {
      Validation.StateErrorsMeaning(document.value);
    }
  }
}
