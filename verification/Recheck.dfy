/** When the validation that update repeats after a mutation accepts its result, for every document
    that validateState accepts. */
module Recheck {
  import opened Wrappers
  import opened Certificates
  import opened Policy
  import opened Authority
  import opened Validation
  import opened AuthorityInvariant

  // ----- the conditions, read off the document before the mutation -----

  function Before(opts: EnsureOptions, name: string): Option<nat> {
    if name in opts.issuerRotateBefore then Some(opts.issuerRotateBefore[name]) else None
  }

  /** A configured issuer would be due as soon as it is created. */
  predicate NewIssuerDue(d: IssuerDefinition, opts: EnsureOptions, now: Instant) {
    RotationDue(Before(opts, d.name), WholeSeconds(now + d.validity), now)
  }

  /** The active root is not due, and some issuer is, known or about to be created: Ensure stages an
      issuer manifest if it succeeds. */
  ghost predicate StagesIssuers(s: AuthorityState, cfg: ManagerConfig, opts: EnsureOptions, now: Instant)
    requires ValidState(s)
  {
    && !RotationDue(opts.rootRotateBefore, s.roots[s.activeRoot].certificate.notAfter, now)
    && ((exists slug :: slug in s.issuers && IssuerDue(s, opts, slug, now))
        || (exists i :: 0 <= i < |cfg.issuers| && cfg.issuers[i].slug !in s.issuers && NewIssuerDue(cfg.issuers[i], opts, now)))
  }

  /** An issuer that an issuer manifest leaves out must have no version 0: the lookup of its entry
      gives 0, and that version would then need a key. */
  ghost predicate EnsureAllowed(s: AuthorityState, cfg: ManagerConfig, opts: EnsureOptions, now: Instant)
    requires ValidState(s)
  {
    StagesIssuers(s, cfg, opts, now) ==>
      forall slug :: slug in s.issuers && 0 in s.issuers[slug].versions ==> IssuerDue(s, opts, slug, now)
  }

  /** No issuer outside the manifest has a version 0, which the manifest would keep a key for. */
  ghost predicate NoVersionZero(s: AuthorityState, p: Pending) {
    forall slug :: slug in s.issuers && slug !in p.issuers ==> 0 !in s.issuers[slug].versions
  }

  /** No version but the discarded ones hangs under the pending generation. */
  ghost predicate NothingLeftUnder(s: AuthorityState, p: Pending) {
    forall slug, v :: slug in s.issuers && v in s.issuers[slug].versions && s.issuers[slug].versions[v].rootGeneration == p.rootGeneration
      ==> slug in p.issuers && p.issuers[slug] == v
  }

  ghost predicate DiscardPasses(s: AuthorityState, p: Pending) {
    && (p.rootGeneration > 0 ==> p.rootGeneration != s.activeRoot && NothingLeftUnder(s, p))
    && (p.kind == PendingRoot ==> p.rootGeneration > 0)
    && (forall slug :: slug in p.issuers && slug in s.issuers ==> p.issuers[slug] != s.issuers[slug].activeVersion)
    && NoVersionZero(s, p)
  }

  function NextActiveRoot(s: AuthorityState, p: Pending): int {
    if p.kind == PendingRoot then p.rootGeneration else s.activeRoot
  }

  /** The pending version of an issuer can become its active one. */
  predicate VersionPromotable(s: AuthorityState, p: Pending, slug: Slug)
    requires slug in p.issuers && slug in s.issuers
  {
    var i, v := s.issuers[slug], p.issuers[slug];
    v >= 1 && v != i.activeVersion && v in i.versions && i.versions[v].rootGeneration == NextActiveRoot(s, p)
  }

  ghost predicate PromotePasses(s: AuthorityState, p: Pending) {
    && (p.kind == PendingRoot ==> p.rootGeneration >= 1 && p.rootGeneration != s.activeRoot)
    && (forall slug :: slug in p.issuers && slug in s.issuers ==> VersionPromotable(s, p, slug))
    && NoVersionZero(s, p)
  }

  ghost predicate Passes(s: AuthorityState, cfg: ManagerConfig, cmd: Command, now: Instant)
    requires s == EMPTY_STATE || ValidState(s)
  {
    match cmd
    case EnsureCommand(opts, _, _) => if s == EMPTY_STATE then PlainIdentity(cfg) else EnsureAllowed(s, cfg, opts, now)
    case PruneCommand(_, _) => true
    case DiscardCommand => s.pending.Some? ==> DiscardPasses(s, s.pending.value)
    case PromoteCommand(_) => s.pending.Some? ==> PromotePasses(s, s.pending.value)
  }

  // ----- one record -----

  lemma RootKept(s: AuthorityState, t: AuthorityState, g: int)
    requires g in s.roots && g in t.roots && ValidRoot(s, g) && t.spec == s.spec
    requires t.roots[g] == s.roots[g].(key := t.roots[g].key, retiredTrustUntil := t.roots[g].retiredTrustUntil)
    ensures ValidRoot(t, g) <==> (t.roots[g].key.Some? <==> RootNeedsKey(t, g))
    ensures RootError(t, g) != Some(Drift)
  {
  }

  lemma VersionKept(s: AuthorityState, t: AuthorityState, slug: Slug, v: int)
    requires slug in s.issuers && v in s.issuers[slug].versions && ValidVersion(s, slug, v) && t.spec == s.spec
    requires slug in t.issuers && v in t.issuers[slug].versions && t.issuers[slug].definition == s.issuers[slug].definition
    requires t.issuers[slug].versions[v] == s.issuers[slug].versions[v].(key := t.issuers[slug].versions[v].key)
    requires var g := s.issuers[slug].versions[v].rootGeneration;
             g in t.roots ==> t.roots[g].certificate == s.roots[g].certificate
    ensures ValidVersion(t, slug, v) <==>
            s.issuers[slug].versions[v].rootGeneration in t.roots
            && (t.issuers[slug].versions[v].key.Some? <==> VersionNeedsKey(t, slug, v))
    ensures VersionError(t, slug, v) != Some(Drift)
  {
  }

  lemma NewRootValid(t: AuthorityState, g: int, now: Instant, m: Material)
    requires g in t.roots && t.roots[g] == MakeRoot(t.spec, g, now, m) && RootNeedsKey(t, g)
    requires t.spec.identity.commonName == ""
    ensures ValidRoot(t, g)
  {
  }

  lemma NewVersionValid(t: AuthorityState, slug: Slug, version: int, rootKey: nat, now: Instant, m: Material)
    requires slug in t.issuers && version in t.issuers[slug].versions && VersionNeedsKey(t, slug, version)
    requires var v := t.issuers[slug].versions[version];
             && v.rootGeneration in t.roots && ValidRoot(t, v.rootGeneration)
             && t.roots[v.rootGeneration].certificate.publicKey == rootKey
             && Ok(v) == MakeIssuer(t.spec, v.rootGeneration, version, t.issuers[slug].definition,
                                    t.roots[v.rootGeneration].certificate, rootKey, now, m)
    ensures ValidVersion(t, slug, version)
  {
    WholeSecondsBounds(now + t.issuers[slug].definition.validity);
  }

  /** An issuer that a change of the roots or of the manifest leaves as it is passes exactly when the
      change asks for no other keys. */
  lemma IssuerKept(s: AuthorityState, t: AuthorityState, slug: Slug)
    requires slug in s.issuers && ValidIssuer(s, slug) && slug in t.issuers && t.issuers[slug] == s.issuers[slug]
    requires t.spec == s.spec && t.activeRoot == s.activeRoot
    requires forall g :: g in s.roots ==> g in t.roots && t.roots[g].certificate == s.roots[g].certificate
    ensures ValidIssuer(t, slug) <==>
            forall v :: v in s.issuers[slug].versions ==> (VersionNeedsKey(t, slug, v) <==> VersionNeedsKey(s, slug, v))
  {
    hide ValidVersion, VersionNeedsKey, ValidDefinition;
    forall v | v in t.issuers[slug].versions
      ensures ValidVersion(t, slug, v) <==> (VersionNeedsKey(t, slug, v) <==> VersionNeedsKey(s, slug, v))
    {
      assert ValidVersion(s, slug, v);
      VersionRoot(s, slug, v);
      VersionKept(s, t, slug, v);
    }
  }

  lemma VersionRoot(s: AuthorityState, slug: Slug, v: int)
    requires slug in s.issuers && v in s.issuers[slug].versions && ValidVersion(s, slug, v)
    ensures s.issuers[slug].versions[v].rootGeneration in s.roots
    ensures s.issuers[slug].versions[v].key.Some? <==> VersionNeedsKey(s, slug, v)
  {
  }

  // ----- provisioning and Ensure -----

  lemma FirstIssuerValid(t: AuthorityState, d: IssuerDefinition, rootKey: nat, now: Instant, m: Material)
    requires d.slug in t.issuers && ValidDefinition(d) && t.activeRoot in t.roots && ValidRoot(t, t.activeRoot)
    requires t.roots[t.activeRoot].certificate.publicKey == rootKey
    requires var v := MakeIssuer(t.spec, t.activeRoot, 1, d, t.roots[t.activeRoot].certificate, rootKey, now, m);
             v.Ok? && t.issuers[d.slug] == IssuerRecord(d, 1, map[1 := v.value]) && !PendingVersion(t, d.slug, 1)
    ensures ValidIssuer(t, d.slug)
  {
    NewVersionValid(t, d.slug, 1, rootKey, now, m);
  }

  lemma IssuerAdded(s: AuthorityState, d: IssuerDefinition, rootKey: nat, now: Instant, m: Material)
    requires ValidState(s) && s.pending.None? && ValidDefinition(d) && s.roots[s.activeRoot].certificate.publicKey == rootKey
    requires MakeIssuer(s.spec, s.activeRoot, 1, d, s.roots[s.activeRoot].certificate, rootKey, now, m).Ok?
    ensures var v := MakeIssuer(s.spec, s.activeRoot, 1, d, s.roots[s.activeRoot].certificate, rootKey, now, m).value;
            ValidState(s.(issuers := s.issuers[d.slug := IssuerRecord(d, 1, map[1 := v])]))
  {
    hide MakeIssuer, ValidVersion, ValidDefinition;
    var v := MakeIssuer(s.spec, s.activeRoot, 1, d, s.roots[s.activeRoot].certificate, rootKey, now, m).value;
    var t := s.(issuers := s.issuers[d.slug := IssuerRecord(d, 1, map[1 := v])]);
    forall g | g in t.roots
      ensures ValidRoot(t, g)
    {
      assert ValidRoot(s, g);
      RootKept(s, t, g);
    }
    hide ValidRoot, ValidIssuer;
    forall slug | slug in t.issuers
      ensures ValidIssuer(t, slug)
    {
      if slug == d.slug {
        FirstIssuerValid(t, d, rootKey, now, m);
      } else {
        assert ValidIssuer(s, slug);
        IssuerKept(s, t, slug);
      }
    }
  }

  lemma {:induction false} FirstIssuersValid(s: AuthorityState, defs: seq<IssuerDefinition>, supply: Supply, now: Instant)
    requires ValidState(s) && s.pending.None?
    requires forall i :: 0 <= i < |defs| ==> ValidDefinition(defs[i])
    requires FirstIssuers(s, defs, s.roots[s.activeRoot].certificate.publicKey, supply, now).Ok?
    ensures ValidState(FirstIssuers(s, defs, s.roots[s.activeRoot].certificate.publicKey, supply, now).value)
  {
    assert s.activeRoot in s.roots;
    hide ValidState, ValidDefinition, MakeIssuer;
    if defs == [] {
    } else {
      var key := s.roots[s.activeRoot].certificate.publicKey;
      var init, d := defs[..|defs| - 1], defs[|defs| - 1];
      FirstIssuersValid(s, init, supply, now);
      IssuerAdded(FirstIssuers(s, init, key, supply, now).value, d, key, now, supply(ForIssuer(d.slug)));
    }
  }

  /** Provisioning leaves a valid document exactly when the configured identity has no common name. */
  lemma ProvisionPasses(cfg: ManagerConfig, supply: Supply, now: Instant)
    requires ValidConfig(cfg) && Provision(cfg, supply, now).Ok?
    ensures ValidState(Provision(cfg, supply, now).value) <==> PlainIdentity(cfg)
  {
    if PlainIdentity(cfg) {
      ProvisionIsValid(cfg, supply, now);
    } else {
      var t := Provision(cfg, supply, now).value;
      assert t.(revision := t.revision) == t;
      ProvisionRefused(cfg, supply, now, t.revision);
      StateErrorsMeaning(t);
    }
  }

  lemma ProvisionIsValid(cfg: ManagerConfig, supply: Supply, now: Instant)
    requires ValidConfig(cfg) && PlainIdentity(cfg) && Provision(cfg, supply, now).Ok?
    ensures ValidState(Provision(cfg, supply, now).value)
  {
    hide ValidDefinition;
    var t := Provision(cfg, supply, now).value;
    var root := MakeRoot(t.spec, 1, now, supply(ForRoot));
    var bare := AuthorityState(t.spec, 0, 1, map[1 := root], map[], None);
    NewRootValid(bare, 1, now, supply(ForRoot));
    hide ValidRoot;
    FirstIssuersValid(bare, cfg.issuers, supply, now);
  }

  lemma AddIssuerPasses(s: AuthorityState, d: IssuerDefinition, secret: Secret, supply: Supply, now: Instant)
    requires ValidState(s) && s.pending.None? && ValidDefinition(d) && AddIssuer(s, d, secret, supply, now).Ok?
    ensures ValidState(AddIssuer(s, d, secret, supply, now).value)
  {
    assert s.activeRoot in s.roots;
    hide ValidState, ValidDefinition, MakeIssuer;
    if d.slug !in s.issuers {
      IssuerAdded(s, d, ActiveRootSigner(s, secret).value, now, supply(ForIssuer(d.slug)));
    }
  }

  lemma {:induction false} AddIssuersPasses(s: AuthorityState, defs: seq<IssuerDefinition>, secret: Secret, supply: Supply, now: Instant)
    requires ValidState(s) && s.pending.None? && forall i :: 0 <= i < |defs| ==> ValidDefinition(defs[i])
    requires AddIssuers(s, defs, secret, supply, now).Ok?
    ensures ValidState(AddIssuers(s, defs, secret, supply, now).value)
  {
    assert s.activeRoot in s.roots;
    hide ValidState, ValidDefinition, AddIssuer;
    if defs == [] {
    } else {
      var init, d := defs[..|defs| - 1], defs[|defs| - 1];
      AddIssuersPasses(s, init, secret, supply, now);
      AddIssuerPasses(AddIssuers(s, init, secret, supply, now).value, d, secret, supply, now);
    }
  }

  /** An issuer with a staged successor under generation g. */
  lemma StagedIssuerValid(s: AuthorityState, t: AuthorityState, slug: Slug, g: int, now: Instant, m: Material)
    requires slug in s.issuers && ValidIssuer(s, slug) && s.pending.None? && slug in t.issuers && t.spec == s.spec && t.activeRoot == s.activeRoot
    requires PendingVersion(t, slug, s.issuers[slug].activeVersion + 1) && g in t.roots && ValidRoot(t, g)
    requires forall h :: h in s.roots ==> h in t.roots && t.roots[h] == s.roots[h]
    requires var root := t.roots[g].certificate;
             var v := MakeIssuer(s.spec, g, s.issuers[slug].activeVersion + 1, s.issuers[slug].definition, root, root.publicKey, now, m);
             v.Ok? && t.issuers[slug] == Staged(s.issuers[slug], v.value) && v.value.rootGeneration == g
    ensures ValidIssuer(t, slug)
  {
    hide ValidVersion, ValidRoot, ValidDefinition, MakeIssuer;
    forall v | v in t.issuers[slug].versions
      ensures ValidVersion(t, slug, v)
    {
      if v == s.issuers[slug].activeVersion + 1 {
        NewVersionValid(t, slug, v, t.roots[g].certificate.publicKey, now, m);
      } else {
        assert ValidVersion(s, slug, v);
        VersionRoot(s, slug, v);
        VersionKept(s, t, slug, v);
      }
    }
  }

  lemma MadeGeneration(spec: AuthoritySpec, g: int, version: int, d: IssuerDefinition, root: Certificate, rootKey: nat, now: Instant, m: Material)
    requires MakeIssuer(spec, g, version, d, root, rootKey, now, m).Ok?
    ensures MakeIssuer(spec, g, version, d, root, rootKey, now, m).value.rootGeneration == g
  {
  }

  lemma {:induction false} NextGenerationIsFree(roots: map<int, RootRecord>, g: int)
    ensures NextGeneration(roots, g) !in roots && NextGeneration(roots, g) >= g
    decreases |roots|
  {
    if g in roots {
      assert |roots - {g}| < |roots| by {
        assert (roots - {g}).Keys == roots.Keys - {g};
        assert |roots.Keys - {g}| == |roots.Keys| - 1;
      }
      NextGenerationIsFree(roots - {g}, g + 1);
    } else {
    }
  }

  lemma PreparedRoot(s: AuthorityState, supply: Supply, now: Instant, h: int)
    requires ValidState(s) && s.pending.None? && PrepareRoot(s, supply, now).Ok? && h in PrepareRoot(s, supply, now).value.roots
    ensures var t := PrepareRoot(s, supply, now).value;
            && ValidRoot(t, h)
            && (h in s.roots ==> t.roots[h] == s.roots[h])
  {
    hide MakeIssuer, MakeRoot, ValidIssuer;
    var t := PrepareRoot(s, supply, now).value;
    var g := NextGeneration(s.roots, s.activeRoot + 1);
    NextGenerationIsFree(s.roots, s.activeRoot + 1);
    if h == g {
      NewRootValid(t, g, now, supply(ForRoot));
    } else {
      assert ValidRoot(s, h);
      RootKept(s, t, h);
    }
  }

  lemma PreparedIssuer(s: AuthorityState, supply: Supply, now: Instant, slug: Slug)
    requires ValidState(s) && s.pending.None? && PrepareRoot(s, supply, now).Ok? && slug in PrepareRoot(s, supply, now).value.issuers
    requires var t, g := PrepareRoot(s, supply, now).value, NextGeneration(s.roots, s.activeRoot + 1);
             && g in t.roots && ValidRoot(t, g)
             && (forall h :: h in s.roots ==> h in t.roots && t.roots[h] == s.roots[h])
    ensures ValidIssuer(PrepareRoot(s, supply, now).value, slug)
  {
    hide MakeIssuer, MakeRoot, ValidRoot, ValidIssuer;
    var t := PrepareRoot(s, supply, now).value;
    var g := NextGeneration(s.roots, s.activeRoot + 1);
    assert t.roots[g] == MakeRoot(s.spec, g, now, supply(ForRoot));
    MadeRootCertificate(s.spec, g, now, supply(ForRoot));
    var root, i := t.roots[g].certificate, s.issuers[slug];
    assert Successor(s.(roots := s.roots[g := t.roots[g]]), slug, g, root, supply(ForRoot).key, supply, now).Ok?;
    MadeGeneration(s.spec, g, i.activeVersion + 1, i.definition, root, root.publicKey, now, supply(ForIssuer(slug)));
    StagedIssuerValid(s, t, slug, g, now, supply(ForIssuer(slug)));
  }

  lemma PrepareRootPasses(s: AuthorityState, supply: Supply, now: Instant)
    requires ValidState(s) && s.pending.None? && PrepareRoot(s, supply, now).Ok?
    ensures ValidState(PrepareRoot(s, supply, now).value)
  {
    hide MakeIssuer, MakeRoot, ValidRoot, ValidIssuer, ValidPending;
    var t := PrepareRoot(s, supply, now).value;
    NextGenerationIsFree(s.roots, s.activeRoot + 1);
    forall h | h in t.roots
      ensures ValidRoot(t, h)
      ensures h in s.roots ==> t.roots[h] == s.roots[h]
    {
      PreparedRoot(s, supply, now, h);
    }
    forall slug | slug in t.issuers
      ensures ValidIssuer(t, slug)
    {
      PreparedIssuer(s, supply, now, slug);
    }
    PrepareRootPending(s, supply, now);
  }

  lemma PrepareRootPending(s: AuthorityState, supply: Supply, now: Instant)
    requires PrepareRoot(s, supply, now).Ok?
    ensures ValidPending(PrepareRoot(s, supply, now).value)
  {
    hide MakeIssuer, MakeRoot;
    var t := PrepareRoot(s, supply, now).value;
    SameKeysSameSize(t.pending.value.issuers, t.issuers);
  }

  lemma PreparedSuccessor(s: AuthorityState, due: set<Slug>, secret: Secret, supply: Supply, now: Instant, slug: Slug)
    requires ValidState(s) && s.pending.None? && due <= s.issuers.Keys && PrepareIssuers(s, due, secret, supply, now).Ok? && slug in due
    requires ValidRoot(PrepareIssuers(s, due, secret, supply, now).value, s.activeRoot)
    ensures var t := PrepareIssuers(s, due, secret, supply, now).value;
            slug in t.issuers && ValidIssuer(t, slug)
  {
    hide MakeIssuer, ValidRoot, ValidVersion, ValidDefinition;
    var t := PrepareIssuers(s, due, secret, supply, now).value;
    var g, root := s.activeRoot, s.roots[s.activeRoot].certificate;
    assert ValidIssuer(s, slug);
    assert Successor(s, slug, g, root, root.publicKey, supply, now).Ok?;
    MadeGeneration(s.spec, g, s.issuers[slug].activeVersion + 1, s.issuers[slug].definition, root, root.publicKey, now, supply(ForIssuer(slug)));
    StagedIssuerValid(s, t, slug, g, now, supply(ForIssuer(slug)));
  }

  lemma LeftOutIssuer(s: AuthorityState, due: set<Slug>, secret: Secret, supply: Supply, now: Instant, slug: Slug)
    requires ValidState(s) && s.pending.None? && due <= s.issuers.Keys && PrepareIssuers(s, due, secret, supply, now).Ok?
    requires slug in s.issuers && slug !in due
    ensures var t := PrepareIssuers(s, due, secret, supply, now).value;
            slug in t.issuers && (ValidIssuer(t, slug) <==> 0 !in s.issuers[slug].versions)
  {
    hide MakeIssuer, ValidRoot, ValidVersion, ValidDefinition;
    var t := PrepareIssuers(s, due, secret, supply, now).value;
    assert ValidIssuer(s, slug);
    IssuerKept(s, t, slug);
    assert VersionNeedsKey(t, slug, 0) && !VersionNeedsKey(s, slug, 0);
  }

  lemma PreparedRootKept(s: AuthorityState, due: set<Slug>, secret: Secret, supply: Supply, now: Instant, g: int)
    requires ValidState(s) && s.pending.None? && due <= s.issuers.Keys && PrepareIssuers(s, due, secret, supply, now).Ok? && g in s.roots
    ensures var t := PrepareIssuers(s, due, secret, supply, now).value;
            t.roots == s.roots && ValidRoot(t, g)
  {
    hide MakeIssuer, ValidIssuer;
    assert ValidRoot(s, g);
    RootKept(s, PrepareIssuers(s, due, secret, supply, now).value, g);
  }

  lemma PreparedRest(s: AuthorityState, due: set<Slug>, secret: Secret, supply: Supply, now: Instant)
    requires s.activeRoot in s.roots && due <= s.issuers.Keys && PrepareIssuers(s, due, secret, supply, now).Ok?
    ensures var t := PrepareIssuers(s, due, secret, supply, now).value;
            && t.spec == s.spec && t.activeRoot == s.activeRoot && t.roots == s.roots && t.issuers.Keys == s.issuers.Keys
            && t.revision == s.revision && ValidPending(t)
  {
    hide MakeIssuer;
  }

  /** Staging successors for the due issuers leaves a valid document exactly when no issuer left out
      has a version 0. */
  lemma PrepareIssuersPasses(s: AuthorityState, due: set<Slug>, secret: Secret, supply: Supply, now: Instant)
    requires ValidState(s) && s.pending.None? && due <= s.issuers.Keys && PrepareIssuers(s, due, secret, supply, now).Ok?
    ensures ValidState(PrepareIssuers(s, due, secret, supply, now).value) <==>
            forall slug :: slug in s.issuers && slug !in due ==> 0 !in s.issuers[slug].versions
  {
    hide PrepareIssuers, ValidRoot, ValidIssuer, ValidPending;
    var t := PrepareIssuers(s, due, secret, supply, now).value;
    PreparedRest(s, due, secret, supply, now);
    forall g | g in s.roots
      ensures ValidRoot(t, g)
    {
      PreparedRootKept(s, due, secret, supply, now, g);
    }
    forall slug | slug in s.issuers
      ensures ValidIssuer(t, slug) <==> slug in due || 0 !in s.issuers[slug].versions
    {
      if slug in due {
        PreparedSuccessor(s, due, secret, supply, now, slug);
      } else {
        LeftOutIssuer(s, due, secret, supply, now, slug);
      }
    }
  }

  ghost predicate SomeDue(s: AuthorityState, opts: EnsureOptions, now: Instant)
    requires forall slug :: slug in s.issuers ==> s.issuers[slug].activeVersion in s.issuers[slug].versions
  {
    exists slug :: slug in s.issuers && IssuerDue(s, opts, slug, now)
  }

  ghost predicate NoZeroLeftOut(s: AuthorityState, opts: EnsureOptions, now: Instant)
    requires forall slug :: slug in s.issuers ==> s.issuers[slug].activeVersion in s.issuers[slug].versions
  {
    forall slug :: slug in s.issuers && 0 in s.issuers[slug].versions ==> IssuerDue(s, opts, slug, now)
  }

  lemma RotatePasses(before: AuthorityState, s: AuthorityState, opts: EnsureOptions, secret: Secret, supply: Supply, now: Instant)
    requires ValidState(s) && s.pending.None? && Rotate(before, s, opts, secret, supply, now).Ok?
    ensures ValidState(Rotate(before, s, opts, secret, supply, now).value) <==>
            || RotationDue(opts.rootRotateBefore, s.roots[s.activeRoot].certificate.notAfter, now)
            || !SomeDue(s, opts, now)
            || NoZeroLeftOut(s, opts, now)
  {
    hide PrepareRoot, PrepareIssuers, ValidRoot, ValidVersion, ValidPending;
    if RotationDue(opts.rootRotateBefore, s.roots[s.activeRoot].certificate.notAfter, now) {
      PrepareRootPasses(s, supply, now);
    } else {
      var due := set slug | slug in s.issuers && IssuerDue(s, opts, slug, now);
      if due != {} {
        var some := SomeMember(due);
        PrepareIssuersPasses(s, due, secret, supply, now);
      } else {
        assert forall slug :: slug in s.issuers ==> slug !in due;
      }
    }
  }

  /** An issuer as AddIssuers creates it. */
  predicate Created(i: IssuerRecord, now: Instant) {
    && i.activeVersion == 1 && i.versions.Keys == {1}
    && i.versions[1].certificate.notAfter == WholeSeconds(now + i.definition.validity)
  }

  lemma AddedIssuer(s: AuthorityState, d: IssuerDefinition, secret: Secret, supply: Supply, now: Instant)
    requires s.activeRoot in s.roots && AddIssuer(s, d, secret, supply, now).Ok?
    ensures var t := AddIssuer(s, d, secret, supply, now).value;
            && d.slug in t.issuers && t.issuers[d.slug].definition == d
            && t.issuers == s.issuers[d.slug := t.issuers[d.slug]]
            && (if d.slug in s.issuers then t.issuers[d.slug] == s.issuers[d.slug] else Created(t.issuers[d.slug], now))
  {
    hide WholeSeconds;
    if d.slug in s.issuers {
      assert s.issuers == s.issuers[d.slug := s.issuers[d.slug]];
    }
  }

  /** t is s with the configured issuers added that it did not know. */
  ghost predicate AddedTo(s: AuthorityState, t: AuthorityState, defs: seq<IssuerDefinition>, now: Instant) {
    && (forall slug :: slug in s.issuers ==> slug in t.issuers && t.issuers[slug] == s.issuers[slug])
    && (forall i :: 0 <= i < |defs| ==> defs[i].slug in t.issuers && t.issuers[defs[i].slug].definition == defs[i])
    && (forall slug :: slug in t.issuers && slug !in s.issuers ==>
          Created(t.issuers[slug], now) && exists i :: 0 <= i < |defs| && defs[i].slug == slug)
  }

  lemma AddedStep(s: AuthorityState, before: AuthorityState, t: AuthorityState, init: seq<IssuerDefinition>, d: IssuerDefinition,
          now: Instant)
    requires AddedTo(s, before, init, now) && d.slug in t.issuers && t.issuers[d.slug].definition == d
    requires t.issuers == before.issuers[d.slug := t.issuers[d.slug]]
    requires if d.slug in before.issuers then t.issuers[d.slug] == before.issuers[d.slug] else Created(t.issuers[d.slug], now)
    ensures AddedTo(s, t, init + [d], now)
  {
    hide Created;
    var defs := init + [d];
    assert defs[|init|] == d;
    forall slug | slug in t.issuers && slug !in s.issuers
      ensures Created(t.issuers[slug], now) && exists i :: 0 <= i < |defs| && defs[i].slug == slug
    {
      if slug != d.slug {
        var i :| 0 <= i < |init| && init[i].slug == slug;
        assert defs[i] == init[i];
      }
    }
    forall i | 0 <= i < |defs|
      ensures defs[i].slug in t.issuers && t.issuers[defs[i].slug].definition == defs[i]
    {
      if i < |init| {
        assert defs[i] == init[i];
      }
    }
  }

  lemma NothingAdded(s: AuthorityState, now: Instant)
    ensures AddedTo(s, s, [], now)
  {
  }

  lemma {:induction false} AddedIssuers(s: AuthorityState, defs: seq<IssuerDefinition>, secret: Secret, supply: Supply, now: Instant)
    requires s.activeRoot in s.roots && AddIssuers(s, defs, secret, supply, now).Ok?
    ensures AddedTo(s, AddIssuers(s, defs, secret, supply, now).value, defs, now)
  {
    hide AddIssuer, AddedTo, Created;
    if defs == [] {
      NothingAdded(s, now);
    } else {
      var init, d := defs[..|defs| - 1], defs[|defs| - 1];
      AddedIssuers(s, init, secret, supply, now);
      var before := AddIssuers(s, init, secret, supply, now).value;
      AddedIssuer(before, d, secret, supply, now);
      AddedStep(s, before, AddIssuers(s, defs, secret, supply, now).value, init, d, now);
      assert init + [d] == defs;
    }
  }

  lemma CreatedDue(t: AuthorityState, opts: EnsureOptions, slug: Slug, now: Instant)
    requires slug in t.issuers && Created(t.issuers[slug], now)
    ensures IssuerDue(t, opts, slug, now) <==> NewIssuerDue(t.issuers[slug].definition, opts, now)
  {
  }

  lemma DueInBoth(s: AuthorityState, t: AuthorityState, opts: EnsureOptions, slug: Slug, now: Instant)
    requires slug in s.issuers && slug in t.issuers && t.issuers[slug] == s.issuers[slug]
    requires s.issuers[slug].activeVersion in s.issuers[slug].versions
    ensures IssuerDue(t, opts, slug, now) <==> IssuerDue(s, opts, slug, now)
  {
  }

  ghost predicate SomeConfiguredDue(s: AuthorityState, defs: seq<IssuerDefinition>, opts: EnsureOptions, now: Instant) {
    exists i :: 0 <= i < |defs| && defs[i].slug !in s.issuers && NewIssuerDue(defs[i], opts, now)
  }

  /** What is due after the configured issuers are added, said of the document before. */
  lemma DueAfterAdding(s: AuthorityState, t: AuthorityState, defs: seq<IssuerDefinition>, opts: EnsureOptions, now: Instant)
    requires AddedTo(s, t, defs, now)
    requires forall slug :: slug in s.issuers ==> s.issuers[slug].activeVersion in s.issuers[slug].versions
    requires forall slug :: slug in t.issuers ==> t.issuers[slug].activeVersion in t.issuers[slug].versions
    ensures SomeDue(t, opts, now) <==> SomeDue(s, opts, now) || SomeConfiguredDue(s, defs, opts, now)
    ensures NoZeroLeftOut(t, opts, now) <==> NoZeroLeftOut(s, opts, now)
  {
    hide IssuerDue, NewIssuerDue, Created;
    forall slug | slug in s.issuers
      ensures slug in t.issuers && (IssuerDue(t, opts, slug, now) <==> IssuerDue(s, opts, slug, now))
    {
      DueInBoth(s, t, opts, slug, now);
    }
    forall slug | slug in t.issuers && slug !in s.issuers
      ensures IssuerDue(t, opts, slug, now) <==> NewIssuerDue(t.issuers[slug].definition, opts, now)
      ensures 0 !in t.issuers[slug].versions
    {
      CreatedDue(t, opts, slug, now);
      CreatedHasNoZero(t.issuers[slug], now);
    }
    if slug :| slug in t.issuers && slug !in s.issuers && IssuerDue(t, opts, slug, now) {
      var i :| 0 <= i < |defs| && defs[i].slug == slug;
      assert NewIssuerDue(defs[i], opts, now);
    }
    if i :| 0 <= i < |defs| && defs[i].slug !in s.issuers && NewIssuerDue(defs[i], opts, now) {
      assert IssuerDue(t, opts, defs[i].slug, now);
    }
  }

  lemma CreatedHasNoZero(i: IssuerRecord, now: Instant)
    requires Created(i, now)
    ensures 0 !in i.versions
  {
    assert 0 !in i.versions.Keys;
  }

  /** Ensure leaves a valid document exactly when no issuer that it leaves out of an issuer manifest
      has a version 0; provisioning, exactly when the configured identity has no common name. */
  lemma EnsurePasses(s: AuthorityState, cfg: ManagerConfig, opts: EnsureOptions, secret: Secret, supply: Supply, now: Instant)
    requires (s == EMPTY_STATE || ValidState(s)) && ValidConfig(cfg) && Ensure(s, cfg, opts, secret, supply, now).Ok?
    ensures ValidState(Ensure(s, cfg, opts, secret, supply, now).value) <==>
            if s == EMPTY_STATE then PlainIdentity(cfg) else EnsureAllowed(s, cfg, opts, now)
  {
    if s.spec.id == "" {
      hide ValidState;
      ProvisionPasses(cfg, supply, now);
    } else {
      ExistingEnsurePasses(s, cfg, opts, secret, supply, now);
    }
  }

  lemma ExistingEnsurePasses(s: AuthorityState, cfg: ManagerConfig, opts: EnsureOptions, secret: Secret, supply: Supply, now: Instant)
    requires ValidState(s) && ValidConfig(cfg) && Ensure(s, cfg, opts, secret, supply, now).Ok?
    ensures ValidState(Ensure(s, cfg, opts, secret, supply, now).value) <==> EnsureAllowed(s, cfg, opts, now)
  {
    AddIssuersPasses(s, cfg.issuers, secret, supply, now);
    AddedIssuers(s, cfg.issuers, secret, supply, now);
    ValidIssuersKnown(s);
    var t := AddIssuers(s, cfg.issuers, secret, supply, now).value;
    ValidIssuersKnown(t);
    RotatePasses(s, t, opts, secret, supply, now);
    DueAfterAdding(s, t, cfg.issuers, opts, now);
    AllowedMeans(s, cfg, opts, now);
    hide Provision, AddIssuers, Rotate, ValidRoot, ValidIssuer, ValidPending, RotationDue, SomeDue, NoZeroLeftOut, SomeConfiguredDue,
      AddedTo, EnsureAllowed;
  }

  lemma ValidIssuersKnown(s: AuthorityState)
    requires ValidState(s)
    ensures forall slug :: slug in s.issuers ==> s.issuers[slug].activeVersion in s.issuers[slug].versions
  {
    hide ValidRoot, ValidVersion, ValidPending;
    forall slug | slug in s.issuers
      ensures s.issuers[slug].activeVersion in s.issuers[slug].versions
    {
      assert ValidIssuer(s, slug);
    }
  }

  lemma AllowedMeans(s: AuthorityState, cfg: ManagerConfig, opts: EnsureOptions, now: Instant)
    requires ValidState(s) && forall slug :: slug in s.issuers ==> s.issuers[slug].activeVersion in s.issuers[slug].versions
    ensures EnsureAllowed(s, cfg, opts, now) <==>
            || RotationDue(opts.rootRotateBefore, s.roots[s.activeRoot].certificate.notAfter, now)
            || !(SomeDue(s, opts, now) || SomeConfiguredDue(s, cfg.issuers, opts, now))
            || NoZeroLeftOut(s, opts, now)
  {
    hide ValidRoot, ValidVersion, ValidPending, RotationDue, IssuerDue, NewIssuerDue;
  }

  // ----- Prune: the re-check always passes -----

  lemma PrunePasses(s: AuthorityState, generation: int, fingerprint: nat, now: Instant)
    requires ValidState(s) && Prune(s, generation, fingerprint, now).Ok?
    ensures ValidState(Prune(s, generation, fingerprint, now).value)
  {
    hide ValidVersion, ValidDefinition;
    var t := Prune(s, generation, fingerprint, now).value;
    forall g | g in t.roots
      ensures ValidRoot(t, g)
    {
      assert ValidRoot(s, g);
      RootKept(s, t, g);
    }
    hide ValidRoot, ValidIssuer;
    forall slug | slug in t.issuers
      ensures ValidIssuer(t, slug)
    {
      assert ValidIssuer(s, slug);
      IssuerKept(s, t, slug);
    }
  }

  // ----- Discard, table by table -----

  lemma DiscardedRoots(s: AuthorityState, p: Pending)
    requires ValidState(s) && s.pending == Some(p)
    ensures var t := Discarded(s, p);
            (t.activeRoot in t.roots && forall g :: g in t.roots ==> ValidRoot(t, g)) <==>
            ((p.rootGeneration > 0 ==> p.rootGeneration != s.activeRoot) && (p.kind == PendingRoot ==> p.rootGeneration > 0))
  {
    var t := Discarded(s, p);
    forall g | g in t.roots
      ensures ValidRoot(t, g) <==> !(p.kind == PendingRoot && g == p.rootGeneration && g != s.activeRoot)
    {
      assert ValidRoot(s, g);
      RootKept(s, t, g);
    }
    hide ValidRoot, ValidIssuer;
    if p.kind == PendingRoot && p.rootGeneration <= 0 {
      assert p.rootGeneration in t.roots && !ValidRoot(t, p.rootGeneration);
    }
  }

  ghost predicate DiscardableIssuer(s: AuthorityState, p: Pending, slug: Slug)
    requires slug in s.issuers
  {
    var i := s.issuers[slug];
    && (slug in p.issuers ==> p.issuers[slug] != i.activeVersion)
    && (slug !in p.issuers ==> 0 !in i.versions)
    && (p.rootGeneration > 0 ==> forall v :: v in i.versions && i.versions[v].rootGeneration == p.rootGeneration
                                   ==> slug in p.issuers && p.issuers[slug] == v)
  }

  lemma DiscardedVersionValid(s: AuthorityState, p: Pending, slug: Slug, v: int)
    requires s.pending == Some(p) && slug in s.issuers && v in s.issuers[slug].versions && ValidVersion(s, slug, v)
    requires !(slug in p.issuers && p.issuers[slug] == v) && s.issuers[slug].activeVersion >= 1
    ensures var t := Discarded(s, p);
            && v in t.issuers[slug].versions
            && (ValidVersion(t, slug, v) <==>
                && !(p.rootGeneration > 0 && s.issuers[slug].versions[v].rootGeneration == p.rootGeneration)
                && !(slug !in p.issuers && v == 0))
  {
    var t := Discarded(s, p);
    VersionRoot(s, slug, v);
    VersionKept(s, t, slug, v);
    hide ValidVersion;
  }

  lemma DiscardedIssuerValid(s: AuthorityState, p: Pending, slug: Slug)
    requires s.pending == Some(p) && slug in s.issuers && ValidIssuer(s, slug)
    ensures var t := Discarded(s, p);
            slug in t.issuers && (ValidIssuer(t, slug) <==> DiscardableIssuer(s, p, slug))
  {
    hide ValidVersion, ValidDefinition;
    var t := Discarded(s, p);
    forall v | v in s.issuers[slug].versions && !(slug in p.issuers && p.issuers[slug] == v)
      ensures v in t.issuers[slug].versions
      ensures ValidVersion(t, slug, v) <==>
              && !(p.rootGeneration > 0 && s.issuers[slug].versions[v].rootGeneration == p.rootGeneration)
              && !(slug !in p.issuers && v == 0)
    {
      assert ValidVersion(s, slug, v);
      DiscardedVersionValid(s, p, slug, v);
    }
  }

  lemma DiscardableIssuers(s: AuthorityState, p: Pending)
    ensures (forall slug :: slug in s.issuers ==> DiscardableIssuer(s, p, slug)) <==>
            && (p.rootGeneration > 0 ==> NothingLeftUnder(s, p))
            && (forall slug :: slug in p.issuers && slug in s.issuers ==> p.issuers[slug] != s.issuers[slug].activeVersion)
            && NoVersionZero(s, p)
  {
    if forall slug :: slug in s.issuers ==> DiscardableIssuer(s, p, slug) {
      forall slug | slug in s.issuers
        ensures slug in p.issuers ==> p.issuers[slug] != s.issuers[slug].activeVersion
        ensures slug !in p.issuers ==> 0 !in s.issuers[slug].versions
      {
        assert DiscardableIssuer(s, p, slug);
      }
      forall slug, v | slug in s.issuers && v in s.issuers[slug].versions && p.rootGeneration > 0
                       && s.issuers[slug].versions[v].rootGeneration == p.rootGeneration
        ensures slug in p.issuers && p.issuers[slug] == v
      {
        assert DiscardableIssuer(s, p, slug);
      }
    }
  }

  lemma DiscardedRest(s: AuthorityState, p: Pending)
    ensures var t := Discarded(s, p);
            t.spec == s.spec && t.issuers.Keys == s.issuers.Keys && t.pending.None? && t.activeRoot == s.activeRoot
  {
    var t := Discarded(s, p);
    assert t.issuers.Keys == s.issuers.Keys;
  }

  /** After Discard the re-check passes exactly when the manifest names nothing active and leaves no
      version without its root. */
  lemma DiscardPassesExactly(s: AuthorityState, p: Pending)
    requires ValidState(s) && s.pending == Some(p)
    ensures ValidState(Discarded(s, p)) <==> DiscardPasses(s, p)
  {
    hide ValidRoot, ValidIssuer, Discarded, DiscardableIssuer, NothingLeftUnder, NoVersionZero;
    DiscardedRoots(s, p);
    forall slug | slug in s.issuers
      ensures slug in Discarded(s, p).issuers && (ValidIssuer(Discarded(s, p), slug) <==> DiscardableIssuer(s, p, slug))
    {
      assert ValidIssuer(s, slug);
      DiscardedIssuerValid(s, p, slug);
    }
    DiscardableIssuers(s, p);
    DiscardedRest(s, p);
  }

  // ----- Promote, table by table -----

  lemma PromotedRoots(s: AuthorityState, p: Pending, deadline: Instant)
    requires ValidState(s) && s.pending == Some(p)
    ensures var t := Promoted(s, p, deadline);
            && t.activeRoot == NextActiveRoot(s, p)
            && t.roots.Keys == s.roots.Keys
            && (forall g :: g in s.roots ==> t.roots[g].certificate == s.roots[g].certificate)
            && ((t.activeRoot >= 1 && t.activeRoot in t.roots && forall g :: g in t.roots ==> ValidRoot(t, g)) <==>
                (p.kind == PendingRoot ==> p.rootGeneration >= 1 && p.rootGeneration != s.activeRoot))
  {
    var t := Promoted(s, p, deadline);
    forall g | g in t.roots
      ensures ValidRoot(t, g) <==> !(p.kind == PendingRoot && g == p.rootGeneration == s.activeRoot)
    {
      assert ValidRoot(s, g);
      RootKept(s, t, g);
    }
    hide ValidRoot, ValidIssuer;
    assert t.roots.Keys == s.roots.Keys;
  }

  lemma PromotedVersionValid(s: AuthorityState, p: Pending, deadline: Instant, slug: Slug, v: int)
    requires s.activeRoot in s.roots && s.pending == Some(p) && slug in p.issuers && slug in s.issuers
    requires v in s.issuers[slug].versions && ValidVersion(s, slug, v)
    ensures var t := Promoted(s, p, deadline);
            && slug in t.issuers && v in t.issuers[slug].versions
            && (ValidVersion(t, slug, v) <==> !(v == p.issuers[slug] == s.issuers[slug].activeVersion))
  {
    var t := Promoted(s, p, deadline);
    VersionRoot(s, slug, v);
    assert t.issuers[slug] == Activated(s.issuers[slug], p.issuers[slug]);
    VersionKept(s, t, slug, v);
    hide ValidVersion;
  }

  lemma PromotedIssuerValid(s: AuthorityState, p: Pending, deadline: Instant, slug: Slug)
    requires s.activeRoot in s.roots && s.pending == Some(p) && slug in p.issuers && slug in s.issuers && ValidIssuer(s, slug)
    requires p.issuers[slug] in s.issuers[slug].versions
    requires var x := s.issuers[slug].versions[p.issuers[slug]];
             KeyMatches(x.key, x.certificate)
    ensures var t := Promoted(s, p, deadline);
            slug in t.issuers && (ValidIssuer(t, slug) <==> VersionPromotable(s, p, slug))
  {
    hide ValidVersion, ValidDefinition;
    var t := Promoted(s, p, deadline);
    forall v | v in s.issuers[slug].versions
      ensures v in t.issuers[slug].versions
      ensures ValidVersion(t, slug, v) <==> !(v == p.issuers[slug] == s.issuers[slug].activeVersion)
    {
      assert ValidVersion(s, slug, v);
      PromotedVersionValid(s, p, deadline, slug, v);
    }
    assert t.issuers[slug] == Activated(s.issuers[slug], p.issuers[slug]);
  }

  lemma UnpromotedIssuerValid(s: AuthorityState, p: Pending, deadline: Instant, slug: Slug)
    requires s.activeRoot in s.roots && s.pending == Some(p) && p.kind == PendingIssuer
    requires slug !in p.issuers && slug in s.issuers && ValidIssuer(s, slug)
    ensures var t := Promoted(s, p, deadline);
            slug in t.issuers && (ValidIssuer(t, slug) <==> 0 !in s.issuers[slug].versions)
  {
    var t := Promoted(s, p, deadline);
    assert s.issuers[slug].activeVersion >= 1;
    hide ValidIssuer;
    IssuerKept(s, t, slug);
    assert VersionNeedsKey(s, slug, 0) && !VersionNeedsKey(t, slug, 0);
  }

  /** A root manifest names every issuer. */
  lemma RootManifestIsFull(s: AuthorityState, p: Pending)
    requires ValidPending(s) && s.pending == Some(p) && p.kind == PendingRoot
    ensures p.issuers.Keys == s.issuers.Keys
  {
    assert |p.issuers.Keys| == |p.issuers| && |s.issuers.Keys| == |s.issuers|;
    assert p.issuers.Keys <= s.issuers.Keys;
    SubsetOfSameSize(p.issuers.Keys, s.issuers.Keys);
  }

  lemma SubsetOfSameSize<T>(a: set<T>, b: set<T>)
    requires a <= b && |a| == |b|
    ensures a == b
  {
    assert |b - a| == 0;
  }

  lemma PromotedIssuerDecides(s: AuthorityState, p: Pending, deadline: Instant, slug: Slug)
    requires s.activeRoot in s.roots && ValidPending(s) && s.pending == Some(p) && slug in s.issuers && ValidIssuer(s, slug)
    requires slug in p.issuers ==> KeyMatches(s.issuers[slug].versions[p.issuers[slug]].key, s.issuers[slug].versions[p.issuers[slug]].certificate)
    ensures var t := Promoted(s, p, deadline);
            slug in t.issuers && (ValidIssuer(t, slug) <==> if slug in p.issuers then VersionPromotable(s, p, slug) else 0 !in s.issuers[slug].versions)
  {
    hide ValidIssuer, Promoted, VersionPromotable;
    if slug in p.issuers {
      PromotedIssuerValid(s, p, deadline, slug);
    } else {
      if p.kind == PendingRoot {
        RootManifestIsFull(s, p);
      }
      UnpromotedIssuerValid(s, p, deadline, slug);
    }
  }

  lemma PromotedRest(s: AuthorityState, p: Pending, deadline: Instant)
    requires s.activeRoot in s.roots
    ensures var t := Promoted(s, p, deadline);
            t.spec == s.spec && t.issuers.Keys == s.issuers.Keys && t.pending.None?
  {
    var t := Promoted(s, p, deadline);
    assert t.issuers.Keys == s.issuers.Keys;
  }

  /** After promotion the re-check passes exactly when the manifest names nothing active and every
      pending version hangs under the root that becomes active. */
  lemma PromotePassesExactly(s: AuthorityState, cfg: ManagerConfig, secret: Secret, deadline: Instant)
    requires ValidState(s) && CheckPromotion(s, cfg, secret).Ok?
    ensures var p := CheckPromotion(s, cfg, secret).value;
            s.pending == Some(p) && (ValidState(Promoted(s, p, deadline)) <==> PromotePasses(s, p))
  {
    hide ValidRoot, ValidIssuer, Promoted, VersionPromotable;
    var p := CheckPromotion(s, cfg, secret).value;
    PromotedRoots(s, p, deadline);
    hide AssertSpec;
    forall slug | slug in s.issuers
      ensures slug in Promoted(s, p, deadline).issuers
      ensures ValidIssuer(Promoted(s, p, deadline), slug) <==>
              if slug in p.issuers then VersionPromotable(s, p, slug) else 0 !in s.issuers[slug].versions
    {
      PromotedIssuerDecides(s, p, deadline, slug);
    }
    PromotedRest(s, p, deadline);
  }

  // ----- every command -----

  lemma RevisionIsUnchecked(s: AuthorityState, revision: nat)
    requires revision >= s.revision && (s.pending.Some? ==> s.pending.value.expectedRevision <= s.revision)
    ensures ValidState(s.(revision := revision)) <==> ValidState(s)
  {
    var t := s.(revision := revision);
    hide ValidVersion, ValidRoot;
    forall g | g in s.roots
      ensures ValidRoot(t, g) <==> ValidRoot(s, g)
    {
      RootUnchecked(s, t, g);
    }
    forall slug | slug in s.issuers
      ensures ValidIssuer(t, slug) <==> ValidIssuer(s, slug)
    {
      forall v | v in s.issuers[slug].versions
        ensures ValidVersion(t, slug, v) <==> ValidVersion(s, slug, v)
      {
        VersionUnchecked(s, t, slug, v);
      }
    }
  }

  lemma RootUnchecked(s: AuthorityState, t: AuthorityState, g: int)
    requires g in s.roots && t == s.(revision := t.revision)
    ensures ValidRoot(t, g) <==> ValidRoot(s, g)
  {
  }

  lemma VersionUnchecked(s: AuthorityState, t: AuthorityState, slug: Slug, v: int)
    requires slug in s.issuers && v in s.issuers[slug].versions && t == s.(revision := t.revision)
    ensures ValidVersion(t, slug, v) <==> ValidVersion(s, slug, v)
  {
  }

  /** For every document that validateState accepts, and for the missing one: a mutation that
      succeeds leaves a valid document exactly when the command's condition held before it. */
  lemma RecheckExactly(s: AuthorityState, cfg: ManagerConfig, cmd: Command, ledger: seq<LedgerRecord>, now: Instant)
    requires (s == EMPTY_STATE || ValidState(s)) && ValidConfig(cfg) && Mutate(s, cfg, cmd, ledger, now).Ok?
    ensures ValidState(Mutate(s, cfg, cmd, ledger, now).value) <==> Passes(s, cfg, cmd, now)
  {
    hide ValidState, Ensure, Promoted, Discarded, TrustDeadline, DiscardPasses, PromotePasses, EnsureAllowed;
    match cmd
    case EnsureCommand(opts, secret, supply) => EnsurePasses(s, cfg, opts, secret, supply, now);
    case PromoteCommand(secret) => PromotePassesExactly(s, cfg, secret, TrustDeadline(s, ledger, s.activeRoot, now));
    case DiscardCommand => DiscardPassesExactly(s, s.pending.value);
    case PruneCommand(generation, fingerprint) => PrunePasses(s, generation, fingerprint, now);
  }

  // ----- what the re-check says when it refuses -----

  /** The roots of t are some of those of s, but for keys and windows. */
  ghost predicate SameRoots(s: AuthorityState, t: AuthorityState) {
    forall g :: g in t.roots ==>
      g in s.roots && t.roots[g] == s.roots[g].(key := t.roots[g].key, retiredTrustUntil := t.roots[g].retiredTrustUntil)
  }

  /** The versions of an issuer of t are those of s, but for keys, or valid in themselves. */
  ghost predicate SameVersions(s: AuthorityState, t: AuthorityState, slug: Slug)
    requires slug in t.issuers
  {
    && slug in s.issuers && t.issuers[slug].definition == s.issuers[slug].definition
    && forall v :: v in t.issuers[slug].versions ==>
         || (v in s.issuers[slug].versions && t.issuers[slug].versions[v] == s.issuers[slug].versions[v].(key := t.issuers[slug].versions[v].key))
         || ValidVersion(t, slug, v)
  }

  lemma SameVersionsCorrupt(s: AuthorityState, t: AuthorityState, slug: Slug)
    requires slug in t.issuers && SameRoots(s, t) && SameVersions(s, t, slug) && ValidIssuer(s, slug) && t.spec == s.spec
    ensures IssuerErrors(t, slug) <= {Corrupt}
  {
    hide KnownIssuer, ActiveFits, ValidVersion, VersionError, ValidDefinition;
    forall v | v in t.issuers[slug].versions
      ensures VersionError(t, slug, v) in {None, Some(Corrupt)}
    {
      if !ValidVersion(t, slug, v) {
        assert ValidVersion(s, slug, v);
        VersionRoot(s, slug, v);
        VersionKept(s, t, slug, v);
      }
      assert VersionError(t, slug, v).Some? ==> VersionError(t, slug, v).value in {Corrupt, Drift};
    }
  }

  lemma OnlyCorrupt(s: AuthorityState, t: AuthorityState)
    requires ValidState(s) && t.spec == s.spec && SameRoots(s, t) && forall slug :: slug in t.issuers ==> SameVersions(s, t, slug)
    ensures StateErrors(t) <= {Corrupt}
  {
    hide ValidRoot, RootError, ValidIssuer, IssuerErrors, SameVersions, ValidPending;
    forall g | g in t.roots
      ensures RootError(t, g) in {None, Some(Corrupt)}
    {
      assert ValidRoot(s, g);
      RootKept(s, t, g);
    }
    forall slug | slug in t.issuers
      ensures IssuerErrors(t, slug) <= {Corrupt}
    {
      assert SameVersions(s, t, slug);
      IssuerOfSame(s, t, slug);
      SameVersionsCorrupt(s, t, slug);
    }
  }

  lemma IssuerOfSame(s: AuthorityState, t: AuthorityState, slug: Slug)
    requires slug in t.issuers && SameVersions(s, t, slug)
    ensures slug in s.issuers
  {
  }

  lemma DiscardedIsSame(s: AuthorityState, p: Pending, revision: nat)
    requires ValidState(s) && s.pending == Some(p)
    ensures StateErrors(Discarded(s, p).(revision := revision)) <= {Corrupt}
  {
    hide ValidState, ValidVersion, StateErrors;
    OnlyCorrupt(s, Discarded(s, p).(revision := revision));
  }

  lemma PromotedIsSame(s: AuthorityState, p: Pending, deadline: Instant, revision: nat)
    requires ValidState(s) && s.pending == Some(p) && s.activeRoot in s.roots
    ensures StateErrors(Promoted(s, p, deadline).(revision := revision)) <= {Corrupt}
  {
    hide ValidState, ValidVersion, StateErrors;
    OnlyCorrupt(s, Promoted(s, p, deadline).(revision := revision));
  }

  lemma PreparedIsSame(s: AuthorityState, due: set<Slug>, secret: Secret, supply: Supply, now: Instant, revision: nat)
    requires ValidState(s) && s.pending.None? && due <= s.issuers.Keys && PrepareIssuers(s, due, secret, supply, now).Ok?
    ensures StateErrors(PrepareIssuers(s, due, secret, supply, now).value.(revision := revision)) <= {Corrupt}
  {
    hide PrepareIssuers, ValidRoot, ValidIssuer, ValidPending, SameVersions, StateErrors;
    var t := PrepareIssuers(s, due, secret, supply, now).value;
    PreparedRest(s, due, secret, supply, now);
    PreparedRootKept(s, due, secret, supply, now, s.activeRoot);
    forall slug | slug in t.issuers
      ensures SameVersions(s, t.(revision := revision), slug)
    {
      if slug in due {
        PreparedSuccessor(s, due, secret, supply, now, slug);
      }
      PreparedVersions(s, due, secret, supply, now, slug, revision);
    }
    OnlyCorrupt(s, t.(revision := revision));
  }

  lemma PreparedVersions(s: AuthorityState, due: set<Slug>, secret: Secret, supply: Supply, now: Instant, slug: Slug, revision: nat)
    requires s.activeRoot in s.roots && due <= s.issuers.Keys && PrepareIssuers(s, due, secret, supply, now).Ok? && slug in s.issuers
    requires slug in due ==> ValidIssuer(PrepareIssuers(s, due, secret, supply, now).value, slug)
    ensures SameVersions(s, PrepareIssuers(s, due, secret, supply, now).value.(revision := revision), slug)
  {
    hide MakeIssuer, ValidVersion;
    var t := PrepareIssuers(s, due, secret, supply, now).value;
    if slug in due {
      forall v | v in t.issuers[slug].versions
        ensures ValidVersion(t.(revision := revision), slug, v)
      {
        assert ValidVersion(t, slug, v);
        VersionUnchecked(t, t.(revision := revision), slug, v);
      }
    }
  }

  lemma RotateRefused(before: AuthorityState, s: AuthorityState, opts: EnsureOptions, secret: Secret, supply: Supply, now: Instant,
          revision: nat)
    requires ValidState(s) && s.pending.None? && Rotate(before, s, opts, secret, supply, now).Ok?
    requires !ValidState(Rotate(before, s, opts, secret, supply, now).value)
    ensures StateErrors(Rotate(before, s, opts, secret, supply, now).value.(revision := revision)) <= {Corrupt}
  {
    hide PrepareRoot, PrepareIssuers, ValidRoot, ValidVersion, ValidPending, StateErrors;
    if RotationDue(opts.rootRotateBefore, s.roots[s.activeRoot].certificate.notAfter, now) {
      PrepareRootPasses(s, supply, now);
    } else {
      var due := set slug | slug in s.issuers && IssuerDue(s, opts, slug, now);
      PreparedIsSame(s, due, secret, supply, now, revision);
    }
  }

  lemma EnsureRefused(s: AuthorityState, cfg: ManagerConfig, opts: EnsureOptions, secret: Secret, supply: Supply, now: Instant,
          revision: nat)
    requires ValidState(s) && ValidConfig(cfg) && Ensure(s, cfg, opts, secret, supply, now).Ok?
    requires !ValidState(Ensure(s, cfg, opts, secret, supply, now).value)
    ensures StateErrors(Ensure(s, cfg, opts, secret, supply, now).value.(revision := revision)) <= {Corrupt}
  {
    IdentifiedSpec(s);
    hide ValidState, ValidDefinition, StateErrors, Rotate, AddIssuers, AssertSpec, ActiveRootSigner;
    AddIssuersPasses(s, cfg.issuers, secret, supply, now);
    RotateRefused(s, AddIssuers(s, cfg.issuers, secret, supply, now).value, opts, secret, supply, now, revision);
  }

  lemma PromoteRefused(s: AuthorityState, cfg: ManagerConfig, secret: Secret, ledger: seq<LedgerRecord>, now: Instant, revision: nat)
    requires ValidState(s) && Promote(s, cfg, secret, ledger, now).Ok?
    ensures StateErrors(Promote(s, cfg, secret, ledger, now).value.(revision := revision)) <= {Corrupt}
  {
    IdentifiedSpec(s);
    hide ValidState, StateErrors, Promoted, TrustDeadline, AssertSpec, LedgerReadable;
    PromotedIsSame(s, s.pending.value, TrustDeadline(s, ledger, s.activeRoot, now), revision);
  }

  lemma DiscardRefused(s: AuthorityState, cfg: ManagerConfig, revision: nat)
    requires ValidState(s) && Discard(s, cfg).Ok?
    ensures StateErrors(Discard(s, cfg).value.(revision := revision)) <= {Corrupt}
  {
    hide ValidState, StateErrors, Discarded, AssertSpec;
    DiscardedIsSame(s, s.pending.value, revision);
  }

  lemma FirstRefused(cfg: ManagerConfig, cmd: Command, ledger: seq<LedgerRecord>, now: Instant, revision: nat)
    requires ValidConfig(cfg) && Mutate(EMPTY_STATE, cfg, cmd, ledger, now).Ok?
    requires !ValidState(Mutate(EMPTY_STATE, cfg, cmd, ledger, now).value)
    ensures StateErrors(Mutate(EMPTY_STATE, cfg, cmd, ledger, now).value.(revision := revision)) <= {Drift}
  {
    hide ValidState, StateErrors, Mutate, Provision, ValidConfig;
    ProvisionedByMutate(cfg, cmd, ledger, now);
    ProvisionPasses(cfg, cmd.supply, now);
    ProvisionRefused(cfg, cmd.supply, now, revision);
  }

  /** On a document the re-check refuses a mutation with "corrupt", whatever order the maps come in;
      a first document, for its root's subject. */
  lemma RefusalErrors(s: AuthorityState, cfg: ManagerConfig, cmd: Command, ledger: seq<LedgerRecord>, now: Instant, revision: nat)
    requires (s == EMPTY_STATE || ValidState(s)) && ValidConfig(cfg) && Mutate(s, cfg, cmd, ledger, now).Ok?
    requires !ValidState(Mutate(s, cfg, cmd, ledger, now).value)
    ensures StateErrors(Mutate(s, cfg, cmd, ledger, now).value.(revision := revision)) <= {if s == EMPTY_STATE then Drift else Corrupt}
  {
    hide ValidState, ValidConfig, StateErrors, Ensure, Promote, Discard, Prune;
    if s == EMPTY_STATE {
      FirstRefused(cfg, cmd, ledger, now, revision);
    } else {
      match cmd
      case EnsureCommand(opts, secret, supply) => EnsureRefused(s, cfg, opts, secret, supply, now, revision);
      case PromoteCommand(secret) => PromoteRefused(s, cfg, secret, ledger, now, revision);
      case DiscardCommand => DiscardRefused(s, cfg, revision);
      case PruneCommand(generation, fingerprint) => PrunePasses(s, generation, fingerprint, now);
    }
  }

  lemma IdentifiedSpec(s: AuthorityState)
    requires ValidState(s)
    ensures s.spec.id != "" && s.activeRoot in s.roots
  {
  }

  /** The ledger check at the start of update. */
  predicate LedgerChecked(document: Option<AuthorityState>, ledger: seq<LedgerRecord>) {
    document.Some? && document.value.spec.mode == Ledger ==> LedgerReadable(ledger) && LedgerAccepted(document.value, ledger)
  }

  lemma UpdateCommits(document: Option<AuthorityState>, cfg: ManagerConfig, cmd: Command, ledger: seq<LedgerRecord>, now: Instant)
    requires document.Some? ==> ValidState(document.value)
    ensures Update(document, cfg, cmd, ledger, now) ==
            if LedgerChecked(document, ledger) then Commit(Base(document), Mutate(Base(document), cfg, cmd, ledger, now)) else Err(Corrupt)
  {
    hide ValidState, Mutate, Commit, LedgerReadable, LedgerAccepted;
  }

  /** The outcome of the end of update for a mutation and its condition. */
  ghost predicate Decided(s: AuthorityState, r: Result<AuthorityState>, passes: bool, refusal: Error, outcome: Result<AuthorityState>) {
    && (outcome.Ok? <==> r.Ok? && passes)
    && (r.Ok? && !passes ==> outcome == Err(refusal) && StateErrors(r.value.(revision := s.revision + 1)) == {refusal})
  }

  lemma CommitDecides(s: AuthorityState, cfg: ManagerConfig, cmd: Command, ledger: seq<LedgerRecord>, now: Instant)
    requires (s == EMPTY_STATE || ValidState(s)) && ValidConfig(cfg)
    ensures var r := Mutate(s, cfg, cmd, ledger, now);
            Decided(s, r, Passes(s, cfg, cmd, now), if s == EMPTY_STATE then Drift else Corrupt, Commit(s, r))
  {
    hide ValidState, ValidConfig, Mutate, Passes, StateErrors, Commit;
    var r := Mutate(s, cfg, cmd, ledger, now);
    if r.Ok? {
      CommitExactly(s, cfg, cmd, ledger, now);
    } else {
      CommitPasses(s, r);
    }
  }

  /** update on any document that load accepts: it succeeds exactly when the ledger check passes,
      the mutation succeeds and the command's condition holds. Where only the condition fails the
      re-check refuses: with "corrupt" on a document and, for a configured common name, with "drift"
      where there is none yet; no order of the maps gives another error. */
  lemma UpdateExactly(document: Option<AuthorityState>, cfg: ManagerConfig, cmd: Command, ledger: seq<LedgerRecord>, now: Instant)
    requires (document.Some? ==> ValidState(document.value)) && ValidConfig(cfg)
    ensures var s := Base(document);
            var u := Update(document, cfg, cmd, ledger, now);
            if LedgerChecked(document, ledger)
            then Decided(s, Mutate(s, cfg, cmd, ledger, now), Passes(s, cfg, cmd, now), if document.None? then Drift else Corrupt, u)
            else u == Err(Corrupt)
  {
    BaseOfValid(document);
    UpdateCommits(document, cfg, cmd, ledger, now);
    CommitDecides(Base(document), cfg, cmd, ledger, now);
    hide *;
  }

  lemma CommitPasses(s: AuthorityState, mutated: Result<AuthorityState>)
    requires mutated.Err?
    ensures Commit(s, mutated) == mutated
  {
  }

  lemma CommitExactly(s: AuthorityState, cfg: ManagerConfig, cmd: Command, ledger: seq<LedgerRecord>, now: Instant)
    requires (s == EMPTY_STATE || ValidState(s)) && ValidConfig(cfg) && Mutate(s, cfg, cmd, ledger, now).Ok?
    ensures var r := Mutate(s, cfg, cmd, ledger, now);
            var refusal := if s == EMPTY_STATE then Drift else Corrupt;
            && (Commit(s, r).Ok? <==> Passes(s, cfg, cmd, now))
            && (!Passes(s, cfg, cmd, now) ==> Commit(s, r) == Err(refusal) && StateErrors(r.value.(revision := s.revision + 1)) == {refusal})
  {
    hide ValidState, Mutate, Passes, StateErrors, StateError;
    var r := Mutate(s, cfg, cmd, ledger, now);
    var t := r.value.(revision := s.revision + 1);
    RecheckExactly(s, cfg, cmd, ledger, now);
    MutateKeepsRevision(s, cfg, cmd, ledger, now);
    RevisionIsUnchecked(r.value, s.revision + 1);
    StateErrorsMeaning(t);
    if !ValidState(r.value) {
      RefusalErrors(s, cfg, cmd, ledger, now, s.revision + 1);
      OneError(t, if s == EMPTY_STATE then Drift else Corrupt);
    }
  }

  lemma BaseOfValid(document: Option<AuthorityState>)
    requires document.Some? ==> ValidState(document.value)
    ensures Base(document) == EMPTY_STATE <==> document.None?
    ensures document.Some? ==> ValidState(Base(document))
  {
  }

  lemma OneError(t: AuthorityState, e: Error)
    requires StateErrors(t) <= {e} && StateErrors(t) != {} && StateError(t) in StateErrors(t)
    ensures StateErrors(t) == {e} && StateError(t) == e
  {
    hide StateErrors, StateError;
    var some :| some in StateErrors(t);
  }

  lemma MutateKeepsRevision(s: AuthorityState, cfg: ManagerConfig, cmd: Command, ledger: seq<LedgerRecord>, now: Instant)
    requires (s == EMPTY_STATE || ValidState(s)) && ValidConfig(cfg) && Mutate(s, cfg, cmd, ledger, now).Ok?
    ensures var t := Mutate(s, cfg, cmd, ledger, now).value;
            && t.revision == s.revision && t.spec.id != ""
            && (t.pending.Some? ==> t.pending.value.expectedRevision <= t.revision)
  {
    hide ValidRoot, ValidIssuer, ValidDefinition;
  }
}
