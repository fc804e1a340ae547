/** A stronger, inductive form of validateState. */
module AuthorityInvariant {
  import opened Wrappers
  import opened Certificates
  import opened Policy
  import opened Authority
  import opened Validation

  function LastGeneration(s: AuthorityState): int {
    s.activeRoot + if PendingIs(s, PendingRoot) then 1 else 0
  }

  predicate IssuerPending(s: AuthorityState, slug: Slug) {
    s.pending.Some? && slug in s.pending.value.issuers
  }

  /** The last version of an issuer is the active one, or the pending one after it. */
  function LastVersion(s: AuthorityState, slug: Slug): int
    requires slug in s.issuers
  {
    s.issuers[slug].activeVersion + if IssuerPending(s, slug) then 1 else 0
  }

  predicate RootInv(s: AuthorityState, g: int)
    requires g in s.roots
  {
    var r := s.roots[g];
    && ValidRoot(s, g)
    && r.certificate.subject == r.certificate.issuer
    && (r.key.Some? ==> r.key.value == r.certificate.publicKey)
  }

  predicate VersionInv(s: AuthorityState, slug: Slug, version: int)
    requires slug in s.issuers && version in s.issuers[slug].versions
  {
    var i := s.issuers[slug];
    var v := i.versions[version];
    && ValidVersion(s, slug, version)
    && (v.key.Some? ==> v.key.value == v.certificate.publicKey)
    && Chained(v.certificate, s.roots[v.rootGeneration].certificate)
    && (version < i.activeVersion ==> v.rootGeneration <= s.activeRoot)
    && (version == i.activeVersion ==> v.rootGeneration == s.activeRoot)
    && (version > i.activeVersion ==> v.rootGeneration == LastGeneration(s))
  }

  /** An issuer certificate names its root and shares neither bytes nor key with it. */
  predicate Chained(c: Certificate, root: Certificate) {
    c.issuer == root.subject && c.raw != root.raw && c.publicKey != root.publicKey
  }

  ghost predicate IssuerInv(s: AuthorityState, slug: Slug)
    requires slug in s.issuers
  {
    var i := s.issuers[slug];
    && i.definition.slug == slug
    && ValidDefinition(i.definition)
    && i.activeVersion >= 1
    && (forall v :: v in i.versions <==> 1 <= v <= LastVersion(s, slug))
    && (forall v :: v in i.versions ==> VersionInv(s, slug, v))
  }

  predicate PendingInv(s: AuthorityState) {
    s.pending.Some? ==>
      var p := s.pending.value;
      && p.expectedRevision <= s.revision
      && p.issuers.Keys <= s.issuers.Keys
      && (p.kind == PendingRoot ==> p.rootGeneration == s.activeRoot + 1 && p.issuers.Keys == s.issuers.Keys)
      && (p.kind == PendingIssuer ==> p.rootGeneration == 0)
      && (forall slug :: slug in p.issuers ==> p.issuers[slug] == s.issuers[slug].activeVersion + 1)
  }

  ghost predicate Inv(s: AuthorityState) {
    && ValidSpec(s.spec)
    && s.spec.backend == BACKEND
    && s.spec.identity.commonName == ""
    && s.activeRoot >= 1
    && (forall g :: g in s.roots <==> 1 <= g <= LastGeneration(s))
    && (forall g :: g in s.roots ==> RootInv(s, g))
    && (forall g, h :: g in s.roots && h in s.roots && g != h ==> s.roots[g].certificate.raw != s.roots[h].certificate.raw)
    && (forall slug :: slug in s.issuers ==> IssuerInv(s, slug))
    && PendingInv(s)
  }

  /** The random source never repeats itself: the new certificates and keys differ from the
      document's roots and from the new root. */
  ghost predicate FreshFor(supply: Supply, s: AuthorityState) {
    && (forall g :: g in s.roots ==> supply(ForRoot).raw != s.roots[g].certificate.raw)
    && (forall slug :: supply(ForIssuer(slug)).raw != supply(ForRoot).raw && supply(ForIssuer(slug)).key != supply(ForRoot).key)
    && (forall slug, g :: g in s.roots ==>
          supply(ForIssuer(slug)).raw != s.roots[g].certificate.raw && supply(ForIssuer(slug)).key != s.roots[g].certificate.publicKey)
  }

  // ----- the invariant implies what load and update check -----

  lemma SameKeysSameSize<K, A, B>(m: map<K, A>, n: map<K, B>)
    requires m.Keys == n.Keys
    ensures |m| == |n|
  {
    assert |m| == |m.Keys| && |n| == |n.Keys|;
  }

  lemma InvImpliesValidState(s: AuthorityState)
    requires Inv(s)
    ensures ValidState(s)
  {
    forall slug | slug in s.issuers
      ensures ValidIssuer(s, slug)
    {
      assert IssuerInv(s, slug);
      var i := s.issuers[slug];
      assert i.activeVersion in i.versions;
      assert VersionInv(s, slug, i.activeVersion);
    }
    if s.pending.Some? {
      var p := s.pending.value;
      if p.kind == PendingRoot {
        SameKeysSameSize(p.issuers, s.issuers);
      }
      forall slug | slug in p.issuers
        ensures slug in s.issuers && p.issuers[slug] in s.issuers[slug].versions
      {
        assert IssuerInv(s, slug);
      }
    }
  }

  lemma RevisionBump(s: AuthorityState, revision: nat)
    requires Inv(s) && revision >= s.revision
    ensures Inv(s.(revision := revision))
  {
    var t := s.(revision := revision);
    forall g | g in t.roots
      ensures RootInv(t, g)
    {
      assert RootInv(s, g);
    }
    forall slug | slug in t.issuers
      ensures IssuerInv(t, slug)
    {
      assert IssuerInv(s, slug);
      forall v | v in t.issuers[slug].versions
        ensures VersionInv(t, slug, v)
      {
        assert VersionInv(s, slug, v);
      }
    }
  }

  // ----- provisioning -----

  lemma MadeRoot(s: AuthorityState, g: int, now: Instant, m: Material)
    requires g in s.roots && s.roots[g] == MakeRoot(s.spec, g, now, m)
    requires RootNeedsKey(s, g) && s.spec.identity.commonName == ""
    ensures RootInv(s, g)
  {
  }

  lemma MadeIssuer(s: AuthorityState, slug: Slug, version: int, rootKey: nat, now: Instant, m: Material)
    requires slug in s.issuers && version in s.issuers[slug].versions
    requires var v := s.issuers[slug].versions[version];
             v.rootGeneration in s.roots && RootInv(s, v.rootGeneration)
             && s.roots[v.rootGeneration].certificate.publicKey == rootKey
             && Ok(v) == MakeIssuer(s.spec, v.rootGeneration, version, s.issuers[slug].definition,
                                    s.roots[v.rootGeneration].certificate, rootKey, now, m)
             && m.raw != s.roots[v.rootGeneration].certificate.raw && m.key != rootKey
    requires VersionNeedsKey(s, slug, version)
    requires version == s.issuers[slug].activeVersion ==> s.issuers[slug].versions[version].rootGeneration == s.activeRoot
    requires version > s.issuers[slug].activeVersion ==> s.issuers[slug].versions[version].rootGeneration == LastGeneration(s)
    requires version >= s.issuers[slug].activeVersion
    ensures VersionInv(s, slug, version)
  {
    WholeSecondsBounds(now + s.issuers[slug].definition.validity);
  }

  /** Adding a first version of a new issuer to a document without pending work. */
  lemma NewIssuerKeepsInv(s: AuthorityState, d: IssuerDefinition, version: IssuerVersion, now: Instant, m: Material)
    requires Inv(s) && s.pending.None? && d.slug !in s.issuers && ValidDefinition(d)
    requires var root := s.roots[s.activeRoot].certificate;
             Ok(version) == MakeIssuer(s.spec, s.activeRoot, 1, d, root, root.publicKey, now, m)
             && m.raw != root.raw && m.key != root.publicKey
    ensures Inv(s.(issuers := s.issuers[d.slug := IssuerRecord(d, 1, map[1 := version])]))
  {
    var t := s.(issuers := s.issuers[d.slug := IssuerRecord(d, 1, map[1 := version])]);
    forall g | g in t.roots
      ensures RootInv(t, g)
    {
      assert RootInv(s, g);
    }
    forall slug | slug in t.issuers
      ensures IssuerInv(t, slug)
    {
      if slug == d.slug {
        MadeIssuer(t, slug, 1, s.roots[s.activeRoot].certificate.publicKey, now, m);
      } else {
        assert IssuerInv(s, slug);
        forall v | v in t.issuers[slug].versions
          ensures VersionInv(t, slug, v)
        {
          assert VersionInv(s, slug, v);
        }
      }
    }
  }

  lemma {:induction false} FirstIssuersKeys(s: AuthorityState, defs: seq<IssuerDefinition>, rootKey: nat, supply: Supply, now: Instant)
    requires s.activeRoot in s.roots && s.issuers == map[] && FirstIssuers(s, defs, rootKey, supply, now).Ok?
    ensures FirstIssuers(s, defs, rootKey, supply, now).value.issuers.Keys == set i | 0 <= i < |defs| :: defs[i].slug
  {
    hide MakeIssuer;
    if defs == [] {
    } else {
      var init, d := defs[..|defs| - 1], defs[|defs| - 1];
      FirstIssuersKeys(s, init, rootKey, supply, now);
      assert forall i :: 0 <= i < |init| ==> init[i] == defs[i];
    }
  }

  lemma {:induction false} FirstIssuersKeepsInv(s: AuthorityState, defs: seq<IssuerDefinition>, supply: Supply, now: Instant)
    requires Inv(s) && s.pending.None? && s.issuers == map[]
    requires forall slug :: supply(ForIssuer(slug)).raw != s.roots[s.activeRoot].certificate.raw
                         && supply(ForIssuer(slug)).key != s.roots[s.activeRoot].certificate.publicKey
    requires forall i :: 0 <= i < |defs| ==> ValidDefinition(defs[i])
    requires forall i, j :: 0 <= i < j < |defs| ==> defs[i].slug != defs[j].slug
    requires FirstIssuers(s, defs, s.roots[s.activeRoot].certificate.publicKey, supply, now).Ok?
    ensures Inv(FirstIssuers(s, defs, s.roots[s.activeRoot].certificate.publicKey, supply, now).value)
  {
    assert s.activeRoot in s.roots;
    hide Inv, MakeIssuer, ValidDefinition;
    if defs == [] {
    } else {
      var root := s.roots[s.activeRoot].certificate;
      var init, d := defs[..|defs| - 1], defs[|defs| - 1];
      assert forall i :: 0 <= i < |init| ==> init[i] == defs[i];
      FirstIssuersKeepsInv(s, init, supply, now);
      FirstIssuersKeys(s, init, root.publicKey, supply, now);
      var before := FirstIssuers(s, init, root.publicKey, supply, now).value;
      var version := MakeIssuer(s.spec, s.activeRoot, 1, d, root, root.publicKey, now, supply(ForIssuer(d.slug))).value;
      NewIssuerKeepsInv(before, d, version, now, supply(ForIssuer(d.slug)));
    }
  }

  lemma ProvisionInv(cfg: ManagerConfig, supply: Supply, now: Instant)
    requires ValidConfig(cfg) && FreshFor(supply, EMPTY_STATE)
    requires Provision(cfg, supply, now).Ok?
    ensures Inv(Provision(cfg, supply, now).value) <==> PlainIdentity(cfg)
    ensures Provision(cfg, supply, now).value.pending.None?
  {
    ProvisionedSpec(cfg, supply, now);
    if PlainIdentity(cfg) {
      var t := Provision(cfg, supply, now).value;
      var root := MakeRoot(t.spec, 1, now, supply(ForRoot));
      var bare := AuthorityState(t.spec, 0, 1, map[1 := root], map[], None);
      MadeRoot(bare, 1, now, supply(ForRoot));
      FirstIssuersKeepsInv(bare, cfg.issuers, supply, now);
    }
  }

  lemma ProvisionedSpec(cfg: ManagerConfig, supply: Supply, now: Instant)
    requires Provision(cfg, supply, now).Ok?
    ensures var t := Provision(cfg, supply, now).value;
            && t.spec.identity == (if cfg.identity.Some? then cfg.identity.value else NO_IDENTITY)
            && t.pending.None?
  {
  }

  // ----- Ensure on an existing document -----

  lemma {:induction false} AddIssuersInv(s: AuthorityState, defs: seq<IssuerDefinition>, secret: Secret,
          supply: Supply, now: Instant)
    requires Inv(s) && s.pending.None? && FreshFor(supply, s)
    requires forall i :: 0 <= i < |defs| ==> ValidDefinition(defs[i])
    requires AddIssuers(s, defs, secret, supply, now).Ok?
    ensures Inv(AddIssuers(s, defs, secret, supply, now).value)
  {
    if defs == [] {
    } else {
      var init, d := defs[..|defs| - 1], defs[|defs| - 1];
      assert forall i :: 0 <= i < |init| ==> init[i] == defs[i];
      AddIssuersInv(s, init, secret, supply, now);
      hide Inv;
      AddIssuerInv(AddIssuers(s, init, secret, supply, now).value, d, secret, supply, now);
    }
  }

  lemma AddIssuerInv(s: AuthorityState, d: IssuerDefinition, secret: Secret, supply: Supply, now: Instant)
    requires Inv(s) && s.pending.None? && FreshFor(supply, s) && ValidDefinition(d)
    requires AddIssuer(s, d, secret, supply, now).Ok?
    ensures Inv(AddIssuer(s, d, secret, supply, now).value)
  {
    if d.slug !in s.issuers {
      var root := s.roots[s.activeRoot].certificate;
      hide MakeIssuer;
      var version := MakeIssuer(s.spec, s.activeRoot, 1, d, root, root.publicKey, now, supply(ForIssuer(d.slug))).value;
      hide Inv;
      NewIssuerKeepsInv(s, d, version, now, supply(ForIssuer(d.slug)));
    }
  }

  /** An issuer that staging does not touch. */
  lemma UnstagedIssuer(s: AuthorityState, t: AuthorityState, slug: Slug)
    requires Inv(s) && s.pending.None? && t.pending.Some? && t.pending.value.kind == PendingIssuer
    requires slug in s.issuers && slug in t.issuers && t.issuers[slug] == s.issuers[slug]
    requires slug !in t.pending.value.issuers
    requires t.roots == s.roots && t.spec == s.spec && t.activeRoot == s.activeRoot
    ensures IssuerInv(t, slug)
  {
    assert IssuerInv(s, slug);
    forall v | v in t.issuers[slug].versions
      ensures VersionInv(t, slug, v)
    {
      assert VersionInv(s, slug, v);
    }
  }

  /** An issuer that staging gives a successor under the root it is staged for. */
  lemma StagedIssuer(s: AuthorityState, t: AuthorityState, slug: Slug, g: int, now: Instant, m: Material)
    requires Inv(s) && s.pending.None? && t.pending.Some? && slug in s.issuers && slug in t.issuers
    requires slug in t.pending.value.issuers && t.pending.value.issuers[slug] == s.issuers[slug].activeVersion + 1
    requires t.spec == s.spec && t.activeRoot == s.activeRoot && g == LastGeneration(t) && g in t.roots && RootInv(t, g)
    requires forall h :: h in s.roots ==> h in t.roots && t.roots[h] == s.roots[h]
    requires var root := t.roots[g].certificate;
             var v := MakeIssuer(s.spec, g, s.issuers[slug].activeVersion + 1, s.issuers[slug].definition, root, root.publicKey, now, m);
             v.Ok? && t.issuers[slug] == Staged(s.issuers[slug], v.value) && m.raw != root.raw && m.key != root.publicKey
    ensures IssuerInv(t, slug)
  {
    assert IssuerInv(s, slug);
    var last := s.issuers[slug].activeVersion + 1;
    forall v | v in t.issuers[slug].versions
      ensures VersionInv(t, slug, v)
    {
      if v == last {
        MadeIssuer(t, slug, v, t.roots[g].certificate.publicKey, now, m);
      } else {
        assert VersionInv(s, slug, v);
      }
    }
  }

  lemma NextGenerationIsNext(s: AuthorityState)
    requires Inv(s) && s.pending.None?
    ensures NextGeneration(s.roots, s.activeRoot + 1) == s.activeRoot + 1
  {
  }

  lemma PrepareRootIssuer(s: AuthorityState, t: AuthorityState, slug: Slug, supply: Supply, now: Instant)
    requires Inv(s) && s.pending.None? && FreshFor(supply, s)
    requires PrepareRoot(s, supply, now) == Ok(t) && slug in t.issuers && s.activeRoot + 1 in t.roots && RootInv(t, s.activeRoot + 1)
    ensures IssuerInv(t, slug)
  {
    hide RootInv, IssuerInv, MakeRoot, MakeIssuer;
    NextGenerationIsNext(s);
    var g := s.activeRoot + 1;
    assert Successor(s.(roots := s.roots[g := t.roots[g]]), slug, g, t.roots[g].certificate, supply(ForRoot).key, supply, now).Ok?;
    assert t.roots[g] == MakeRoot(s.spec, g, now, supply(ForRoot));
    MadeRootCertificate(s.spec, g, now, supply(ForRoot));
    StagedIssuer(s, t, slug, g, now, supply(ForIssuer(slug)));
  }

  lemma MadeRootCertificate(spec: AuthoritySpec, g: int, now: Instant, m: Material)
    ensures var c := MakeRoot(spec, g, now, m).certificate;
            c.raw == m.raw && c.publicKey == m.key
  {
  }

  lemma PrepareRootInv(s: AuthorityState, supply: Supply, now: Instant)
    requires Inv(s) && s.pending.None? && FreshFor(supply, s)
    requires PrepareRoot(s, supply, now).Ok?
    ensures Inv(PrepareRoot(s, supply, now).value)
  {
    hide IssuerInv, MakeIssuer;
    var t := PrepareRoot(s, supply, now).value;
    NextGenerationIsNext(s);
    var g := s.activeRoot + 1;
    assert RootNeedsKey(t, g);
    MadeRoot(t, g, now, supply(ForRoot));
    forall h | h in t.roots
      ensures RootInv(t, h)
    {
      if h != g {
        assert RootInv(s, h);
      }
    }
    hide RootInv;
    forall slug | slug in t.issuers
      ensures IssuerInv(t, slug)
    {
      PrepareRootIssuer(s, t, slug, supply, now);
    }
  }

  lemma PrepareIssuersInv(s: AuthorityState, due: set<Slug>, secret: Secret, supply: Supply, now: Instant)
    requires Inv(s) && s.pending.None? && FreshFor(supply, s) && due <= s.issuers.Keys
    requires PrepareIssuers(s, due, secret, supply, now).Ok?
    ensures Inv(PrepareIssuers(s, due, secret, supply, now).value)
  {
    hide IssuerInv, MakeIssuer;
    var t := PrepareIssuers(s, due, secret, supply, now).value;
    var key := ActiveRootSigner(s, secret).value;
    var g := s.activeRoot;
    assert RootInv(s, g);
    forall h | h in t.roots
      ensures RootInv(t, h)
    {
      assert RootInv(s, h);
    }
    hide RootInv;
    forall slug | slug in t.issuers
      ensures IssuerInv(t, slug)
    {
      if slug in due {
        assert Successor(s, slug, g, s.roots[g].certificate, key, supply, now).Ok?;
        StagedIssuer(s, t, slug, g, now, supply(ForIssuer(slug)));
      } else {
        UnstagedIssuer(s, t, slug);
      }
    }
  }

  lemma RotateInv(before: AuthorityState, s: AuthorityState, opts: EnsureOptions, secret: Secret, supply: Supply,
          now: Instant)
    requires Inv(s) && ValidState(s) && s.pending.None? && FreshFor(supply, s)
    requires Rotate(before, s, opts, secret, supply, now).Ok?
    ensures Inv(Rotate(before, s, opts, secret, supply, now).value)
  {
    hide Inv, FreshFor, PrepareRoot, PrepareIssuers, ValidRoot, ValidVersion, ValidPending;
    if RotationDue(opts.rootRotateBefore, s.roots[s.activeRoot].certificate.notAfter, now) {
      PrepareRootInv(s, supply, now);
    } else {
      var due := set slug | slug in s.issuers && IssuerDue(s, opts, slug, now);
      if due != {} {
        PrepareIssuersInv(s, due, secret, supply, now);
      }
    }
  }

  lemma EnsureInv(s: AuthorityState, cfg: ManagerConfig, opts: EnsureOptions, secret: Secret, supply: Supply, now: Instant)
    requires s == EMPTY_STATE || (Inv(s) && ValidState(s))
    requires ValidConfig(cfg) && FreshFor(supply, s)
    requires Ensure(s, cfg, opts, secret, supply, now).Ok?
    ensures Inv(Ensure(s, cfg, opts, secret, supply, now).value) <==> (s == EMPTY_STATE ==> PlainIdentity(cfg))
  {
    hide Inv, Provision, AddIssuers, Rotate, ValidRoot, ValidIssuer, ValidPending;
    if s.spec.id == "" {
      ProvisionInv(cfg, supply, now);
    } else {
      AddIssuersInv(s, cfg.issuers, secret, supply, now);
      var added := AddIssuers(s, cfg.issuers, secret, supply, now).value;
      InvImpliesValidState(added);
      RotateInv(s, added, opts, secret, supply, now);
    }
  }

  // ----- promotion, discard, prune -----

  lemma PromotedRoot(s: AuthorityState, t: AuthorityState, g: int, deadline: Instant)
    requires Inv(s) && s.pending.Some? && t == Promoted(s, s.pending.value, deadline) && g in t.roots
    ensures g in s.roots && RootInv(t, g) && t.roots[g].certificate == s.roots[g].certificate
  {
    assert RootInv(s, g);
  }

  /** A version survives a step that keeps its certificate and its root's certificate and moves
      the activity of versions consistently. */
  lemma VersionSurvives(s: AuthorityState, t: AuthorityState, slug: Slug, v: int)
    requires slug in s.issuers && v in s.issuers[slug].versions && VersionInv(s, slug, v)
    requires slug in t.issuers && v in t.issuers[slug].versions
    requires t.spec == s.spec && t.issuers[slug].definition == s.issuers[slug].definition
    requires var x, y := s.issuers[slug].versions[v], t.issuers[slug].versions[v];
             && y == x.(key := y.key)
             && y.rootGeneration in t.roots
             && t.roots[y.rootGeneration].certificate == s.roots[y.rootGeneration].certificate
             && (y.key.Some? <==> VersionNeedsKey(t, slug, v))
             && (y.key.Some? ==> y.key == x.key)
             && (v < t.issuers[slug].activeVersion ==> y.rootGeneration <= t.activeRoot)
             && (v == t.issuers[slug].activeVersion ==> y.rootGeneration == t.activeRoot)
             && (v > t.issuers[slug].activeVersion ==> y.rootGeneration == LastGeneration(t))
    ensures VersionInv(t, slug, v)
  {
  }

  lemma PromotedVersion(s: AuthorityState, t: AuthorityState, slug: Slug, v: int, deadline: Instant)
    requires PendingInv(s) && s.pending.Some? && slug in s.issuers && IssuerInv(s, slug) && v in s.issuers[slug].versions
    requires s.activeRoot in s.roots && t == Promoted(s, s.pending.value, deadline)
    ensures VersionInv(t, slug, v)
  {
    var p := s.pending.value;
    assert VersionInv(s, slug, v);
    if slug in p.issuers {
      assert t.issuers[slug] == Activated(s.issuers[slug], p.issuers[slug]);
    } else {
      assert t.issuers[slug] == s.issuers[slug];
    }
    VersionSurvives(s, t, slug, v);
  }

  lemma PromotedIssuer(s: AuthorityState, t: AuthorityState, slug: Slug, deadline: Instant)
    requires Inv(s) && s.pending.Some? && t == Promoted(s, s.pending.value, deadline) && slug in t.issuers
    ensures IssuerInv(t, slug)
  {
    assert IssuerInv(s, slug);
    forall v | v in t.issuers[slug].versions
      ensures VersionInv(t, slug, v)
    {
      PromotedVersion(s, t, slug, v, deadline);
    }
  }

  lemma PromotedInv(s: AuthorityState, deadline: Instant)
    requires Inv(s) && s.pending.Some?
    ensures Inv(Promoted(s, s.pending.value, deadline))
  {
    var t := Promoted(s, s.pending.value, deadline);
    assert t.roots.Keys == s.roots.Keys && LastGeneration(t) == LastGeneration(s);
    forall g | g in t.roots
      ensures RootInv(t, g) && t.roots[g].certificate == s.roots[g].certificate
    {
      PromotedRoot(s, t, g, deadline);
    }
    forall slug | slug in t.issuers
      ensures IssuerInv(t, slug)
    {
      PromotedIssuer(s, t, slug, deadline);
    }
  }

  lemma DiscardedVersion(s: AuthorityState, t: AuthorityState, slug: Slug, v: int)
    requires PendingInv(s) && s.pending.Some? && slug in s.issuers && IssuerInv(s, slug)
    requires t == Discarded(s, s.pending.value) && v in t.issuers[slug].versions
    ensures VersionInv(t, slug, v)
  {
    assert VersionInv(s, slug, v);
    assert v <= s.issuers[slug].activeVersion;
    VersionSurvives(s, t, slug, v);
  }

  lemma DiscardedIssuer(s: AuthorityState, t: AuthorityState, slug: Slug)
    requires PendingInv(s) && s.pending.Some? && slug in s.issuers && IssuerInv(s, slug)
    requires t == Discarded(s, s.pending.value)
    ensures IssuerInv(t, slug)
  {
    forall v | v in t.issuers[slug].versions
      ensures VersionInv(t, slug, v)
    {
      DiscardedVersion(s, t, slug, v);
    }
  }

  lemma DiscardedInv(s: AuthorityState)
    requires Inv(s) && s.pending.Some?
    ensures Inv(Discarded(s, s.pending.value))
  {
    var t := Discarded(s, s.pending.value);
    forall g | g in t.roots
      ensures RootInv(t, g)
    {
      assert RootInv(s, g);
    }
    forall slug | slug in t.issuers
      ensures IssuerInv(t, slug)
    {
      DiscardedIssuer(s, t, slug);
    }
  }

  lemma PrunedRoot(s: AuthorityState, generation: int, fingerprint: nat, now: Instant, g: int)
    requires Inv(s) && Prune(s, generation, fingerprint, now).Ok? && g in s.roots
    ensures var t := Prune(s, generation, fingerprint, now).value;
            RootInv(t, g) && t.roots[g].certificate == s.roots[g].certificate
  {
    hide IssuerInv, PendingInv;
    assert RootInv(s, g);
  }

  lemma PrunedIssuer(s: AuthorityState, generation: int, fingerprint: nat, now: Instant, slug: Slug)
    requires Prune(s, generation, fingerprint, now).Ok? && slug in s.issuers && IssuerInv(s, slug)
    ensures IssuerInv(Prune(s, generation, fingerprint, now).value, slug)
  {
    var t := Prune(s, generation, fingerprint, now).value;
    forall v | v in t.issuers[slug].versions
      ensures VersionInv(t, slug, v)
    {
      assert VersionInv(s, slug, v);
      VersionSurvives(s, t, slug, v);
    }
  }

  lemma PruneInv(s: AuthorityState, generation: int, fingerprint: nat, now: Instant)
    requires Inv(s) && Prune(s, generation, fingerprint, now).Ok?
    ensures Inv(Prune(s, generation, fingerprint, now).value)
  {
    hide RootInv, IssuerInv;
    var t := Prune(s, generation, fingerprint, now).value;
    forall g | g in t.roots
      ensures RootInv(t, g) && t.roots[g].certificate == s.roots[g].certificate
    {
      PrunedRoot(s, generation, fingerprint, now, g);
    }
    forall slug | slug in t.issuers
      ensures IssuerInv(t, slug)
    {
      PrunedIssuer(s, generation, fingerprint, now, slug);
    }
  }

  // ----- every update -----

  ghost predicate FreshCommand(cmd: Command, s: AuthorityState) {
    cmd.EnsureCommand? ==> FreshFor(cmd.supply, s)
  }

  ghost predicate DocumentInv(document: Option<AuthorityState>) {
    document.Some? ==> Inv(document.value) && ValidState(document.value)
  }

  lemma MutateInv(s: AuthorityState, cfg: ManagerConfig, cmd: Command, ledger: seq<LedgerRecord>, now: Instant)
    requires s == EMPTY_STATE || (Inv(s) && ValidState(s))
    requires ValidConfig(cfg) && FreshCommand(cmd, s) && Mutate(s, cfg, cmd, ledger, now).Ok?
    ensures Inv(Mutate(s, cfg, cmd, ledger, now).value) <==> (s == EMPTY_STATE ==> PlainIdentity(cfg))
    ensures Mutate(s, cfg, cmd, ledger, now).value.revision == s.revision
  {
    assert s.pending.Some? ==> s.activeRoot in s.roots;
    hide Inv, ValidState;
    match cmd
    case EnsureCommand(opts, secret, supply) =>
      hide Ensure;
      EnsureInv(s, cfg, opts, secret, supply, now);
      EnsureKeepsRevision(s, cfg, opts, secret, supply, now);
    case PromoteCommand(secret) =>
      hide Promoted;
      PromotedInv(s, TrustDeadline(s, ledger, s.activeRoot, now));
      PromotedKeepsRevision(s, TrustDeadline(s, ledger, s.activeRoot, now));
    case DiscardCommand => DiscardedInv(s);
    case PruneCommand(generation, fingerprint) => PruneInv(s, generation, fingerprint, now);
  }

  lemma EnsureKeepsRevision(s: AuthorityState, cfg: ManagerConfig, opts: EnsureOptions, secret: Secret,
          supply: Supply, now: Instant)
    requires s == EMPTY_STATE || ValidState(s)
    requires Ensure(s, cfg, opts, secret, supply, now).Ok?
    ensures Ensure(s, cfg, opts, secret, supply, now).value.revision == s.revision
  {
    hide ValidRoot, ValidIssuer, ValidPending, IssuerDue, AddIssuers, FirstIssuers;
  }

  lemma PromotedKeepsRevision(s: AuthorityState, deadline: Instant)
    requires s.pending.Some? && s.activeRoot in s.roots
    ensures Promoted(s, s.pending.value, deadline).revision == s.revision
  {
  }

  lemma InvIsIdentified(s: AuthorityState)
    requires Inv(s)
    ensures s.spec.id != ""
  {
    hide RootInv, IssuerInv, PendingInv;
  }

  lemma CommitNeverRejects(s: AuthorityState, mutated: Result<AuthorityState>)
    requires mutated.Ok? ==> Inv(mutated.value) && mutated.value.revision == s.revision
    ensures Commit(s, mutated) == if mutated.Ok? then Ok(mutated.value.(revision := s.revision + 1)) else mutated
    ensures mutated.Ok? ==> Inv(Commit(s, mutated).value) && ValidState(Commit(s, mutated).value)
  {
    hide Inv, ValidState, StateError;
    if mutated.Ok? {
      InvIsIdentified(mutated.value);
      RevisionBump(mutated.value, s.revision + 1);
      InvImpliesValidState(mutated.value.(revision := s.revision + 1));
    }
  }

  /** A configured common name is stored in the specification and never in a certificate: the root
      that provisioning makes is refused for its subject. */
  lemma ProvisionRefused(cfg: ManagerConfig, supply: Supply, now: Instant, revision: nat)
    requires ValidConfig(cfg) && Provision(cfg, supply, now).Ok? && !PlainIdentity(cfg)
    ensures StateErrors(Provision(cfg, supply, now).value.(revision := revision)) == {Drift}
  {
    hide AllIssuerErrors, ValidPending, FirstIssuers;
    var t := Provision(cfg, supply, now).value.(revision := revision);
    assert RootError(t, 1) == Some(Drift);
    assert RootErrors(t) == {Drift};
  }

  /** The validation that update repeats after the mutation rejects what a mutation made in one case
      only, a provisioning whose configured identity has a common name: otherwise an update fails
      only where its mutation, or the ledger check before it, fails. */
  lemma RecheckNeverRejects(document: Option<AuthorityState>, cfg: ManagerConfig, cmd: Command,
          ledger: seq<LedgerRecord>, now: Instant)
    requires DocumentInv(document) && ValidConfig(cfg) && FreshCommand(cmd, Base(document))
    requires document.Some? && document.value.spec.mode == Ledger ==> LedgerReadable(ledger) && LedgerAccepted(document.value, ledger)
    ensures var s := Base(document);
            var r := Mutate(s, cfg, cmd, ledger, now);
            Update(document, cfg, cmd, ledger, now) ==
            if r.Err? then r
            else if document.None? && !PlainIdentity(cfg) then Err(Drift)
            else Ok(r.value.(revision := s.revision + 1))
  {
    hide Mutate, StateErrors, ValidState;
    var s := Base(document);
    var r := Mutate(s, cfg, cmd, ledger, now);
    if r.Ok? {
      MutateInv(s, cfg, cmd, ledger, now);
      if document.None? && !PlainIdentity(cfg) {
        ProvisionedByMutate(cfg, cmd, ledger, now);
        ProvisionRefused(cfg, cmd.supply, now, s.revision + 1);
        StateErrorsMeaning(r.value.(revision := s.revision + 1));
      } else {
        RootedIsIdentified(s, document);
        CommitNeverRejects(s, r);
      }
    }
  }

  lemma RootedIsIdentified(s: AuthorityState, document: Option<AuthorityState>)
    requires DocumentInv(document) && s == Base(document)
    ensures s == EMPTY_STATE ==> document.None?
  {
  }

  /** Without a document only Ensure succeeds, by provisioning. */
  lemma ProvisionedByMutate(cfg: ManagerConfig, cmd: Command, ledger: seq<LedgerRecord>, now: Instant)
    requires ValidConfig(cfg) && Mutate(EMPTY_STATE, cfg, cmd, ledger, now).Ok?
    ensures cmd.EnsureCommand? && Mutate(EMPTY_STATE, cfg, cmd, ledger, now) == Provision(cfg, cmd.supply, now)
    ensures Provision(cfg, cmd.supply, now).value.spec.id != "" && Provision(cfg, cmd.supply, now).value.revision == 0
  {
  }

  lemma UpdateInv(document: Option<AuthorityState>, cfg: ManagerConfig, cmd: Command, ledger: seq<LedgerRecord>,
          now: Instant)
    requires DocumentInv(document) && ValidConfig(cfg) && FreshCommand(cmd, Base(document))
    requires Update(document, cfg, cmd, ledger, now).Ok?
    ensures var t := Update(document, cfg, cmd, ledger, now).value;
            var r := Mutate(Base(document), cfg, cmd, ledger, now);
            Inv(t) && ValidState(t) && r.Ok? && t == r.value.(revision := Base(document).revision + 1)
  {
    var s := Base(document);
    var r := Mutate(s, cfg, cmd, ledger, now);
    MutateInv(s, cfg, cmd, ledger, now);
    CommitNeverRejects(s, r);
  }

  // ----- why the stronger invariant is needed -----

  /** A document that validateState accepts although its pending root is its active root. */
  function SelfPending(spec: AuthoritySpec, now: Instant, m: Material): AuthorityState {
    AuthorityState(spec, 1, 1, map[1 := MakeRoot(spec, 1, now, m)], map[], Some(Pending(PendingRoot, 0, 1, map[], now)))
  }

  /** validateState alone is not inductive: from such a document promotion erases the key of the
      root it activates and discarding removes the active root; both times the re-check refuses the
      result. */
  lemma ValidStateIsNotInductive(spec: AuthoritySpec, cfg: ManagerConfig, now: Instant, m: Material)
    requires ValidSpec(spec) && spec.identity.commonName == "" && spec.backend == BACKEND && spec.mode == NoLedger
    requires AssertSpec(SelfPending(spec, now, m), cfg).Ok?
    ensures ValidState(SelfPending(spec, now, m))
    ensures Mutate(SelfPending(spec, now, m), cfg, PromoteCommand(Right), [], now).Ok?
    ensures Update(Some(SelfPending(spec, now, m)), cfg, PromoteCommand(Right), [], now) == Err(Corrupt)
    ensures Mutate(SelfPending(spec, now, m), cfg, DiscardCommand, [], now).Ok?
    ensures Update(Some(SelfPending(spec, now, m)), cfg, DiscardCommand, [], now) == Err(Corrupt)
  {
    var s := SelfPending(spec, now, m);
    assert ValidRoot(s, 1);
    var t := Mutate(s, cfg, PromoteCommand(Right), [], now).value;
    var bumped := t.(revision := s.revision + 1);
    assert 1 in bumped.roots && RootError(bumped, 1) == Some(Corrupt);
    assert Corrupt in RootErrors(bumped);
    var discarded := Mutate(s, cfg, DiscardCommand, [], now).value;
    assert 1 !in discarded.roots;
  }
}
