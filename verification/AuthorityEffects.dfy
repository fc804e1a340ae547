/** What the authority operations achieve, and what undoes what (certs/authority.go,
    certs/authority_operations.go). */
module AuthorityEffects {
  import opened Wrappers
  import opened Certificates
  import opened Policy
  import opened Authority
  import opened AuthorityInvariant

  // ----- discarding undoes staging -----

  lemma UnstageIssuer(i: IssuerRecord, v: IssuerVersion)
    requires i.activeVersion + 1 !in i.versions
    ensures var staged := Staged(i, v);
            staged.(versions := staged.versions - {i.activeVersion + 1}) == i
  {
    assert i.versions[i.activeVersion + 1 := v] - {i.activeVersion + 1} == i.versions;
  }

  lemma NoSuccessorYet(s: AuthorityState, slug: Slug)
    requires Inv(s) && s.pending.None? && slug in s.issuers
    ensures s.issuers[slug].activeVersion + 1 !in s.issuers[slug].versions
  {
    assert IssuerInv(s, slug);
  }

  /** Discarding a prepared root rotation gives back the document as it was before. */
  lemma DiscardUndoesPrepareRoot(s: AuthorityState, supply: Supply, now: Instant)
    requires Inv(s) && s.pending.None? && PrepareRoot(s, supply, now).Ok?
    ensures var t := PrepareRoot(s, supply, now).value;
            t.pending.Some? && Discarded(t, t.pending.value) == s
  {
    hide IssuerInv, RootInv, MakeIssuer;
    NextGenerationIsNext(s);
    var g := s.activeRoot + 1;
    var t := PrepareRoot(s, supply, now).value;
    var u := Discarded(t, t.pending.value);
    assert t.roots - {g} == s.roots;
    forall slug | slug in s.issuers
      ensures u.issuers[slug] == s.issuers[slug]
    {
      NoSuccessorYet(s, slug);
      UnstageIssuer(s.issuers[slug], t.issuers[slug].versions[s.issuers[slug].activeVersion + 1]);
    }
    assert u.issuers == s.issuers;
  }

  /** The same for prepared issuer rotations. */
  lemma DiscardUndoesPrepareIssuers(s: AuthorityState, due: set<Slug>, secret: Secret, supply: Supply, now: Instant)
    requires Inv(s) && s.pending.None? && due <= s.issuers.Keys && PrepareIssuers(s, due, secret, supply, now).Ok?
    ensures var t := PrepareIssuers(s, due, secret, supply, now).value;
            t.pending.Some? && Discarded(t, t.pending.value) == s
  {
    hide IssuerInv, RootInv, MakeIssuer;
    var t := PrepareIssuers(s, due, secret, supply, now).value;
    var u := Discarded(t, t.pending.value);
    forall slug | slug in s.issuers
      ensures u.issuers[slug] == s.issuers[slug]
    {
      NoSuccessorYet(s, slug);
      if slug in due {
        UnstageIssuer(s.issuers[slug], t.issuers[slug].versions[s.issuers[slug].activeVersion + 1]);
      }
    }
    assert u.issuers == s.issuers;
  }

  // ----- promoting completes staging -----

  /** One issuer after a rotation: one version further, under the given root, the old version kept
      without its key and the others untouched. */
  predicate Rotated(i: IssuerRecord, j: IssuerRecord, generation: int, root: Certificate) {
    && j.definition == i.definition
    && j.activeVersion == i.activeVersion + 1
    && j.activeVersion in j.versions
    && j.versions[j.activeVersion].rootGeneration == generation
    && SignedBy(j.versions[j.activeVersion].certificate, root)
    && j.versions[j.activeVersion].key == Some(j.versions[j.activeVersion].certificate.publicKey)
    && (forall v :: v in i.versions ==> v in j.versions && j.versions[v] == if v == i.activeVersion then i.versions[v].(key := None) else i.versions[v])
  }

  lemma ActivatedIsRotated(i: IssuerRecord, v: IssuerVersion, generation: int, root: Certificate)
    requires i.activeVersion + 1 !in i.versions && v.rootGeneration == generation
    requires SignedBy(v.certificate, root) && v.key == Some(v.certificate.publicKey)
    ensures Rotated(i, Activated(Staged(i, v), i.activeVersion + 1), generation, root)
  {
  }

  lemma SuccessorOfRoot(s: AuthorityState, supply: Supply, now: Instant, slug: Slug) returns (v: IssuerVersion)
    requires Inv(s) && s.pending.None? && PrepareRoot(s, supply, now).Ok? && slug in s.issuers
    ensures var t := PrepareRoot(s, supply, now).value;
            && t.pending.Some? && t.pending.value.kind == PendingRoot && t.pending.value.rootGeneration == s.activeRoot + 1
            && t.activeRoot == s.activeRoot && t.activeRoot in t.roots && s.activeRoot + 1 in t.roots
            && slug in t.issuers && t.issuers[slug] == Staged(s.issuers[slug], v)
            && slug in t.pending.value.issuers && t.pending.value.issuers[slug] == s.issuers[slug].activeVersion + 1
            && v.rootGeneration == s.activeRoot + 1
            && SignedBy(v.certificate, t.roots[s.activeRoot + 1].certificate) && v.key == Some(v.certificate.publicKey)
  {
    NextGenerationIsNext(s);
    hide IssuerInv, RootInv, Staged, ValidSpec;
    var g := s.activeRoot + 1;
    var root := MakeRoot(s.spec, g, now, supply(ForRoot));
    v := Successor(s.(roots := s.roots[g := root]), slug, g, root.certificate, supply(ForRoot).key, supply, now).value;
  }

  lemma IssuerIsRotated(s: AuthorityState, supply: Supply, now: Instant, deadline: Instant, slug: Slug)
    requires Inv(s) && s.pending.None? && PrepareRoot(s, supply, now).Ok? && slug in s.issuers
    ensures var t := PrepareRoot(s, supply, now).value;
            t.pending.Some? && t.activeRoot in t.roots
            && var u := Promoted(t, t.pending.value, deadline);
               slug in u.issuers && u.activeRoot in u.roots && Rotated(s.issuers[slug], u.issuers[slug], u.activeRoot, u.roots[u.activeRoot].certificate)
  {
    var v := SuccessorOfRoot(s, supply, now, slug);
    NoSuccessorYet(s, slug);
    hide Inv, PrepareRoot, Rotated, Staged, Activated, SignedBy;
    ActivatedIsRotated(s.issuers[slug], v, s.activeRoot + 1, PrepareRoot(s, supply, now).value.roots[s.activeRoot + 1].certificate);
    StagedKeepsActive(s.issuers[slug], v);
  }

  lemma StagedKeepsActive(i: IssuerRecord, v: IssuerVersion)
    ensures Staged(i, v).activeVersion == i.activeVersion && Staged(i, v).definition == i.definition
  {
  }

  /** Nothing but the two roots changes. */
  predicate OnlyRotated(s: AuthorityState, u: AuthorityState, deadline: Instant) {
    && u.spec == s.spec && u.pending.None?
    && u.activeRoot == s.activeRoot + 1 && u.activeRoot in u.roots
    && s.activeRoot in s.roots && s.activeRoot in u.roots
    && u.roots[s.activeRoot] == s.roots[s.activeRoot].(key := None, retiredTrustUntil := deadline)
    && (forall g :: g in s.roots && g != s.activeRoot ==> g in u.roots && u.roots[g] == s.roots[g])
    && u.issuers.Keys == s.issuers.Keys
  }

  lemma RootsAreRotated(s: AuthorityState, supply: Supply, now: Instant, deadline: Instant)
    requires Inv(s) && s.pending.None? && PrepareRoot(s, supply, now).Ok?
    ensures var t := PrepareRoot(s, supply, now).value;
            t.pending.Some? && t.activeRoot in t.roots && OnlyRotated(s, Promoted(t, t.pending.value, deadline), deadline)
  {
    NextGenerationIsNext(s);
    hide IssuerInv, RootInv, Staged, Activated, MakeRoot, MakeIssuer;
    var t := PrepareRoot(s, supply, now).value;
    assert t.issuers.Keys == s.issuers.Keys;
  }

  /** Preparing and promoting a root: the next generation is active, every issuer has a new active
      version signed by it, the old root is kept without its key until the deadline, and nothing
      else changes. */
  lemma PromoteCompletesRotation(s: AuthorityState, supply: Supply, now: Instant, deadline: Instant)
    requires Inv(s) && s.pending.None? && PrepareRoot(s, supply, now).Ok?
    ensures var t := PrepareRoot(s, supply, now).value;
            t.pending.Some? && t.activeRoot in t.roots
            && var u := Promoted(t, t.pending.value, deadline);
               && OnlyRotated(s, u, deadline)
               && forall slug :: slug in s.issuers ==> Rotated(s.issuers[slug], u.issuers[slug], u.activeRoot, u.roots[u.activeRoot].certificate)
  {
    hide Inv, PrepareRoot, Rotated, Promoted;
    RootsAreRotated(s, supply, now, deadline);
    forall slug | slug in s.issuers
      ensures var t := PrepareRoot(s, supply, now).value;
              var u := Promoted(t, t.pending.value, deadline);
              Rotated(s.issuers[slug], u.issuers[slug], u.activeRoot, u.roots[u.activeRoot].certificate)
    {
      IssuerIsRotated(s, supply, now, deadline, slug);
    }
  }

  // ----- what Ensure achieves -----

  predicate Configured(s: AuthorityState, defs: seq<IssuerDefinition>) {
    forall i :: 0 <= i < |defs| ==> defs[i].slug in s.issuers && s.issuers[defs[i].slug].definition == defs[i]
  }

  lemma {:induction false} AddedAreConfigured(s: AuthorityState, defs: seq<IssuerDefinition>, secret: Secret,
          supply: Supply, now: Instant)
    requires s.activeRoot in s.roots && AddIssuers(s, defs, secret, supply, now).Ok?
    ensures var t := AddIssuers(s, defs, secret, supply, now).value;
            && Configured(t, defs)
            && (forall slug :: slug in s.issuers ==> slug in t.issuers && t.issuers[slug] == s.issuers[slug])
            && (Configured(s, defs) ==> t == s)
  {
    if defs == [] {
    } else {
      AddedAreConfigured(s, defs[..|defs| - 1], secret, supply, now);
      var before := AddIssuers(s, defs[..|defs| - 1], secret, supply, now).value;
      var t := AddIssuers(s, defs, secret, supply, now).value;
      assert forall slug :: slug in before.issuers ==> slug in t.issuers && t.issuers[slug] == before.issuers[slug];
      forall i | 0 <= i < |defs|
        ensures defs[i].slug in t.issuers && t.issuers[defs[i].slug].definition == defs[i]
      {
        if i < |defs| - 1 {
          assert defs[..|defs| - 1][i] == defs[i];
        }
      }
    }
  }

  lemma {:induction false} ConfiguredNeedsNothing(s: AuthorityState, defs: seq<IssuerDefinition>, secret: Secret,
          supply: Supply, now: Instant)
    requires s.activeRoot in s.roots && Configured(s, defs)
    ensures AddIssuers(s, defs, secret, supply, now) == Ok(s)
  {
    if defs == [] {
    } else {
      var init := defs[..|defs| - 1];
      assert forall i :: 0 <= i < |init| ==> init[i] == defs[i];
      ConfiguredNeedsNothing(s, init, secret, supply, now);
    }
  }

  predicate RootDue(s: AuthorityState, opts: EnsureOptions, now: Instant)
    requires s.activeRoot in s.roots
  {
    RotationDue(opts.rootRotateBefore, s.roots[s.activeRoot].certificate.notAfter, now)
  }

  predicate ActiveKnown(s: AuthorityState) {
    s.activeRoot in s.roots && forall slug :: slug in s.issuers ==> s.issuers[slug].activeVersion in s.issuers[slug].versions
  }

  predicate NothingDue(s: AuthorityState, opts: EnsureOptions, now: Instant)
    requires ActiveKnown(s)
  {
    !RootDue(s, opts, now) && forall slug :: slug in s.issuers ==> !IssuerDue(s, opts, slug, now)
  }

  /** A rotation is staged exactly for what is due: everything when the root is, otherwise the due
      issuers. */
  predicate StagesDue(t: AuthorityState, opts: EnsureOptions, now: Instant)
    requires ActiveKnown(t)
  {
    if RootDue(t, opts, now) then
      t.pending.Some? && t.pending.value.kind == PendingRoot && t.pending.value.rootGeneration == t.activeRoot + 1
      && t.pending.value.issuers.Keys == t.issuers.Keys
    else
      && (t.pending.Some? ==> t.pending.value.kind == PendingIssuer && t.pending.value.issuers != map[])
      && forall slug :: slug in t.issuers ==> (IssuerPending(t, slug) <==> IssuerDue(t, opts, slug, now))
  }

  lemma StagingKeepsActive(s: AuthorityState, due: set<Slug>, generation: int, root: Certificate, rootKey: nat,
          supply: Supply, now: Instant)
    requires ActiveKnown(s) && due <= s.issuers.Keys && StageIssuers(s, due, generation, root, rootKey, supply, now).Ok?
    ensures var t := StageIssuers(s, due, generation, root, rootKey, supply, now).value;
            && t.issuers.Keys == s.issuers.Keys
            && forall slug :: slug in s.issuers ==>
                 && t.issuers[slug].activeVersion == s.issuers[slug].activeVersion
                 && t.issuers[slug].definition == s.issuers[slug].definition
                 && s.issuers[slug].activeVersion in t.issuers[slug].versions
                 && t.issuers[slug].versions[s.issuers[slug].activeVersion] == s.issuers[slug].versions[s.issuers[slug].activeVersion]
  {
    hide MakeIssuer;
  }

  predicate KeepsDefinitions(s: AuthorityState, t: AuthorityState) {
    forall slug :: slug in s.issuers ==> slug in t.issuers && t.issuers[slug].definition == s.issuers[slug].definition
  }

  lemma RootIsStaged(s: AuthorityState, opts: EnsureOptions, supply: Supply, now: Instant)
    requires Inv(s) && s.pending.None? && ActiveKnown(s) && RootDue(s, opts, now) && PrepareRoot(s, supply, now).Ok?
    ensures var t := PrepareRoot(s, supply, now).value;
            ActiveKnown(t) && StagesDue(t, opts, now) && KeepsDefinitions(s, t)
  {
    hide RootInv, IssuerInv, MakeRoot, StagedMap, RotationDue;
    NextGenerationIsNext(s);
    var g := s.activeRoot + 1;
    var root := MakeRoot(s.spec, g, now, supply(ForRoot));
    var grown := s.(roots := s.roots[g := root]);
    StagingKeepsActive(grown, s.issuers.Keys, g, root.certificate, supply(ForRoot).key, supply, now);
  }

  lemma IssuersAreStaged(s: AuthorityState, opts: EnsureOptions, secret: Secret, supply: Supply, now: Instant,
          due: set<Slug>)
    requires ActiveKnown(s) && !RootDue(s, opts, now) && due <= s.issuers.Keys && due != {}
    requires forall slug :: slug in s.issuers ==> (slug in due <==> IssuerDue(s, opts, slug, now))
    requires PrepareIssuers(s, due, secret, supply, now).Ok?
    ensures var t := PrepareIssuers(s, due, secret, supply, now).value;
            ActiveKnown(t) && StagesDue(t, opts, now) && KeepsDefinitions(s, t)
  {
    hide StagedMap, RotationDue;
    var key := ActiveRootSigner(s, secret).value;
    StagingKeepsActive(s, due, s.activeRoot, s.roots[s.activeRoot].certificate, key, supply, now);
    var some := SomeMember(due);
    var t := PrepareIssuers(s, due, secret, supply, now).value;
    assert some in t.pending.value.issuers;
  }

  lemma RotateStages(before: AuthorityState, s: AuthorityState, opts: EnsureOptions, secret: Secret, supply: Supply,
          now: Instant)
    requires Inv(s) && s.pending.None? && ActiveKnown(s)
    ensures var r := Rotate(before, s, opts, secret, supply, now);
            r.Ok? ==> ActiveKnown(r.value) && StagesDue(r.value, opts, now) && KeepsDefinitions(s, r.value)
    ensures Rotate(before, s, opts, secret, supply, now) == Err(NoMutation) <==> NothingDue(s, opts, now) && s == before
  {
    hide Inv, RotationDue, PrepareRoot, IssuerDue, NextGeneration;
    var due := set slug | slug in s.issuers && IssuerDue(s, opts, slug, now);
    assert forall slug :: slug in s.issuers ==> (slug in due <==> IssuerDue(s, opts, slug, now));
    if RootDue(s, opts, now) {
      NoSentinelRoot(s, supply, now);
      if PrepareRoot(s, supply, now).Ok? {
        RootIsStaged(s, opts, supply, now);
      }
    } else if due != {} {
      var some := SomeMember(due);
      if PrepareIssuers(s, due, secret, supply, now).Ok? {
        IssuersAreStaged(s, opts, secret, supply, now, due);
      }
    }
  }

  /** Preparing a root fails only with a validity error. */
  lemma NoSentinelRoot(s: AuthorityState, supply: Supply, now: Instant)
    ensures PrepareRoot(s, supply, now).Err? ==> PrepareRoot(s, supply, now).error == Validation
  {
  }

  /** Ensure on an existing authority: afterwards every configured issuer is there as configured, and
      what is staged for rotation is exactly what is due; it reports that nothing was to do exactly
      when all of that held already. */
  lemma EnsureAchieves(s: AuthorityState, cfg: ManagerConfig, opts: EnsureOptions, secret: Secret, supply: Supply,
          now: Instant)
    requires Inv(s) && ValidState(s) && ValidConfig(cfg) && FreshFor(supply, s)
    ensures ActiveKnown(s)
    ensures var r := Ensure(s, cfg, opts, secret, supply, now);
            && (r.Ok? ==> ActiveKnown(r.value) && Configured(r.value, cfg.issuers) && StagesDue(r.value, opts, now))
            && (r == Err(NoMutation) <==>
                  && AssertSpec(s, cfg).Ok? && s.pending.None? && ActiveRootSigner(s, secret).Ok?
                  && Configured(s, cfg.issuers) && NothingDue(s, opts, now))
  {
    ValidIsKnown(s);
    hide ValidState, Inv, Rotate, RootDue, AssertSpec, NothingDue, StagesDue, AddIssuers, Configured, KeepsDefinitions, ActiveRootSigner, FreshFor, ValidConfig;
    if s.pending.None? && AssertSpec(s, cfg).Ok? && ActiveRootSigner(s, secret).Ok? {
      if AddIssuers(s, cfg.issuers, secret, supply, now).Ok? {
        var added := AddIssuers(s, cfg.issuers, secret, supply, now).value;
        AddIssuersInv(s, cfg.issuers, secret, supply, now);
        InvImpliesValidState(added);
        ValidIsKnown(added);
        AddedAreConfigured(s, cfg.issuers, secret, supply, now);
        RotateStages(s, added, opts, secret, supply, now);
        var r := Rotate(s, added, opts, secret, supply, now);
        if r.Ok? {
          ConfiguredStays(added, r.value, cfg.issuers);
        }
      } else {
        NoSentinelIssuers(s, cfg.issuers, secret, supply, now);
        if Configured(s, cfg.issuers) {
          ConfiguredNeedsNothing(s, cfg.issuers, secret, supply, now);
        }
      }
    }
  }

  lemma ConfiguredStays(s: AuthorityState, t: AuthorityState, defs: seq<IssuerDefinition>)
    requires Configured(s, defs) && KeepsDefinitions(s, t)
    ensures Configured(t, defs)
  {
  }

  lemma ValidIsKnown(s: AuthorityState)
    requires ValidState(s)
    ensures ActiveKnown(s)
  {
    forall slug | slug in s.issuers
      ensures s.issuers[slug].activeVersion in s.issuers[slug].versions
    {
      assert ValidIssuer(s, slug);
    }
  }

  lemma {:induction false} NoSentinelIssuers(s: AuthorityState, defs: seq<IssuerDefinition>, secret: Secret,
          supply: Supply, now: Instant)
    requires s.activeRoot in s.roots
    ensures AddIssuers(s, defs, secret, supply, now) != Err(NoMutation)
  {
    if defs == [] {
    } else {
      NoSentinelIssuers(s, defs[..|defs| - 1], secret, supply, now);
    }
  }

  /** Ensure settles: where it only added issuers, the same call at the same moment finds nothing
      more to do. */
  lemma EnsureSettles(s: AuthorityState, cfg: ManagerConfig, opts: EnsureOptions, secret: Secret, supply: Supply,
          again: Supply, now: Instant)
    requires Inv(s) && ValidState(s) && ValidConfig(cfg) && FreshFor(supply, s)
    requires Ensure(s, cfg, opts, secret, supply, now).Ok? && Ensure(s, cfg, opts, secret, supply, now).value.pending.None?
    requires FreshFor(again, Ensure(s, cfg, opts, secret, supply, now).value)
    ensures var t := Ensure(s, cfg, opts, secret, supply, now).value;
            ValidState(t) && Ensure(t, cfg, opts, secret, again, now) == Err(NoMutation)
  {
    var t := Ensure(s, cfg, opts, secret, supply, now).value;
    SettledIsValid(s, cfg, opts, secret, supply, now);
    EnsureAchieves(s, cfg, opts, secret, supply, now);
    EnsureAchieves(t, cfg, opts, secret, again, now);
    SameSpecAndRoots(s, cfg, opts, secret, supply, now);
    hide Inv, ValidState, Ensure, IssuerDue, RotationDue;
  }

  lemma SettledIsValid(s: AuthorityState, cfg: ManagerConfig, opts: EnsureOptions, secret: Secret, supply: Supply,
          now: Instant)
    requires Inv(s) && ValidState(s) && ValidConfig(cfg) && FreshFor(supply, s) && Ensure(s, cfg, opts, secret, supply, now).Ok?
    ensures Inv(Ensure(s, cfg, opts, secret, supply, now).value) && ValidState(Ensure(s, cfg, opts, secret, supply, now).value)
  {
    assert s != EMPTY_STATE;
    hide Inv, ValidState, Ensure;
    EnsureInv(s, cfg, opts, secret, supply, now);
    InvImpliesValidState(Ensure(s, cfg, opts, secret, supply, now).value);
  }

  lemma SameSpecAndRoots(s: AuthorityState, cfg: ManagerConfig, opts: EnsureOptions, secret: Secret, supply: Supply,
          now: Instant)
    requires ValidState(s) && Ensure(s, cfg, opts, secret, supply, now).Ok? && Ensure(s, cfg, opts, secret, supply, now).value.pending.None?
    ensures var t := Ensure(s, cfg, opts, secret, supply, now).value;
            && t.spec == s.spec && t.roots == s.roots && t.activeRoot == s.activeRoot
            && AssertSpec(t, cfg).Ok? && t.activeRoot in t.roots && ActiveRootSigner(t, secret).Ok?
  {
    hide ValidRoot, ValidIssuer, ValidPending, AddIssuers, IssuerDue, RotationDue;
  }
}
