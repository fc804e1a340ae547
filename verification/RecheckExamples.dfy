/** Concrete inputs on which the validation at the end of update refuses what a mutation made. */
module RecheckExamples {
  import opened Wrappers
  import opened Certificates
  import opened Policy
  import opened Authority
  import opened AuthorityInvariant
  import opened Recheck
  import opened StaleCheckExample

  // ----- a configured common name -----

  const NAMED := ManagerConfig("a", Some("A"), Some(NO_IDENTITY.(commonName := "x")), None, None, [])

  /** An accepted configuration with which an authority can never be created: the first Ensure always
      ends with a drift of the root it has just made. */
  lemma CommonNameIsRefused(opts: EnsureOptions, secret: Secret, supply: Supply, now: Instant)
    ensures ValidConfig(NAMED) && Mutate(EMPTY_STATE, NAMED, EnsureCommand(opts, secret, supply), [], now).Ok?
    ensures Update(None, NAMED, EnsureCommand(opts, secret, supply), [], now) == Err(Drift)
  {
    UpdateExactly(None, NAMED, EnsureCommand(opts, secret, supply), [], now);
    hide Update;
  }

  // ----- a version 0 that a manifest leaves out -----

  function Both(): ManagerConfig {
    Config([Definition("a"), Definition("b")])
  }

  ghost predicate TwoIssuers(s: AuthorityState) {
    && Inv(s) && ValidState(s) && s.pending.None? && s.spec == SPEC && s.activeRoot == 1
    && s.roots == map[1 := MakeRoot(SPEC, 1, NOW, FIRST(ForRoot))]
    && s.issuers.Keys == {"a", "b"} && Ordinary(s, "a") && Ordinary(s, "b") && s.issuers["b"].versions.Keys == {1}
  }

  ghost predicate Ordinary(s: AuthorityState, slug: Slug) {
    && slug in s.issuers && s.issuers[slug].definition == Definition(slug) && s.issuers[slug].activeVersion == 1
    && 1 in s.issuers[slug].versions
    && s.issuers[slug].versions[1].certificate.notAfter == WholeSeconds(NOW + 2 * MAXIMUM_LEAF_VALIDITY)
  }

  lemma FirstTwo(bare: AuthorityState, da: IssuerDefinition, db: IssuerDefinition, va: IssuerVersion, vb: IssuerVersion)
    requires bare.activeRoot in bare.roots && bare.issuers == map[]
    requires var root := bare.roots[bare.activeRoot].certificate;
             && MakeIssuer(bare.spec, bare.activeRoot, 1, da, root, 1, NOW, FIRST(ForIssuer(da.slug))) == Ok(va)
             && MakeIssuer(bare.spec, bare.activeRoot, 1, db, root, 1, NOW, FIRST(ForIssuer(db.slug))) == Ok(vb)
    ensures FirstIssuers(bare, [da, db], 1, FIRST, NOW)
         == Ok(bare.(issuers := map[da.slug := IssuerRecord(da, 1, map[1 := va]), db.slug := IssuerRecord(db, 1, map[1 := vb])]))
  {
    hide MakeIssuer;
    assert [da][..0] == [] && [da, db][..1] == [da];
    var first := bare.(issuers := map[da.slug := IssuerRecord(da, 1, map[1 := va])]);
    assert FirstIssuers(bare, [], 1, FIRST, NOW) == Ok(bare);
    assert FirstIssuers(bare, [da], 1, FIRST, NOW) == Ok(first);
    assert first.issuers[db.slug := IssuerRecord(db, 1, map[1 := vb])]
        == map[da.slug := IssuerRecord(da, 1, map[1 := va]), db.slug := IssuerRecord(db, 1, map[1 := vb])];
  }

  const SPEC := AuthoritySpec("id", FORMAT_VERSION, "A", NO_IDENTITY, 10 * MAXIMUM_LEAF_VALIDITY, Ledger, BACKEND)

  lemma VersionMade(d: IssuerDefinition, slug: Slug) returns (v: IssuerVersion)
    requires d == Definition(slug)
    ensures MakeIssuer(SPEC, 1, 1, d, MakeRoot(SPEC, 1, NOW, FIRST(ForRoot)).certificate, 1, NOW, FIRST(ForIssuer(slug))) == Ok(v)
    ensures v.certificate.notAfter == WholeSeconds(NOW + 2 * MAXIMUM_LEAF_VALIDITY)
  {
    WholeSecondsBounds(NOW + SPEC.rootValidity);
    v := MakeIssuer(SPEC, 1, 1, d, MakeRoot(SPEC, 1, NOW, FIRST(ForRoot)).certificate, 1, NOW, FIRST(ForIssuer(slug))).value;
  }

  const BARE := AuthorityState(SPEC, 0, 1, map[1 := MakeRoot(SPEC, 1, NOW, FIRST(ForRoot))], map[], None)

  lemma ProvisionIs()
    ensures Provision(Both(), FIRST, NOW) == FirstIssuers(BARE, [Definition("a"), Definition("b")], 1, FIRST, NOW)
  {
    hide FirstIssuers;
  }

  lemma TwoShape(va: IssuerVersion, vb: IssuerVersion) returns (s: AuthorityState)
    requires va.certificate.notAfter == vb.certificate.notAfter == WholeSeconds(NOW + 2 * MAXIMUM_LEAF_VALIDITY)
    ensures s == BARE.(issuers := map["a" := IssuerRecord(Definition("a"), 1, map[1 := va]), "b" := IssuerRecord(Definition("b"), 1, map[1 := vb])])
    ensures s.issuers.Keys == {"a", "b"} && Ordinary(s, "a") && Ordinary(s, "b") && s.issuers["b"].versions.Keys == {1}
  {
    hide WholeSeconds, Definition, MakeRoot;
    s := BARE.(issuers := map["a" := IssuerRecord(Definition("a"), 1, map[1 := va]), "b" := IssuerRecord(Definition("b"), 1, map[1 := vb])]);
    DefinitionsNamed();
    assert map[1 := vb].Keys == {1};
  }

  lemma DefinitionsNamed()
    ensures Definition("a").slug == "a" && Definition("b").slug == "b"
  {
  }

  lemma Provisioned2() returns (s: AuthorityState)
    ensures TwoIssuers(s)
  {
    DefinitionsValid();
    DefinitionsNamed();
    var va := VersionMade(Definition("a"), "a");
    var vb := VersionMade(Definition("b"), "b");
    hide Definition, MakeIssuer, MakeRoot, FirstIssuers, WholeSeconds, Inv, ValidState, Provision, ValidConfig, Ordinary;
    FirstTwo(BARE, Definition("a"), Definition("b"), va, vb);
    ProvisionIs();
    s := TwoShape(va, vb);
    FirstIsFresh();
    ProvisionInv(Both(), FIRST, NOW);
    InvImpliesValidState(s);
  }

  lemma FirstIsFresh()
    ensures FreshFor(FIRST, EMPTY_STATE)
  {
  }

  /** An issuer with one more version, numbered 0, a copy of version 1. */
  function WithZero(s: AuthorityState, slug: Slug, key: Option<nat>): AuthorityState
    requires slug in s.issuers && 1 in s.issuers[slug].versions
  {
    var i, v := s.issuers[slug], s.issuers[slug].versions[1];
    var zero := v.(version := 0, key := key,
                   certificate := v.certificate.(subject := IssuerName(s.spec, v.rootGeneration, i.definition.name, 0)));
    s.(issuers := s.issuers[slug := i.(versions := i.versions[0 := zero])])
  }

  lemma ZeroIssuerValid(s: AuthorityState, slug: Slug, key: Option<nat>)
    requires slug in s.issuers && ValidIssuer(s, slug) && 1 in s.issuers[slug].versions && 0 !in s.issuers[slug].versions
    requires key.Some? <==> PendingVersion(s, slug, 0)
    ensures ValidIssuer(WithZero(s, slug, key), slug)
  {
    hide ValidVersion, ValidDefinition;
    var t := WithZero(s, slug, key);
    forall v | v in t.issuers[slug].versions
      ensures ValidVersion(t, slug, v)
    {
      if v == 0 {
        ZeroVersionValid(s, slug, key);
      } else {
        assert ValidVersion(s, slug, v);
        VersionRoot(s, slug, v);
        VersionKept(s, t, slug, v);
      }
    }
  }

  lemma ZeroVersionValid(s: AuthorityState, slug: Slug, key: Option<nat>)
    requires slug in s.issuers && 1 in s.issuers[slug].versions && ValidVersion(s, slug, 1) && s.issuers[slug].activeVersion >= 1
    requires key.Some? <==> PendingVersion(s, slug, 0)
    ensures ValidVersion(WithZero(s, slug, key), slug, 0)
  {
  }

  lemma WithZeroValid(s: AuthorityState, slug: Slug, key: Option<nat>)
    requires ValidState(s) && slug in s.issuers && 1 in s.issuers[slug].versions && 0 !in s.issuers[slug].versions
    requires key.Some? <==> PendingVersion(s, slug, 0)
    requires s.pending.Some? ==> s.pending.value.kind == PendingIssuer
    ensures ValidState(WithZero(s, slug, key))
  {
    hide ValidVersion, ValidDefinition;
    var t := WithZero(s, slug, key);
    forall g | g in t.roots
      ensures ValidRoot(t, g)
    {
      assert ValidRoot(s, g);
      RootKept(s, t, g);
    }
    hide ValidRoot, ValidIssuer;
    forall other | other in t.issuers
      ensures ValidIssuer(t, other)
    {
      assert ValidIssuer(s, other);
      if other == slug {
        ZeroIssuerValid(s, slug, key);
      } else {
        IssuerKept(s, t, other);
      }
    }
  }

  const ROTATE_A := EnsureCommand(EnsureOptions(None, map["a" := 0]), Right, SECOND_SUPPLY)

  /** A valid document without a manifest whose issuer b has a version 0: staging a successor of a
      alone is refused. */
  lemma VersionZeroStopsEnsure() returns (s: AuthorityState)
    ensures ValidState(s) && Mutate(s, Both(), ROTATE_A, [], NOW).Ok?
    ensures Update(Some(s), Both(), ROTATE_A, [], NOW) == Err(Corrupt)
  {
    var t := Provisioned2();
    DefinitionsValid();
    s := WithZero(t, "b", None);
    WithZeroValid(t, "b", None);
    ZeroEnsureSucceeds(t);
    ZeroNotAllowed(t);
    hide ValidState, Mutate, Passes, Update, TwoIssuers;
    UpdateExactly(Some(s), Both(), ROTATE_A, [], NOW);
  }

  lemma RootIsYoung(s: AuthorityState)
    requires TwoIssuers(s)
    ensures !RotationDue(None, s.roots[1].certificate.notAfter, NOW)
    ensures !RotationDue(None, WholeSeconds(NOW + 2 * MAXIMUM_LEAF_VALIDITY), NOW)
    ensures NOW + 2 * MAXIMUM_LEAF_VALIDITY + CLOCK_SKEW <= s.roots[1].certificate.notAfter
    ensures s.roots[1].key == Some(1) && s.roots[1].certificate.publicKey == 1
  {
    hide Inv, ValidState;
    WholeSecondsBounds(NOW + s.spec.rootValidity);
    WholeSecondsBounds(NOW + 2 * MAXIMUM_LEAF_VALIDITY);
  }

  lemma ZeroNotAllowed(t: AuthorityState)
    requires TwoIssuers(t) && ValidState(WithZero(t, "b", None))
    ensures !Passes(WithZero(t, "b", None), Both(), ROTATE_A, NOW)
  {
    var s := WithZero(t, "b", None);
    RootIsYoung(t);
    hide Inv, ValidState, RotationDue, WholeSeconds;
    assert s.spec.id != "" by {
      IdentifiedSpec(s);
    }
    assert 0 in s.issuers["b"].versions;
    ExplicitlyDue(s);
    assert "a" in s.issuers && IssuerDue(s, ROTATE_A.opts, "a", NOW) && !IssuerDue(s, ROTATE_A.opts, "b", NOW);
  }

  lemma ExplicitlyDue(s: AuthorityState)
    ensures forall notAfter :: RotationDue(Some(0), notAfter, NOW)
  {
  }

  lemma KnownAreKept(s: AuthorityState, da: IssuerDefinition, db: IssuerDefinition)
    requires s.activeRoot in s.roots && da.slug in s.issuers && db.slug in s.issuers
    requires s.issuers[da.slug].definition == da && s.issuers[db.slug].definition == db
    ensures AddIssuers(s, [da, db], Right, SECOND_SUPPLY, NOW) == Ok(s)
  {
    assert [da][..0] == [] && [da, db][..1] == [da];
    assert AddIssuers(s, [], Right, SECOND_SUPPLY, NOW) == Ok(s);
    assert AddIssuers(s, [da], Right, SECOND_SUPPLY, NOW) == Ok(s);
  }

  lemma OnlyADue(s: AuthorityState)
    requires s.issuers.Keys == {"a", "b"}
    requires forall slug :: slug in s.issuers ==> s.issuers[slug].activeVersion in s.issuers[slug].versions
    requires s.issuers["a"].definition == Definition("a") && s.issuers["b"].definition == Definition("b")
    requires !RotationDue(None, s.issuers["b"].versions[s.issuers["b"].activeVersion].certificate.notAfter, NOW)
    ensures (set slug | slug in s.issuers && IssuerDue(s, ROTATE_A.opts, slug, NOW)) == {"a"}
  {
    var due := set slug | slug in s.issuers && IssuerDue(s, ROTATE_A.opts, slug, NOW);
    ExplicitlyDue(s);
    hide RotationDue;
    assert "a" in due && "b" !in due;
    assert due <= {"a", "b"};
  }

  lemma EnsureStages(s: AuthorityState)
    requires ValidState(s) && s.pending.None? && s.spec.id != "" && AssertSpec(s, Both()).Ok?
    requires AddIssuers(s, Both().issuers, Right, SECOND_SUPPLY, NOW) == Ok(s) && ActiveRootSigner(s, Right) == Ok(1)
    requires !RotationDue(None, s.roots[s.activeRoot].certificate.notAfter, NOW)
    requires forall slug :: slug in s.issuers ==> s.issuers[slug].activeVersion in s.issuers[slug].versions
    requires (set slug | slug in s.issuers && IssuerDue(s, ROTATE_A.opts, slug, NOW)) == {"a"} <= s.issuers.Keys
    requires StageIssuers(s, {"a"}, s.activeRoot, s.roots[s.activeRoot].certificate, 1, SECOND_SUPPLY, NOW).Ok?
    ensures Mutate(s, Both(), ROTATE_A, [], NOW).Ok?
  {
    hide ValidState, RotationDue, IssuerDue, AddIssuers, StageIssuers, AssertSpec, ActiveRootSigner;
  }

  lemma ZeroShape(t: AuthorityState)
    requires t.issuers.Keys == {"a", "b"} && Ordinary(t, "a") && Ordinary(t, "b")
    ensures var s := WithZero(t, "b", None);
            && s == t.(issuers := s.issuers) && s.issuers.Keys == {"a", "b"} && Ordinary(s, "a") && Ordinary(s, "b") && 0 in s.issuers["b"].versions
  {
    hide WholeSeconds, Definition;
  }

  lemma SpecMatches(s: AuthorityState)
    requires s.spec == SPEC
    ensures AssertSpec(s, Both()).Ok? && s.spec.id != ""
  {
  }

  lemma Signs(s: AuthorityState)
    requires s.activeRoot == 1 && s.roots == map[1 := MakeRoot(SPEC, 1, NOW, FIRST(ForRoot))]
    ensures ActiveRootSigner(s, Right) == Ok(1)
  {
  }

  lemma ZeroEnsureSucceeds(t: AuthorityState)
    requires TwoIssuers(t) && ValidState(WithZero(t, "b", None))
    ensures Mutate(WithZero(t, "b", None), Both(), ROTATE_A, [], NOW).Ok?
  {
    RootIsYoung(t);
    ZeroShape(t);
    var s := WithZero(t, "b", None);
    ValidIssuersKnown(s);
    DefinitionsNamed();
    SpecMatches(s);
    Signs(s);
    hide Inv, ValidState, RotationDue, WholeSeconds, AddIssuers, StageIssuers, MakeRoot, Mutate, WithZero, Definition, AssertSpec,
      ActiveRootSigner, IssuerDue;
    KnownAreKept(s, Definition("a"), Definition("b"));
    OnlyADue(s);
    StagingSucceeds(s, 1);
    EnsureStages(s);
  }

  lemma StagingSucceeds(s: AuthorityState, key: nat)
    requires s.activeRoot in s.roots && "a" in s.issuers && s.issuers["a"].definition == Definition("a")
    requires NOW + 2 * MAXIMUM_LEAF_VALIDITY + CLOCK_SKEW <= s.roots[s.activeRoot].certificate.notAfter
    ensures StageIssuers(s, {"a"}, s.activeRoot, s.roots[s.activeRoot].certificate, key, SECOND_SUPPLY, NOW).Ok?
  {
  }

  /** A valid document whose issuer manifest names a alone, and whose issuer b has a version 0: it must
      hold a key, so neither discarding nor promoting the manifest leaves a valid document. */
  lemma VersionZeroStopsBoth() returns (s: AuthorityState)
    ensures ValidState(s) && Mutate(s, Both(), DiscardCommand, [], NOW).Ok? && Mutate(s, Both(), PromoteCommand(Right), [], NOW).Ok?
    ensures Update(Some(s), Both(), DiscardCommand, [], NOW) == Err(Corrupt)
    ensures Update(Some(s), Both(), PromoteCommand(Right), [], NOW) == Err(Corrupt)
  {
    s := ZeroUnderManifest();
    BothValid();
    NothingRecorded(s);
    hide ValidState, ValidConfig, Mutate, Passes, Update, LedgerChecked, StateErrors;
    UpdateExactly(Some(s), Both(), DiscardCommand, [], NOW);
    UpdateExactly(Some(s), Both(), PromoteCommand(Right), [], NOW);
  }

  lemma BothValid()
    ensures ValidConfig(Both())
  {
    DefinitionsValid();
  }

  lemma NothingRecorded(s: AuthorityState)
    ensures LedgerChecked(Some(s), [])
  {
  }

  lemma ZeroUnderManifest() returns (s: AuthorityState)
    ensures ValidState(s) && Mutate(s, Both(), DiscardCommand, [], NOW).Ok? && Mutate(s, Both(), PromoteCommand(Right), [], NOW).Ok?
    ensures !Passes(s, Both(), DiscardCommand, NOW) && !Passes(s, Both(), PromoteCommand(Right), NOW)
  {
    var u := StagedForA();
    s := WithZero(u, "b", Some(5));
    hide ValidState, ValidIssuer, Mutate, Passes;
    WithZeroValid(u, "b", Some(5));
    assert 0 in s.issuers["b"].versions;
    ZeroPending(s);
  }

  ghost predicate AForStaged(s: AuthorityState) {
    && ValidState(s) && s.spec.backend == BACKEND && s.spec.name == "A" && s.spec.mode == Ledger && s.spec.identity == NO_IDENTITY
    && s.pending.Some? && s.pending.value.kind == PendingIssuer && s.pending.value.issuers == map["a" := 2]
    && "a" in s.issuers && "b" in s.issuers && 2 in s.issuers["a"].versions
    && KeyMatches(s.issuers["a"].versions[2].key, s.issuers["a"].versions[2].certificate)
  }

  lemma StagedForA() returns (u: AuthorityState)
    ensures AForStaged(u) && u.issuers["b"].versions.Keys == {1}
  {
    var t := Provisioned2();
    RootIsYoung(t);
    StagingSucceeds(t, 1);
    assert t.spec.backend == BACKEND;
    hide Inv, ValidState, StageIssuers, MakeRoot, WholeSeconds;
    assert PrepareIssuers(t, {"a"}, Right, SECOND_SUPPLY, NOW).Ok?;
    u := PrepareIssuers(t, {"a"}, Right, SECOND_SUPPLY, NOW).value;
    SecondIsFresh(t);
    PrepareIssuersInv(t, {"a"}, Right, SECOND_SUPPLY, NOW);
    InvImpliesValidState(u);
    StagedParts(t, u);
    PendingKeyMatches(u);
  }

  lemma SecondIsFresh(t: AuthorityState)
    requires TwoIssuers(t)
    ensures FreshFor(SECOND_SUPPLY, t)
  {
    hide Inv, ValidState;
  }

  lemma StagedParts(t: AuthorityState, u: AuthorityState)
    requires t.activeRoot in t.roots && t.issuers.Keys == {"a", "b"} && t.issuers["a"].activeVersion == 1 && t.issuers["b"].versions.Keys == {1}
    requires PrepareIssuers(t, {"a"}, Right, SECOND_SUPPLY, NOW) == Ok(u)
    ensures u.spec == t.spec && u.pending.Some? && u.pending.value.kind == PendingIssuer && u.pending.value.issuers == map["a" := 2]
    ensures "a" in u.issuers && "b" in u.issuers && 2 in u.issuers["a"].versions && u.issuers["b"] == t.issuers["b"]
  {
    hide MakeIssuer;
  }

  lemma PendingKeyMatches(u: AuthorityState)
    requires Inv(u) && u.pending.Some? && u.pending.value.issuers == map["a" := 2] && "a" in u.issuers && 2 in u.issuers["a"].versions
    ensures KeyMatches(u.issuers["a"].versions[2].key, u.issuers["a"].versions[2].certificate)
  {
    assert IssuerInv(u, "a") && VersionInv(u, "a", 2);
    assert PendingVersion(u, "a", 2);
  }

  lemma ZeroPending(s: AuthorityState)
    requires AForStaged(s) && 0 in s.issuers["b"].versions
    ensures Mutate(s, Both(), DiscardCommand, [], NOW).Ok? && Mutate(s, Both(), PromoteCommand(Right), [], NOW).Ok?
    ensures !Passes(s, Both(), DiscardCommand, NOW) && !Passes(s, Both(), PromoteCommand(Right), NOW)
  {
    hide ValidState, IdentityText;
    assert "b" !in s.pending.value.issuers;
  }
}
