/** A concrete run on which an issuer refuses a sound ledger because it loaded the document before
    another writer changed it. */
module StaleCheckExample {
  import opened Wrappers
  import opened Certificates
  import opened Policy
  import opened Authority
  import opened AuthorityInvariant
  import opened Evolution
  import opened Lifecycle
  import opened Signing
  import opened Safety

  const NOW: Instant := SECOND

  function Definition(slug: Slug): IssuerDefinition {
    IssuerDefinition(slug, slug, 2 * MAXIMUM_LEAF_VALIDITY, [TLSClient], "", NO_IDENTITY, SANPolicy([], [], [], []))
  }

  function Config(issuers: seq<IssuerDefinition>): ManagerConfig {
    ManagerConfig("id", Some("A"), None, Some(Ledger), None, issuers)
  }

  const FIRST: Supply := (p: Purpose) => if p.ForRoot? then Material(1, 1, 1) else Material(2, 2, 2)

  const SECOND_SUPPLY: Supply := (p: Purpose) => if p.ForRoot? then Material(3, 3, 3) else Material(4, 4, 4)

  const EMPTY_STORE := Store(None, [], NOW)

  function Call(supply: Supply): Command {
    EnsureCommand(EnsureOptions(None, map[]), Right, supply)
  }

  lemma DefinitionsValid()
    ensures ValidDefinition(Definition("a")) && ValidDefinition(Definition("b"))
    ensures ValidConfig(Config([Definition("a")])) && ValidConfig(Config([Definition("a"), Definition("b")]))
  {
    assert SlugOf("a") == "a";
    assert SlugOf("b") == "b";
  }

  ghost predicate AfterProvision(s: AuthorityState) {
    && Inv(s) && ValidState(s) && s.revision == 1 && s.pending.None? && s.spec.mode == Ledger
    && s.spec.backend == BACKEND && s.spec.name == "A" && s.activeRoot == 1
    && s.roots == map[1 := MakeRoot(s.spec, 1, NOW, FIRST(ForRoot))] && s.spec.rootValidity == 10 * MAXIMUM_LEAF_VALIDITY
    && s.issuers.Keys == {"a"} && s.issuers["a"].definition == Definition("a") && s.issuers["a"].activeVersion == 1
    && 1 in s.issuers["a"].versions
    && s.issuers["a"].versions[1].certificate.notAfter == WholeSeconds(NOW + 2 * MAXIMUM_LEAF_VALIDITY)
  }

  /** Provisioning with one issuer. */
  lemma Provisioned() returns (s: AuthorityState)
    ensures Next(EMPTY_STORE, Change(Config([Definition("a")]), Call(FIRST), NOW), EMPTY_STORE.(document := Some(s)))
    ensures AfterProvision(s)
  {
    DefinitionsValid();
    var cfg, cmd := Config([Definition("a")]), Call(FIRST);
    var spec := AuthoritySpec("id", FORMAT_VERSION, "A", NO_IDENTITY, 10 * MAXIMUM_LEAF_VALIDITY, Ledger, BACKEND);
    var root := MakeRoot(spec, 1, NOW, FIRST(ForRoot));
    var bare := AuthorityState(spec, 0, 1, map[1 := root], map[], None);
    WholeSecondsBounds(NOW + spec.rootValidity);
    var d := Definition("a");
    assert [d][..0] == [];
    var version := MakeIssuer(spec, 1, 1, d, root.certificate, 1, NOW, FIRST(ForIssuer("a"))).value;
    var t := bare.(issuers := map["a" := IssuerRecord(d, 1, map[1 := version])]);
    assert FirstIssuers(bare, [], 1, FIRST, NOW) == Ok(bare);
    assert FirstIssuers(bare, [d], 1, FIRST, NOW) == Ok(t);
    assert Mutate(EMPTY_STATE, cfg, cmd, [], NOW) == Ok(t);
    RecheckNeverRejects(None, cfg, cmd, [], NOW);
    s := t.(revision := 1);
    UpdateInv(None, cfg, cmd, [], NOW);
  }

  /** A second issuer is added while a signer of the first one has already loaded the document. */
  lemma ExtendedMutation(s: AuthorityState) returns (added: AuthorityState)
    requires AfterProvision(s)
    ensures Mutate(s, Config([Definition("a"), Definition("b")]), Call(SECOND_SUPPLY), [], NOW) == Ok(added)
    ensures "a" in added.issuers && added.issuers["a"] == s.issuers["a"] && added.spec == s.spec
  {
    hide RootInv, IssuerInv, ValidRoot, ValidVersion;
    var da, db := Definition("a"), Definition("b");
    var cfg, cmd := Config([da, db]), Call(SECOND_SUPPLY);
    var root := s.roots[1].certificate;
    WholeSecondsBounds(NOW + s.spec.rootValidity);
    WholeSecondsBounds(NOW + 2 * MAXIMUM_LEAF_VALIDITY);
    assert [da][..0] == [] && [da, db][..1] == [da];
    assert AddIssuers(s, [], Right, SECOND_SUPPLY, NOW) == Ok(s);
    assert AddIssuers(s, [da], Right, SECOND_SUPPLY, NOW) == Ok(s);
    var version := MakeIssuer(s.spec, 1, 1, db, root, 1, NOW, SECOND_SUPPLY(ForIssuer("b"))).value;
    added := s.(issuers := s.issuers["b" := IssuerRecord(db, 1, map[1 := version])]);
    assert AddIssuers(s, [da, db], Right, SECOND_SUPPLY, NOW) == Ok(added);
    var due := set slug | slug in added.issuers && IssuerDue(added, cmd.opts, slug, NOW);
    assert due == {};
    assert added != s by {
      assert "b" in added.issuers && "b" !in s.issuers;
    }
  }

  lemma Extended(s: AuthorityState) returns (t: AuthorityState)
    requires AfterProvision(s)
    ensures var a := EMPTY_STORE.(document := Some(s));
            Next(a, Change(Config([Definition("a"), Definition("b")]), Call(SECOND_SUPPLY), NOW), a.(document := Some(t)))
    ensures Inv(t) && ValidState(t) && t.revision == 2 && t.spec.mode == Ledger
    ensures "a" in t.issuers && t.issuers["a"] == s.issuers["a"]
  {
    hide IssuerInv, ValidRoot, ValidIssuer, Mutate;
    DefinitionsValid();
    var cfg, cmd := Config([Definition("a"), Definition("b")]), Call(SECOND_SUPPLY);
    var added := ExtendedMutation(s);
    RecheckNeverRejects(Some(s), cfg, cmd, [], NOW);
    t := added.(revision := 2);
    UpdateInv(Some(s), cfg, cmd, [], NOW);
  }

  const REQUEST := Request(NO_IDENTITY, NO_SANS, NO_IDENTITY, NO_SANS, TLSClient, SECOND, 5)

  /** A leaf is recorded under the new revision. */
  lemma Recorded(t: AuthorityState) returns (r: LedgerRecord)
    requires Inv(t) && ValidState(t) && t.revision == 2 && t.spec.mode == Ledger
    requires "a" in t.issuers && t.issuers["a"].definition == Definition("a") && t.issuers["a"].activeVersion == 1
    requires 1 in t.issuers["a"].versions
    requires t.issuers["a"].versions[1].certificate.notAfter == WholeSeconds(NOW + 2 * MAXIMUM_LEAF_VALIDITY)
    ensures var a := EMPTY_STORE.(document := Some(t));
            Next(a, Issue(r), a.(issued := [r]))
    ensures r.authorityRevision == 2
    ensures Load(t, "a", "a").Ok? && MakeJob(Load(t, "a", "a").value, REQUEST, NOW).Ok? && CheckAppend(t, r).Ok?
    ensures var m := Load(t, "a", "a").value;
            m.version.key.Some? && r == MakeRecord("a", m, MakeJob(m, REQUEST, NOW).value, MakeLeaf(m, MakeJob(m, REQUEST, NOW).value, 6, 6))
  {
    LoadSound(t, "a");
    WholeSecondsBounds(NOW);
    WholeSecondsBounds(NOW + 2 * MAXIMUM_LEAF_VALIDITY);
    var m := Load(t, "a", "a").value;
    var job := MakeJob(m, REQUEST, NOW).value;
    MadeJobHolds(m, REQUEST, NOW);
    CurrentRecordAccepted(t, "a", REQUEST, NOW, 6, 6);
    r := MakeRecord("a", m, job, MakeLeaf(m, job, 6, 6));
    assert SignedFor(t, r, NOW);
  }

  /** The issuer that loaded the document after the first step refuses the ledger it reads after the
      third, although that ledger is sound for the current document. */
  lemma StaleCheckRefusesSoundLedger() returns (run: seq<Store>, steps: seq<Step>)
    ensures |run| == 4 && IsRun(run, steps)
    ensures run[1].document.Some? && run[3].document.Some?
    ensures !LedgerAccepted(run[1].document.value, run[3].issued)
    ensures LedgerAccepted(run[3].document.value, run[3].issued)
  {
    hide Inv, ValidState, Next, Update, Mutate;
    var s := Provisioned();
    var t := Extended(s);
    var r := Recorded(t);
    run := [EMPTY_STORE, EMPTY_STORE.(document := Some(s)), EMPTY_STORE.(document := Some(t)), Store(Some(t), [r], NOW)];
    steps := [Change(Config([Definition("a")]), Call(FIRST), NOW),
              Change(Config([Definition("a"), Definition("b")]), Call(SECOND_SUPPLY), NOW), Issue(r)];
    assert IsRun(run, steps);
    assert run[3].issued[0].authorityRevision == 2;
    LedgerAlwaysAccepted(run, steps, 3);
    StaleLedgerCheck(run, steps, 1, 3);
  }
}
