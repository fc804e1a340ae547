/** How one document may become the next: nothing that was ever active is lost or rewritten. */
module Evolution {
  import opened Wrappers
  import opened Certificates
  import opened Policy
  import opened Authority
  import opened AuthorityInvariant

  predicate SameVersion(x: IssuerVersion, y: IssuerVersion) {
    x == y.(key := x.key)
  }

  /** The issuer keeps its definition and every version that was active so far. */
  predicate IssuerEvolves(i: IssuerRecord, j: IssuerRecord) {
    && j.definition == i.definition
    && i.activeVersion <= j.activeVersion
    && forall v :: 1 <= v <= i.activeVersion && v in i.versions ==> v in j.versions && SameVersion(i.versions[v], j.versions[v])
  }

  predicate Evolves(s: AuthorityState, t: AuthorityState) {
    && t.spec == s.spec
    && s.activeRoot <= t.activeRoot
    && (forall g :: 1 <= g <= s.activeRoot && g in s.roots ==> g in t.roots && t.roots[g].certificate == s.roots[g].certificate)
    && (forall slug :: slug in s.issuers ==> slug in t.issuers && IssuerEvolves(s.issuers[slug], t.issuers[slug]))
  }

  lemma EvolvesTransitive(s: AuthorityState, t: AuthorityState, u: AuthorityState)
    requires Evolves(s, t) && Evolves(t, u)
    ensures Evolves(s, u)
  {
    forall slug | slug in s.issuers
      ensures slug in u.issuers && IssuerEvolves(s.issuers[slug], u.issuers[slug])
    {
      assert IssuerEvolves(s.issuers[slug], t.issuers[slug]) && IssuerEvolves(t.issuers[slug], u.issuers[slug]);
    }
  }

  lemma StagedEvolves(s: AuthorityState, t: AuthorityState)
    requires Inv(s)
    requires t.spec == s.spec && t.activeRoot == s.activeRoot
    requires forall g :: g in s.roots ==> g in t.roots && t.roots[g] == s.roots[g]
    requires t.issuers.Keys == s.issuers.Keys
    requires forall slug :: slug in s.issuers ==> t.issuers[slug] == s.issuers[slug] || (exists v :: t.issuers[slug] == Staged(s.issuers[slug], v))
    ensures Evolves(s, t)
  {
    forall slug | slug in s.issuers
      ensures IssuerEvolves(s.issuers[slug], t.issuers[slug])
    {
      assert IssuerInv(s, slug);
    }
  }

  lemma {:induction false} AddIssuersEvolves(s: AuthorityState, defs: seq<IssuerDefinition>, secret: Secret,
          supply: Supply, now: Instant)
    requires s.activeRoot in s.roots && AddIssuers(s, defs, secret, supply, now).Ok?
    ensures Evolves(s, AddIssuers(s, defs, secret, supply, now).value)
  {
    if defs == [] {
    } else {
      AddIssuersEvolves(s, defs[..|defs| - 1], secret, supply, now);
    }
  }

  lemma PrepareRootEvolves(s: AuthorityState, supply: Supply, now: Instant)
    requires Inv(s) && s.pending.None? && PrepareRoot(s, supply, now).Ok?
    ensures Evolves(s, PrepareRoot(s, supply, now).value)
  {
    NextGenerationIsNext(s);
    StagedEvolves(s, PrepareRoot(s, supply, now).value);
  }

  lemma PrepareIssuersEvolves(s: AuthorityState, due: set<Slug>, secret: Secret, supply: Supply, now: Instant)
    requires Inv(s) && s.pending.None? && due <= s.issuers.Keys && PrepareIssuers(s, due, secret, supply, now).Ok?
    ensures Evolves(s, PrepareIssuers(s, due, secret, supply, now).value)
  {
    StagedEvolves(s, PrepareIssuers(s, due, secret, supply, now).value);
  }

  lemma RotateEvolves(before: AuthorityState, s: AuthorityState, opts: EnsureOptions, secret: Secret,
          supply: Supply, now: Instant)
    requires Inv(s) && ValidState(s) && s.pending.None?
    requires Rotate(before, s, opts, secret, supply, now).Ok?
    ensures Evolves(s, Rotate(before, s, opts, secret, supply, now).value)
  {
    hide Inv, PrepareRoot, PrepareIssuers, ValidRoot, ValidVersion, ValidPending;
    if RotationDue(opts.rootRotateBefore, s.roots[s.activeRoot].certificate.notAfter, now) {
      PrepareRootEvolves(s, supply, now);
    } else {
      var due := set slug | slug in s.issuers && IssuerDue(s, opts, slug, now);
      if due != {} {
        PrepareIssuersEvolves(s, due, secret, supply, now);
      }
    }
  }

  lemma EnsureEvolves(s: AuthorityState, cfg: ManagerConfig, opts: EnsureOptions, secret: Secret, supply: Supply,
          now: Instant)
    requires Inv(s) && ValidState(s) && ValidConfig(cfg) && FreshFor(supply, s)
    requires Ensure(s, cfg, opts, secret, supply, now).Ok?
    ensures Evolves(s, Ensure(s, cfg, opts, secret, supply, now).value)
  {
    hide Inv, AddIssuers, Rotate, ValidRoot, ValidIssuer, ValidPending, Evolves;
    var added := AddIssuers(s, cfg.issuers, secret, supply, now).value;
    AddIssuersEvolves(s, cfg.issuers, secret, supply, now);
    AddIssuersInv(s, cfg.issuers, secret, supply, now);
    InvImpliesValidState(added);
    RotateEvolves(s, added, opts, secret, supply, now);
    EvolvesTransitive(s, added, Ensure(s, cfg, opts, secret, supply, now).value);
  }

  lemma PromotedEvolves(s: AuthorityState, deadline: Instant)
    requires Inv(s) && s.pending.Some?
    ensures Evolves(s, Promoted(s, s.pending.value, deadline))
  {
    var t := Promoted(s, s.pending.value, deadline);
    forall slug | slug in s.issuers
      ensures IssuerEvolves(s.issuers[slug], t.issuers[slug])
    {
      assert IssuerInv(s, slug);
    }
  }

  lemma DiscardedIssuerEvolves(s: AuthorityState, slug: Slug)
    requires PendingInv(s) && s.pending.Some? && slug in s.issuers && IssuerInv(s, slug)
    ensures var t := Discarded(s, s.pending.value);
            slug in t.issuers && IssuerEvolves(s.issuers[slug], t.issuers[slug])
  {
    hide VersionInv, RootInv;
  }

  lemma DiscardedEvolves(s: AuthorityState)
    requires Inv(s) && s.pending.Some?
    ensures Evolves(s, Discarded(s, s.pending.value))
  {
    var t := Discarded(s, s.pending.value);
    hide RootInv, IssuerInv, IssuerEvolves;
    forall slug | slug in s.issuers
      ensures slug in t.issuers && IssuerEvolves(s.issuers[slug], t.issuers[slug])
    {
      DiscardedIssuerEvolves(s, slug);
    }
  }

  /** Every mutation of an existing document. */
  lemma MutateEvolves(s: AuthorityState, cfg: ManagerConfig, cmd: Command, ledger: seq<LedgerRecord>, now: Instant)
    requires Inv(s) && ValidState(s) && ValidConfig(cfg) && FreshCommand(cmd, s)
    requires Mutate(s, cfg, cmd, ledger, now).Ok?
    ensures Evolves(s, Mutate(s, cfg, cmd, ledger, now).value)
  {
    hide Inv, ValidState;
    match cmd
    case EnsureCommand(opts, secret, supply) =>
      hide Ensure, Evolves;
      EnsureEvolves(s, cfg, opts, secret, supply, now);
    case PromoteCommand(secret) =>
      hide Promoted, Evolves;
      PromotedEvolves(s, TrustDeadline(s, ledger, s.activeRoot, now));
    case DiscardCommand =>
      hide Discarded, Evolves;
      DiscardedEvolves(s);
    case PruneCommand(generation, fingerprint) =>
  }

  lemma UpdateEvolves(s: AuthorityState, cfg: ManagerConfig, cmd: Command, ledger: seq<LedgerRecord>, now: Instant)
    requires Inv(s) && ValidState(s) && ValidConfig(cfg) && FreshCommand(cmd, s)
    requires Update(Some(s), cfg, cmd, ledger, now).Ok?
    ensures var t := Update(Some(s), cfg, cmd, ledger, now).value;
            Evolves(s, t) && t.revision == s.revision + 1
  {
    hide Mutate, Inv, ValidState;
    UpdateInv(Some(s), cfg, cmd, ledger, now);
    MutateEvolves(s, cfg, cmd, ledger, now);
  }
}
