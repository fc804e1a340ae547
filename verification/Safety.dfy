/** What holds in every reachable state of the authority, its ledger and its trust bundle. */
module Safety {
  import opened Wrappers
  import opened Certificates
  import opened Policy
  import opened Authority
  import opened AuthorityInvariant
  import opened Evolution
  import opened Lifecycle
  import opened TrustBundle

  // ----- a root stays trusted as long as a leaf under it is valid -----

  predicate HasRecord(a: Store, r: LedgerRecord) {
    a.document.Some? && r.issuer in a.document.value.issuers
    && r.issuerVersion in a.document.value.issuers[r.issuer].versions
  }

  /** Every leaf issued so far that has not expired chains, through the issuer version the record
      names, to a root that is in the trust bundle of this moment. */
  lemma TrustCoverage(run: seq<Store>, steps: seq<Step>, i: nat, k: nat, bundle: seq<Certificate>)
    requires IsRun(run, steps) && i < |run| && k < |run[i].issued|
    requires run[i].now <= run[i].issued[k].expiresAt
    requires run[i].document.Some? ==> IsBundleOf(run[i].document.value, run[i].now, bundle)
    ensures var a, r := run[i], run[i].issued[k];
            && HasRecord(a, r)
            && RootOf(a.document.value, r) in a.document.value.roots
            && var issuer := a.document.value.issuers[r.issuer].versions[r.issuerVersion].certificate;
               var root := a.document.value.roots[RootOf(a.document.value, r)].certificate;
               SignedBy(r.certificate, issuer) && SignedBy(issuer, root) && root in bundle
  {
    RunKeepsStoreInv(run, steps, i);
    var a := run[i];
    var s, r := a.document.value, a.issued[k];
    assert Kept(s, r, a.now);
    assert IssuerInv(s, r.issuer);
    assert VersionInv(s, r.issuer, r.issuerVersion);
    assert RootOf(s, r) in TrustedGenerations(s, a.now);
  }

  /** In both modes a retired root's trust window ends at least the clock skew after every leaf
      signed under it, unless that leaf has been expired for as long already. */
  lemma WindowOutlastsLeaves(run: seq<Store>, steps: seq<Step>, i: nat, k: nat)
    requires IsRun(run, steps) && i < |run| && k < |run[i].issued|
    ensures var a, r := run[i], run[i].issued[k];
            && HasRecord(a, r)
            && var s := a.document.value;
               var g := RootOf(s, r);
               && g in s.roots && g <= s.activeRoot
               && (g < s.activeRoot && a.now < r.expiresAt + CLOCK_SKEW ==> s.roots[g].retiredTrustUntil >= r.expiresAt + CLOCK_SKEW)
  {
    RunKeepsStoreInv(run, steps, i);
    var s, r := run[i].document.value, run[i].issued[k];
    assert Kept(s, r, run[i].now);
    assert IssuerInv(s, r.issuer);
    assert VersionInv(s, r.issuer, r.issuerVersion);
  }

  // ----- pruning -----

  /** A root can be pruned exactly when it is retired for good: nothing that any bundle from now on
      trusts. Pruning therefore changes no bundle of this or any later moment, and no certificate. */
  lemma PruneKeepsTrust(s: AuthorityState, generation: int, fingerprint: nat, now: Instant)
    requires ValidState(s)
    ensures Prune(s, generation, fingerprint, now).Ok? <==>
            && generation in s.roots && generation >= 1 && s.roots[generation].fingerprint == fingerprint
            && (forall u :: u >= now ==> generation !in TrustedGenerations(s, u))
    ensures Prune(s, generation, fingerprint, now).Ok? ==>
            var t := Prune(s, generation, fingerprint, now).value;
            && (forall u :: u >= now ==> TrustedGenerations(t, u) == TrustedGenerations(s, u))
            && (forall u, bundle :: u >= now ==> (IsBundleOf(t, u, bundle) <==> IsBundleOf(s, u, bundle)))
            && t.issuers == s.issuers && t.pending == s.pending && t.activeRoot == s.activeRoot
  {
    hide ValidRoot, ValidIssuer, ValidPending, IsBundleOf;
    if generation in s.roots && forall u :: u >= now ==> generation !in TrustedGenerations(s, u) {
      assert generation !in TrustedGenerations(s, now);
    }
    if Prune(s, generation, fingerprint, now).Ok? {
      var t := Prune(s, generation, fingerprint, now).value;
      forall u | u >= now
        ensures generation !in TrustedGenerations(s, u) && TrustedGenerations(t, u) == TrustedGenerations(s, u)
      {
      }
      forall u, bundle | u >= now
        ensures IsBundleOf(t, u, bundle) <==> IsBundleOf(s, u, bundle)
      {
        SameBundles(s, t, u, bundle);
      }
    }
  }

  lemma SameBundles(s: AuthorityState, t: AuthorityState, now: Instant, bundle: seq<Certificate>)
    requires TrustedGenerations(t, now) == TrustedGenerations(s, now)
    requires forall g :: g in s.roots ==> g in t.roots && t.roots[g].certificate == s.roots[g].certificate
    ensures IsBundleOf(t, now, bundle) <==> IsBundleOf(s, now, bundle)
  {
  }

  // ----- the ledger is always accepted -----

  /** validateLedgerRecords accepts the whole ledger against the current document, and no two
      records share an issuer serial or a fingerprint. */
  lemma LedgerAlwaysAccepted(run: seq<Store>, steps: seq<Step>, i: nat)
    requires IsRun(run, steps) && i < |run| && run[i].document.Some? && run[i].document.value.spec.mode == Ledger
    ensures LedgerAccepted(run[i].document.value, run[i].issued)
    ensures NoClashes(run[i].issued)
  {
    RunKeepsStoreInv(run, steps, i);
    KeptAccepted(run[i].document.value, run[i].issued, run[i].now);
  }

  lemma KeptAccepted(s: AuthorityState, issued: seq<LedgerRecord>, now: Instant)
    requires Inv(s) && AllRecords(s, issued, now)
    ensures LedgerAccepted(s, issued)
  {
    forall k | 0 <= k < |issued|
      ensures RecordAccepted(s, issued[k])
    {
      assert Kept(s, issued[k], now);
    }
  }

  // ----- how states on one run relate -----

  predicate Later(a: Store, b: Store) {
    && a.now <= b.now
    && a.issued <= b.issued
    && (a.document.Some? ==>
          && b.document.Some?
          && Evolves(a.document.value, b.document.value)
          && a.document.value.revision <= b.document.value.revision
          && (a.document.value.revision == b.document.value.revision ==> a.document == b.document))
  }

  lemma StepIsLater(a: Store, step: Step, b: Store)
    requires StoreInv(a) && Next(a, step, b)
    ensures Later(a, b)
  {
    hide Inv, ValidState, Mutate, Kept, Update;
    if step.Change? && a.document.Some? {
      UpdateEvolves(a.document.value, step.cfg, step.cmd, a.issued, step.at);
    }
  }

  lemma LaterTransitive(a: Store, b: Store, c: Store)
    requires Later(a, b) && Later(b, c)
    ensures Later(a, c)
  {
    hide Evolves;
    if a.document.Some? {
      EvolvesTransitive(a.document.value, b.document.value, c.document.value);
    }
  }

  /** Along a run the document only evolves, the ledger only grows, and the revision identifies the
      document. */
  lemma {:induction false} RunIsLater(run: seq<Store>, steps: seq<Step>, i: nat, j: nat)
    requires IsRun(run, steps) && i <= j < |run|
    ensures Later(run[i], run[j])
    decreases j
  {
    hide Later, StoreInv, Next;
    if i < j {
      RunIsLater(run, steps, i, j - 1);
      RunKeepsStoreInv(run, steps, j - 1);
      StepIsLater(run[j - 1], steps[j - 1], run[j]);
      LaterTransitive(run[i], run[j - 1], run[j]);
    } else {
      LaterReflexive(run[i]);
    }
  }

  lemma LaterReflexive(a: Store)
    ensures Later(a, a)
  {
  }

  // ----- checking a ledger against an older document -----

  predicate NoNewerRecord(s: AuthorityState, issued: seq<LedgerRecord>) {
    forall k :: 0 <= k < |issued| ==> issued[k].authorityRevision <= s.revision
  }

  /** An issuer loads the document first and reads the ledger afterwards. The check it then makes
      passes exactly when no record was appended under a newer revision in between: it can refuse a
      sound ledger, but only because another writer was faster. */
  lemma StaleLedgerCheck(run: seq<Store>, steps: seq<Step>, i: nat, j: nat)
    requires IsRun(run, steps) && i <= j < |run| && run[i].document.Some?
    ensures LedgerAccepted(run[i].document.value, run[j].issued) <==> NoNewerRecord(run[i].document.value, run[j].issued)
  {
    var s := run[i].document.value;
    OldRecordsAccepted(run, steps, i, j);
    if LedgerAccepted(s, run[j].issued) {
      forall k | 0 <= k < |run[j].issued|
        ensures run[j].issued[k].authorityRevision <= s.revision
      {
        assert RecordAccepted(s, run[j].issued[k]);
      }
    }
  }

  predicate OldAccepted(s: AuthorityState, issued: seq<LedgerRecord>) {
    forall k :: 0 <= k < |issued| && issued[k].authorityRevision <= s.revision ==> RecordAccepted(s, issued[k])
  }

  lemma {:induction false} OldRecordsAccepted(run: seq<Store>, steps: seq<Step>, i: nat, j: nat)
    requires IsRun(run, steps) && i <= j < |run| && run[i].document.Some?
    ensures OldAccepted(run[i].document.value, run[j].issued)
    decreases j
  {
    hide Inv, ValidState, Update, Mutate, RecordAccepted, Later;
    if i == j {
      RunKeepsStoreInv(run, steps, i);
      KeptAccepted(run[i].document.value, run[i].issued, run[i].now);
    } else {
      OldRecordsAccepted(run, steps, i, j - 1);
      RunIsLater(run, steps, i, j - 1);
      RunKeepsStoreInv(run, steps, j - 1);
      NextKeepsOldAccepted(run[i].document.value, run[j - 1], steps[j - 1], run[j]);
    }
  }

  lemma NextKeepsOldAccepted(s: AuthorityState, a: Store, step: Step, b: Store)
    requires StoreInv(a) && Next(a, step, b) && OldAccepted(s, a.issued)
    requires exists c: Store :: c.document == Some(s) && Later(c, a)
    ensures OldAccepted(s, b.issued)
  {
    hide Inv, ValidState, Update, Mutate;
    if step.Issue? {
      var c: Store :| c.document == Some(s) && Later(c, a);
      var r := step.record;
      NewRecordInv(a.document.value, r, a.now);
      forall k | 0 <= k < |b.issued| && b.issued[k].authorityRevision <= s.revision
        ensures RecordAccepted(s, b.issued[k])
      {
        if k < |a.issued| {
          assert b.issued[k] == a.issued[k];
        } else {
          assert a.document.value == s;
        }
      }
    }
  }

  // ----- private keys -----

  predicate KeyActive(s: AuthorityState, g: int) {
    g == s.activeRoot || (PendingIs(s, PendingRoot) && g == s.pending.value.rootGeneration)
  }

  /** In every reachable state a private key is stored exactly with the active roots and versions
      and with those of the pending manifest. */
  lemma KeysFollowActivity(run: seq<Store>, steps: seq<Step>, i: nat)
    requires IsRun(run, steps) && i < |run| && run[i].document.Some?
    ensures var s := run[i].document.value;
            && (forall g :: g in s.roots ==> (s.roots[g].key.Some? <==> KeyActive(s, g)))
            && (forall slug, v :: slug in s.issuers && v in s.issuers[slug].versions ==>
                  (s.issuers[slug].versions[v].key.Some? <==> VersionNeedsKey(s, slug, v)))
  {
    RunKeepsStoreInv(run, steps, i);
    var s := run[i].document.value;
    forall g | g in s.roots
      ensures s.roots[g].key.Some? <==> KeyActive(s, g)
    {
      assert RootInv(s, g);
    }
    forall slug, v | slug in s.issuers && v in s.issuers[slug].versions
      ensures s.issuers[slug].versions[v].key.Some? <==> VersionNeedsKey(s, slug, v)
    {
      assert IssuerInv(s, slug);
      assert VersionInv(s, slug, v);
    }
  }

  /** Every root and issuer version superseded in s is in t, with its certificate and without a key. */
  ghost predicate KeysRetired(s: AuthorityState, t: AuthorityState) {
    && (forall g :: 1 <= g < s.activeRoot ==>
          g in s.roots && g in t.roots && t.roots[g].certificate == s.roots[g].certificate && t.roots[g].key.None?)
    && (forall slug, v :: slug in s.issuers && 1 <= v < s.issuers[slug].activeVersion ==>
          && v in s.issuers[slug].versions
          && slug in t.issuers && v in t.issuers[slug].versions
          && t.issuers[slug].versions[v].certificate == s.issuers[slug].versions[v].certificate
          && t.issuers[slug].versions[v].key.None?)
  }

  /** A root or issuer version that has been superseded is kept for ever, with its certificate, and
      never holds a private key again. */
  lemma RetiredKeysStayGone(run: seq<Store>, steps: seq<Step>, i: nat, j: nat)
    requires IsRun(run, steps) && i <= j < |run| && run[i].document.Some?
    ensures run[j].document.Some?
    ensures KeysRetired(run[i].document.value, run[j].document.value)
  {
    RunKeepsStoreInv(run, steps, i);
    RunKeepsStoreInv(run, steps, j);
    RunIsLater(run, steps, i, j);
    hide KeysRetired;
    RetiredKeys(run[i].document.value, run[j].document.value);
  }

  lemma RetiredKeys(s: AuthorityState, t: AuthorityState)
    requires Inv(s) && Inv(t) && Evolves(s, t)
    ensures KeysRetired(s, t)
  {
    forall g | 1 <= g < s.activeRoot
      ensures g in s.roots && g in t.roots && t.roots[g].certificate == s.roots[g].certificate && t.roots[g].key.None?
    {
      assert RootInv(t, g);
    }
    forall slug, v | slug in s.issuers && 1 <= v < s.issuers[slug].activeVersion
      ensures && v in s.issuers[slug].versions
              && slug in t.issuers && v in t.issuers[slug].versions
              && t.issuers[slug].versions[v].certificate == s.issuers[slug].versions[v].certificate
              && t.issuers[slug].versions[v].key.None?
    {
      RetiredVersion(s, t, slug, v);
    }
  }

  lemma RetiredVersion(s: AuthorityState, t: AuthorityState, slug: Slug, v: int)
    requires Inv(s) && Inv(t) && Evolves(s, t) && slug in s.issuers && 1 <= v < s.issuers[slug].activeVersion
    ensures && v in s.issuers[slug].versions
            && slug in t.issuers && v in t.issuers[slug].versions
            && t.issuers[slug].versions[v].certificate == s.issuers[slug].versions[v].certificate
            && t.issuers[slug].versions[v].key.None?
  {
    assert IssuerInv(s, slug);
    assert IssuerEvolves(s.issuers[slug], t.issuers[slug]);
    assert IssuerInv(t, slug);
    assert VersionInv(t, slug, v);
  }

  // ----- how a generation leaves the trust bundle -----

  /** A generation that is trusted stops being trusted only when it is discarded while pending, or
      when it is retired and the end of its trust window has come. */
  lemma GenerationLeavesBundle(a: Store, step: Step, b: Store, g: int)
    requires StoreInv(a) && Next(a, step, b) && a.document.Some?
    requires g in TrustedGenerations(a.document.value, a.now)
    ensures b.document.Some?
    ensures g in TrustedGenerations(b.document.value, b.now)
         || (step.Change? && step.cmd.DiscardCommand? && a.document.value.pending.Some? && g == a.document.value.pending.value.rootGeneration)
         || (g in b.document.value.roots && g < b.document.value.activeRoot && b.document.value.roots[g].retiredTrustUntil <= b.now)
  {
    if step.Change? {
      var s := a.document.value;
      var cfg, cmd, at := step.cfg, step.cmd, step.at;
      UpdateInv(a.document, cfg, cmd, a.issued, at);
      ChangedTrust(s, cfg, cmd, a.issued, at, a.now, g);
    }
  }

  lemma ChangedTrust(s: AuthorityState, cfg: ManagerConfig, cmd: Command, issued: seq<LedgerRecord>, at: Instant,
          now: Instant, g: int)
    requires Inv(s) && ValidState(s) && ValidConfig(cfg) && FreshCommand(cmd, s) && Mutate(s, cfg, cmd, issued, at).Ok?
    requires g in TrustedGenerations(s, now) && at <= now
    ensures var t := Mutate(s, cfg, cmd, issued, at).value;
         || g in TrustedGenerations(t, now)
         || (cmd.DiscardCommand? && s.pending.Some? && g == s.pending.value.rootGeneration)
         || (g in t.roots && g < t.activeRoot && t.roots[g].retiredTrustUntil <= now)
  {
    hide RootInv, IssuerInv, ValidRoot, ValidIssuer, TrustDeadline;
    match cmd
    case EnsureCommand(opts, secret, supply) =>
      hide Ensure;
      assert s.pending.None? by {
        EnsureNeedsNoPending(s, cfg, opts, secret, supply, at);
      }
      EnsureWindows(s, cfg, opts, secret, supply, at, g);
    case PromoteCommand(secret) =>
    case DiscardCommand =>
    case PruneCommand(generation, fingerprint) =>
  }

  lemma EnsureNeedsNoPending(s: AuthorityState, cfg: ManagerConfig, opts: EnsureOptions, secret: Secret,
          supply: Supply, now: Instant)
    requires ValidState(s) && Ensure(s, cfg, opts, secret, supply, now).Ok?
    ensures s.pending.None?
  {
  }

  predicate InBundle(a: Store, g: int) {
    a.document.Some? && g in TrustedGenerations(a.document.value, a.now)
  }

  /** The generation was pending and is now discarded. */
  predicate DiscardedFrom(a: Store, b: Store, g: int) {
    && a.document.Some? && a.document.value.pending.Some? && g == a.document.value.pending.value.rootGeneration
    && b.document.Some? && g !in b.document.value.roots
  }

  /** The generation is retired and its trust window has ended. */
  predicate WindowOver(a: Store, g: int) {
    a.document.Some? && g in a.document.value.roots && g < a.document.value.activeRoot && a.document.value.roots[g].retiredTrustUntil <= a.now
  }

  lemma DiscardRemoves(a: Store, step: Step, b: Store, g: int)
    requires StoreInv(a) && Next(a, step, b) && a.document.Some? && g in a.document.value.roots
    requires step.Change? && step.cmd.DiscardCommand? && a.document.value.pending.Some? && g == a.document.value.pending.value.rootGeneration
    ensures DiscardedFrom(a, b, g)
  {
    hide ValidState, RootInv, IssuerInv, LedgerAccepted;
  }

  /** One step in which a generation is trusted before: it is trusted after, discarded, or over. */
  lemma StepKeepsBundle(a: Store, step: Step, b: Store, g: int)
    requires StoreInv(a) && Next(a, step, b) && InBundle(a, g)
    ensures InBundle(b, g) || DiscardedFrom(a, b, g) || WindowOver(b, g)
  {
    hide StoreInv, Next, Trusted;
    GenerationLeavesBundle(a, step, b, g);
    if step.Change? && step.cmd.DiscardCommand? && a.document.value.pending.Some? && g == a.document.value.pending.value.rootGeneration {
      DiscardRemoves(a, step, b, g);
    }
  }

  /** A pending root generation is in the bundle from the moment it is staged. */
  lemma StagedIsTrusted(a: Store)
    requires StoreInv(a) && a.document.Some? && PendingIs(a.document.value, PendingRoot)
    ensures InBundle(a, a.document.value.pending.value.rootGeneration)
  {
  }

  /** Over a whole run: a generation that is trusted stays in every bundle until it is discarded
      while pending or its window ends after retirement. */
  lemma {:induction false} GenerationStays(run: seq<Store>, steps: seq<Step>, i: nat, j: nat, g: int)
    requires IsRun(run, steps) && i <= j < |run| && InBundle(run[i], g)
    requires forall k :: i <= k < j ==> !DiscardedFrom(run[k], run[k + 1], g)
    requires forall k :: i < k <= j ==> !WindowOver(run[k], g)
    ensures InBundle(run[j], g)
    decreases j
  {
    hide Next, InBundle, DiscardedFrom, WindowOver, StoreInv, Initial;
    if i == j {
    } else {
      GenerationStays(run, steps, i, j - 1, g);
      RunKeepsStoreInv(run, steps, j - 1);
      StepKeepsBundle(run[j - 1], steps[j - 1], run[j], g);
      assert !DiscardedFrom(run[j - 1], run[j - 1 + 1], g);
    }
  }
}
