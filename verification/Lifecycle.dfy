/** The authority and its issuance ledger as a system of atomic steps, and what holds on every run. */
module Lifecycle {
  import opened Wrappers
  import opened Certificates
  import opened Policy
  import opened Authority
  import opened AuthorityInvariant
  import opened Evolution

  /** The document, everything issued so far, and the clock. In Ledger mode issued is the ledger
      file; in None mode no code reads it and it only records history. */
  datatype Store = Store(document: Option<AuthorityState>, issued: seq<LedgerRecord>, now: Instant)

  datatype Step =
    | Tick(later: Instant)
    | Change(cfg: ManagerConfig, cmd: Command, at: Instant)
    | Issue(record: LedgerRecord)

  // ----- issuing -----

  /** What SignCSR made sure of when it built the record from the current issuer material. */
  predicate SignedFor(s: AuthorityState, r: LedgerRecord, now: Instant) {
    && r.issuer in s.issuers
    && var i := s.issuers[r.issuer];
    && r.issuerVersion in i.versions
    && var c := i.versions[r.issuerVersion].certificate;
    && SignedBy(r.certificate, c)
    && Permits(i.definition, r.subject, r.sans, r.profile)
    && r.expiresAt + CLOCK_SKEW <= c.notAfter
    && r.issuedAt <= now
    && r.expiresAt <= r.issuedAt + MAXIMUM_LEAF_VALIDITY
  }

  predicate CanIssue(a: Store, r: LedgerRecord) {
    && a.document.Some?
    && CheckAppend(a.document.value, r).Ok?
    && SignedFor(a.document.value, r, a.now)
    && (a.document.value.spec.mode == Ledger ==> forall i :: 0 <= i < |a.issued| ==> !Clashes(a.issued[i], r))
  }

  // ----- steps and runs -----

  /** An update reads the clock once, at some moment before it writes. In None mode nothing stops
      a signer between the two, so there the moments coincide. */
  ghost predicate CanChange(a: Store, cfg: ManagerConfig, cmd: Command, at: Instant) {
    && (a.document.Some? ==> ValidState(a.document.value))
    && ValidConfig(cfg)
    && FreshCommand(cmd, Base(a.document))
    && at <= a.now
    && (a.document.Some? && a.document.value.spec.mode == NoLedger ==> at == a.now)
    && Update(a.document, cfg, cmd, a.issued, at).Ok?
  }

  ghost predicate Next(a: Store, step: Step, b: Store) {
    match step
    case Tick(later) => later >= a.now && b == a.(now := later)
    case Change(cfg, cmd, at) =>
      CanChange(a, cfg, cmd, at) && b == a.(document := Some(Update(a.document, cfg, cmd, a.issued, at).value))
    case Issue(r) => CanIssue(a, r) && b == a.(issued := a.issued + [r])
  }

  predicate Initial(a: Store) {
    a.document.None? && a.issued == []
  }

  ghost predicate IsRun(run: seq<Store>, steps: seq<Step>) {
    && |run| == |steps| + 1
    && Initial(run[0])
    && forall i :: 0 <= i < |steps| ==> Next(run[i], steps[i], run[i + 1])
  }

  // ----- the invariant of the store -----

  predicate RecordInv(s: AuthorityState, r: LedgerRecord, now: Instant) {
    && SignedFor(s, r, now)
    && ValidRecord(r)
    && r.authorityRevision <= s.revision
    && 1 <= r.issuerVersion <= s.issuers[r.issuer].activeVersion
  }

  function RootOf(s: AuthorityState, r: LedgerRecord): int
    requires r.issuer in s.issuers && r.issuerVersion in s.issuers[r.issuer].versions
  {
    s.issuers[r.issuer].versions[r.issuerVersion].rootGeneration
  }

  /** The root of a record is active, or retired with a window past the record's expiry, or the
      record has been expired for at least the clock skew. */
  predicate Covered(s: AuthorityState, r: LedgerRecord, now: Instant)
    requires r.issuer in s.issuers && r.issuerVersion in s.issuers[r.issuer].versions
  {
    var g := RootOf(s, r);
    && g in s.roots
    && (g == s.activeRoot || s.roots[g].retiredTrustUntil >= r.expiresAt + CLOCK_SKEW || r.expiresAt + CLOCK_SKEW <= now)
  }

  predicate Kept(s: AuthorityState, r: LedgerRecord, now: Instant) {
    RecordInv(s, r, now) && Covered(s, r, now)
  }

  predicate AllRecords(s: AuthorityState, issued: seq<LedgerRecord>, now: Instant) {
    forall i :: 0 <= i < |issued| ==> Kept(s, issued[i], now)
  }

  predicate NoClashes(issued: seq<LedgerRecord>) {
    forall i, j :: 0 <= i < j < |issued| ==> !Clashes(issued[i], issued[j])
  }

  ghost predicate StoreInv(a: Store) {
    && DocumentInv(a.document)
    && (a.document.None? ==> a.issued == [])
    && (a.document.Some? ==> AllRecords(a.document.value, a.issued, a.now))
    && (a.document.Some? && a.document.value.spec.mode == Ledger ==> NoClashes(a.issued))
  }

  // ----- the deadline is a true maximum -----

  lemma {:induction false} DeadlineIsMaximum(s: AuthorityState, ledger: seq<LedgerRecord>, generation: int)
    ensures var d := LedgerDeadline(s, ledger, generation);
            && (forall i :: 0 <= i < |ledger| && UnderRoot(s, ledger[i], generation) ==> ledger[i].expiresAt + CLOCK_SKEW <= d)
            && (d == 0 || exists i :: 0 <= i < |ledger| && UnderRoot(s, ledger[i], generation) && d == ledger[i].expiresAt + CLOCK_SKEW)
  {
    if ledger == [] {
    } else {
      var init := ledger[..|ledger| - 1];
      DeadlineIsMaximum(s, init, generation);
      var before := LedgerDeadline(s, init, generation);
      if before != 0 {
        var i :| 0 <= i < |init| && UnderRoot(s, init[i], generation) && before == init[i].expiresAt + CLOCK_SKEW;
        assert ledger[i] == init[i];
      }
      forall i | 0 <= i < |ledger| && UnderRoot(s, ledger[i], generation)
        ensures ledger[i].expiresAt + CLOCK_SKEW <= LedgerDeadline(s, ledger, generation)
      {
        if i < |init| {
          assert init[i] == ledger[i];
        }
      }
    }
  }

  // ----- what a change does to the trust windows -----

  /** How the trust window of a generation may move in one update. */
  predicate WindowStep(s: AuthorityState, t: AuthorityState, g: int, deadline: Instant, now: Instant)
    requires g in s.roots && g in t.roots
  {
    || (g == s.activeRoot == t.activeRoot)
    || (g == s.activeRoot != t.activeRoot && t.roots[g].retiredTrustUntil == deadline)
    || (g != s.activeRoot && t.roots[g].retiredTrustUntil == s.roots[g].retiredTrustUntil)
    || (g != s.activeRoot && s.roots[g].retiredTrustUntil <= now)
  }

  lemma EnsureWindows(s: AuthorityState, cfg: ManagerConfig, opts: EnsureOptions, secret: Secret, supply: Supply,
          now: Instant, g: int)
    requires Inv(s) && ValidState(s) && ValidConfig(cfg) && FreshFor(supply, s)
    requires Ensure(s, cfg, opts, secret, supply, now).Ok? && 1 <= g <= s.activeRoot
    ensures var t := Ensure(s, cfg, opts, secret, supply, now).value;
            g in s.roots && g in t.roots && t.roots[g] == s.roots[g] && t.activeRoot == s.activeRoot
  {
    hide RootInv, IssuerInv, ValidRoot, ValidIssuer, ValidPending, AddIssuers, IssuerDue;
    var added := AddIssuers(s, cfg.issuers, secret, supply, now).value;
    AddIssuersInv(s, cfg.issuers, secret, supply, now);
    InvImpliesValidState(added);
    NextGenerationIsNext(added);
  }

  lemma ChangeWindows(s: AuthorityState, cfg: ManagerConfig, cmd: Command, ledger: seq<LedgerRecord>, now: Instant, g: int)
    requires Inv(s) && ValidState(s) && ValidConfig(cfg) && FreshCommand(cmd, s)
    requires Mutate(s, cfg, cmd, ledger, now).Ok? && 1 <= g <= s.activeRoot
    ensures var t := Mutate(s, cfg, cmd, ledger, now).value;
            g in s.roots && g in t.roots && WindowStep(s, t, g, TrustDeadline(s, ledger, s.activeRoot, now), now)
  {
    hide RootInv, IssuerInv, ValidRoot, ValidIssuer, TrustDeadline;
    match cmd
    case EnsureCommand(opts, secret, supply) =>
      hide Ensure;
      EnsureWindows(s, cfg, opts, secret, supply, now, g);
    case PromoteCommand(secret) =>
    case DiscardCommand =>
    case PruneCommand(generation, fingerprint) =>
  }

  // ----- preservation -----

  lemma RecordEvolves(s: AuthorityState, t: AuthorityState, r: LedgerRecord, now: Instant)
    requires Inv(s) && Evolves(s, t) && s.revision <= t.revision && RecordInv(s, r, now)
    ensures RecordInv(t, r, now) && RootOf(t, r) == RootOf(s, r) && 1 <= RootOf(s, r) <= s.activeRoot
  {
    assert IssuerEvolves(s.issuers[r.issuer], t.issuers[r.issuer]);
    assert IssuerInv(s, r.issuer);
    assert VersionInv(s, r.issuer, r.issuerVersion);
  }

  /** The deadline outlasts every leaf issued so far under the root that is being retired. */
  lemma DeadlineOutlasts(s: AuthorityState, issued: seq<LedgerRecord>, at: Instant, now: Instant, i: int)
    requires AllRecords(s, issued, now) && 0 <= i < |issued| && (s.spec.mode == NoLedger ==> at == now)
    ensures TrustDeadline(s, issued, RootOf(s, issued[i]), at) >= issued[i].expiresAt + CLOCK_SKEW
  {
    assert Kept(s, issued[i], now);
    DeadlineIsMaximum(s, issued, RootOf(s, issued[i]));
  }

  lemma RecordSurvivesChange(s: AuthorityState, cfg: ManagerConfig, cmd: Command, issued: seq<LedgerRecord>,
          at: Instant, now: Instant, i: int)
    requires Inv(s) && ValidState(s) && ValidConfig(cfg) && FreshCommand(cmd, s) && AllRecords(s, issued, now)
    requires at <= now && (s.spec.mode == NoLedger ==> at == now)
    requires Update(Some(s), cfg, cmd, issued, at).Ok? && 0 <= i < |issued|
    ensures var t := Update(Some(s), cfg, cmd, issued, at).value;
            Kept(t, issued[i], now)
  {
    hide Mutate, Inv, ValidState;
    var t := Update(Some(s), cfg, cmd, issued, at).value;
    var r := issued[i];
    UpdateInv(Some(s), cfg, cmd, issued, at);
    UpdateEvolves(s, cfg, cmd, issued, at);
    assert Kept(s, r, now);
    RecordEvolves(s, t, r, now);
    ChangeWindows(s, cfg, cmd, issued, at, RootOf(s, r));
    DeadlineOutlasts(s, issued, at, now, i);
  }

  lemma ChangeKeepsStoreInv(a: Store, cfg: ManagerConfig, cmd: Command, at: Instant, b: Store)
    requires StoreInv(a) && Next(a, Change(cfg, cmd, at), b)
    ensures StoreInv(b)
  {
    hide Inv, ValidState, Mutate, Kept;
    UpdateInv(a.document, cfg, cmd, a.issued, at);
    if a.document.Some? {
      var s := a.document.value;
      UpdateEvolves(s, cfg, cmd, a.issued, at);
      forall i | 0 <= i < |a.issued|
        ensures Kept(b.document.value, a.issued[i], a.now)
      {
        RecordSurvivesChange(s, cfg, cmd, a.issued, at, a.now, i);
      }
    }
  }

  lemma NewRecordInv(s: AuthorityState, r: LedgerRecord, now: Instant)
    requires Inv(s) && CheckAppend(s, r).Ok? && SignedFor(s, r, now)
    ensures Kept(s, r, now) && RootOf(s, r) == s.activeRoot
  {
    assert IssuerInv(s, r.issuer);
    assert VersionInv(s, r.issuer, r.issuerVersion);
  }

  lemma AppendKeepsRecords(s: AuthorityState, issued: seq<LedgerRecord>, r: LedgerRecord, now: Instant)
    requires AllRecords(s, issued, now) && Kept(s, r, now)
    ensures AllRecords(s, issued + [r], now)
  {
  }

  lemma AppendKeepsNoClashes(issued: seq<LedgerRecord>, r: LedgerRecord)
    requires NoClashes(issued) && forall i :: 0 <= i < |issued| ==> !Clashes(issued[i], r)
    ensures NoClashes(issued + [r])
  {
  }

  lemma IssueKeepsStoreInv(a: Store, r: LedgerRecord, b: Store)
    requires StoreInv(a) && Next(a, Issue(r), b)
    ensures StoreInv(b)
  {
    hide Inv, ValidState, Kept;
    var s := a.document.value;
    NewRecordInv(s, r, a.now);
    AppendKeepsRecords(s, a.issued, r, a.now);
    if s.spec.mode == Ledger {
      AppendKeepsNoClashes(a.issued, r);
    }
  }

  lemma StepKeepsStoreInv(a: Store, step: Step, b: Store)
    requires StoreInv(a) && Next(a, step, b)
    ensures StoreInv(b)
  {
    hide Inv, ValidState, Mutate;
    match step
    case Tick(later) =>
    case Change(cfg, cmd, at) => ChangeKeepsStoreInv(a, cfg, cmd, at, b);
    case Issue(r) => IssueKeepsStoreInv(a, r, b);
  }

  lemma {:induction false} RunKeepsStoreInv(run: seq<Store>, steps: seq<Step>, i: nat)
    requires IsRun(run, steps) && i < |run|
    ensures StoreInv(run[i])
  {
    if i == 0 {
    } else {
      RunKeepsStoreInv(run, steps, i - 1);
      StepKeepsStoreInv(run[i - 1], steps[i - 1], run[i]);
    }
  }
}
