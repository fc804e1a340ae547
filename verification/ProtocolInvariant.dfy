/** The invariant of the locked protocol and its preservation by every step. */
module ProtocolInvariant {
  import opened Wrappers
  import opened Certificates
  import opened Policy
  import opened Authority
  import opened AuthorityInvariant
  import opened Evolution
  import opened Lifecycle
  import opened LedgerPaging
  import opened Signing
  import opened Protocol
  import opened Safety

  // ----- mutual exclusion -----

  /** The lock state says exactly which processes are inside which critical section. */
  ghost predicate LockInv(w: World) {
    && (forall p :: w.ca.writer == Some(p) <==> p in w.processes && WritesCa(w.processes[p]))
    && (forall p :: p in w.ca.readers <==> p in w.processes && ReadsCa(w.processes[p]))
    && (w.ca.writer.Some? ==> w.ca.readers == {})
    && (forall p :: w.ledger.writer == Some(p) <==> p in w.processes && WritesLedger(w.processes[p]))
    && (forall p :: p in w.ledger.readers <==> p in w.processes && ReadsLedger(w.processes[p]))
    && (w.ledger.writer.Some? ==> w.ledger.readers == {})
  }

  /** The locks after process p turned from one state into another: nothing else moved, and each
      lock was free in the way its new holder needs. */
  ghost predicate LockStep(w: World, p: Pid, v: World) {
    && p in v.processes && v.processes == w.processes[p := v.processes[p]]
    && var writesCa := p in w.processes && WritesCa(w.processes[p]);
    && var readsCa := p in w.processes && ReadsCa(w.processes[p]);
    && var writesLedger := p in w.processes && WritesLedger(w.processes[p]);
    && var readsLedger := p in w.processes && ReadsLedger(w.processes[p]);
    && var q := v.processes[p];
    && FlockStep(w.ca, p, writesCa, readsCa, WritesCa(q), ReadsCa(q), v.ca)
    && FlockStep(w.ledger, p, writesLedger, readsLedger, WritesLedger(q), ReadsLedger(q), v.ledger)
  }

  predicate FlockStep(l: Flock, p: Pid, wrote: bool, read: bool, writes: bool, reads_: bool, m: Flock) {
    && m.writer == (if writes then Some(p) else if wrote then None else l.writer)
    && m.readers == (if reads_ then l.readers + {p} else if read then l.readers - {p} else l.readers)
    && (writes && !wrote ==> l.FreeForWriter())
    && (reads_ && !read ==> l.FreeForReader())
    && !(writes && reads_)
  }

  lemma LockStepKeepsLockInv(w: World, p: Pid, v: World)
    requires LockInv(w) && LockStep(w, p, v)
    ensures LockInv(v)
  {
    hide WritesCa, ReadsCa, WritesLedger, ReadsLedger;
    FlockStepKeeps(w.ca, p, p in w.processes && WritesCa(w.processes[p]), p in w.processes && ReadsCa(w.processes[p]),
                   WritesCa(v.processes[p]), ReadsCa(v.processes[p]), v.ca);
    FlockStepKeeps(w.ledger, p, p in w.processes && WritesLedger(w.processes[p]), p in w.processes && ReadsLedger(w.processes[p]),
                   WritesLedger(v.processes[p]), ReadsLedger(v.processes[p]), v.ledger);
  }

  lemma FlockStepKeeps(l: Flock, p: Pid, wrote: bool, read: bool, writes: bool, reads_: bool, m: Flock)
    requires FlockStep(l, p, wrote, read, writes, reads_, m)
    requires wrote <==> l.writer == Some(p)
    requires read <==> p in l.readers
    requires l.writer.Some? ==> l.readers == {}
    ensures m.writer == Some(p) <==> writes
    ensures p in m.readers <==> reads_
    ensures forall q :: q != p ==> (m.writer == Some(q) <==> l.writer == Some(q)) && (q in m.readers <==> q in l.readers)
    ensures m.writer.Some? ==> m.readers == {}
  {
  }

  // ----- what each process knows -----

  /** Only the call that may provision the authority has to ask for a ledger. */
  ghost predicate CallInv(a: Store, cfg: ManagerConfig) {
    ValidConfig(cfg) && (a.document.Some? || cfg.mode == Some(Ledger))
  }

  /** Loaded material is never ahead of the document, agrees with its policy, and is current
      whenever its revision is. */
  ghost predicate LoadedInv(a: Store, slug: Slug, name: string, m: Loaded) {
    && a.document.Some?
    && var s := a.document.value;
    && ValidState(s)
    && slug in s.issuers
    && s.issuers[slug].definition.name == name
    && m.definition == s.issuers[slug].definition
    && m.revision <= s.revision
    && Sound(m)
    && (m.revision == s.revision ==> Load(s, slug, name) == Ok(m))
  }

  /** The document an issuer checks the ledger against: the current one or an earlier one, and it
      accepts every record that is not newer than itself. */
  ghost predicate CheckedAgainst(a: Store, s: AuthorityState) {
    && a.document.Some?
    && Evolves(s, a.document.value)
    && s.revision <= a.document.value.revision
    && (s.revision == a.document.value.revision ==> a.document == Some(s))
    && OldAccepted(s, a.issued)
  }

  predicate Built(slug: Slug, m: Loaded, job: Job, r: LedgerRecord) {
    m.version.key.Some? && r == MakeRecord(slug, m, job, MakeLeaf(m, job, r.serial, r.fingerprint))
  }

  ghost predicate JobInv(a: Store, slug: Slug, name: string, m: Loaded, job: Job) {
    LoadedInv(a, slug, name, m) && JobHolds(m, job, a.now)
  }

  predicate NoClash(issued: seq<LedgerRecord>, r: LedgerRecord) {
    forall i :: 0 <= i < |issued| ==> !Clashes(issued[i], r)
  }

  predicate Accepted(document: Option<AuthorityState>, issued: seq<LedgerRecord>) {
    document.Some? && document.value.spec.mode == Ledger ==> LedgerReadable(issued) && LedgerAccepted(document.value, issued)
  }

  ghost predicate ScanInv(a: Store, cfg: ManagerConfig, cmd: Command, s: AuthorityState, at: Instant, cursor: nat,
          deadline: Instant) {
    && CallInv(a, cfg)
    && a.document == Some(s)
    && ValidState(s)
    && NeedsScan(Some(s), cfg, cmd)
    && Accepted(Some(s), a.issued)
    && at <= a.now
    && cursor <= |a.issued|
    && deadline == LedgerDeadline(s, a.issued[..cursor], s.activeRoot)
  }

  ghost predicate WriteInv(a: Store, cfg: ManagerConfig, cmd: Command, at: Instant, next: AuthorityState) {
    && CallInv(a, cfg)
    && DocumentInv(a.document)
    && FreshCommand(cmd, Base(a.document))
    && at <= a.now
    && Update(a.document, cfg, cmd, a.issued, at) == Ok(next)
  }

  ghost predicate ProcessInv(a: Store, q: Process) {
    match q
    case UpdateWaiting(cfg, cmd) => CallInv(a, cfg)
    case UpdateLocked(cfg, cmd) => CallInv(a, cfg)
    case UpdateLoaded(cfg, cmd, document) => CallInv(a, cfg) && document == a.document
    case UpdateReady(cfg, cmd, document) => CallInv(a, cfg) && document == a.document && Accepted(document, a.issued)
    case Scanning(cfg, cmd, state, at, cursor, deadline) => ScanInv(a, cfg, cmd, state, at, cursor, deadline)
    case ScanningLocked(cfg, cmd, state, at, cursor, deadline) => ScanInv(a, cfg, cmd, state, at, cursor, deadline)
    case UpdateWriting(cfg, cmd, at, next) => WriteInv(a, cfg, cmd, at, next)
    case UpdateDone => true
    case Finished => true
    case Opening(slug, name) => true
    case Manager(slug, name, loaded) => LoadedInv(a, slug, name, loaded)
    case SignChecking(slug, name, loaded, request) => LoadedInv(a, slug, name, loaded)
    case SignReloading(slug, name, loaded, request, state) => LoadedInv(a, slug, name, loaded) && CheckedAgainst(a, state)
    case LedgerChecking(slug, name, loaded, request, state, all) =>
      LoadedInv(a, slug, name, loaded) && CheckedAgainst(a, state) && all <= a.issued
    case LedgerCheckingLocked(slug, name, loaded, request, state, all) =>
      LoadedInv(a, slug, name, loaded) && CheckedAgainst(a, state) && all <= a.issued
    case Attempting(slug, name, loaded, job, attempt) => JobInv(a, slug, name, loaded, job)
    case AppendWaiting(slug, name, loaded, job, attempt, record) => JobInv(a, slug, name, loaded, job) && Built(slug, loaded, job, record)
    case AppendShared(slug, name, loaded, job, attempt, record) => JobInv(a, slug, name, loaded, job) && Built(slug, loaded, job, record)
    case AppendChecked(slug, name, loaded, job, attempt, record, state) =>
      JobInv(a, slug, name, loaded, job) && Built(slug, loaded, job, record) && a.document == Some(state) && CheckAppend(state, record).Ok?
    case AppendLocked(slug, name, loaded, job, attempt, record, state) =>
      JobInv(a, slug, name, loaded, job) && Built(slug, loaded, job, record) && a.document == Some(state) && CheckAppend(state, record).Ok?
    case AppendWriting(slug, name, loaded, job, attempt, record, state) =>
      && JobInv(a, slug, name, loaded, job) && Built(slug, loaded, job, record) && a.document == Some(state) && CheckAppend(state, record).Ok?
      && NoClash(a.issued, record)
    case AppendWritten(slug, name, loaded, job, attempt) => JobInv(a, slug, name, loaded, job)
    case AppendReleasing(slug, name, loaded, job, attempt, outcome) => JobInv(a, slug, name, loaded, job)
    case Retrying(slug, name, loaded, job, attempt) => JobInv(a, slug, name, loaded, job)
    case RetryReloading(slug, name, loaded, job, attempt) => JobInv(a, slug, name, loaded, job)
  }

  ghost predicate LedgerMode(a: Store) {
    a.document.Some? ==> a.document.value.spec.mode == Ledger
  }

  ghost predicate WorldInv(w: World) {
    && StoreInv(w.store)
    && LedgerMode(w.store)
    && LockInv(w)
    && forall p :: p in w.processes ==> ProcessInv(w.store, w.processes[p])
  }

  // ----- a step of the clock, the document or the ledger, seen by the other processes -----

  lemma ClockKeeps(a: Store, later: Instant, q: Process)
    requires ProcessInv(a, q) && later >= a.now
    ensures ProcessInv(a.(now := later), q)
  {
    hide Sound, Load, Update, Permits, CheckAppend, NeedsScan, ValidState, LedgerAccepted, FreshCommand, ValidConfig;
  }

  lemma DocumentKeepsLoaded(a: Store, b: Store, slug: Slug, name: string, m: Loaded)
    requires LoadedInv(a, slug, name, m) && b.document.Some? && ValidState(b.document.value)
    requires Evolves(a.document.value, b.document.value) && a.document.value.revision < b.document.value.revision
    ensures LoadedInv(b, slug, name, m)
  {
    hide ValidState, Sound, Load;
    assert IssuerEvolves(a.document.value.issuers[slug], b.document.value.issuers[slug]);
  }

  lemma DocumentKeepsChecked(a: Store, b: Store, s: AuthorityState)
    requires CheckedAgainst(a, s) && b.issued == a.issued && b.document.Some?
    requires Evolves(a.document.value, b.document.value) && a.document.value.revision < b.document.value.revision
    ensures CheckedAgainst(b, s)
  {
    hide Evolves, OldAccepted;
    EvolvesTransitive(s, a.document.value, b.document.value);
  }

  /** A new document disturbs nobody: whoever depends on the current one holds ca.lock. */
  lemma DocumentKeeps(a: Store, b: Store, q: Process)
    requires ProcessInv(a, q) && !WritesCa(q) && !ReadsCa(q)
    requires b.issued == a.issued && b.now == a.now && b.document.Some? && ValidState(b.document.value)
    requires a.document.Some? ==> Evolves(a.document.value, b.document.value) && a.document.value.revision < b.document.value.revision
    ensures ProcessInv(b, q)
  {
    hide ValidState, Sound, Load, Evolves, JobHolds, Built, OldAccepted;
    if q.Manager? || q.SignChecking? || q.SignReloading? || q.LedgerChecking? || q.LedgerCheckingLocked?
       || q.Attempting? || q.AppendWaiting? || q.Retrying? || q.RetryReloading? {
      DocumentKeepsLoaded(a, b, q.slug, q.name, q.loaded);
    }
    if q.SignReloading? || q.LedgerChecking? || q.LedgerCheckingLocked? {
      DocumentKeepsChecked(a, b, q.state);
    }
  }

  lemma LedgerKeepsChecked(a: Store, r: LedgerRecord, s: AuthorityState)
    requires StoreInv(a) && CheckedAgainst(a, s) && Next(a, Issue(r), a.(issued := a.issued + [r]))
    ensures CheckedAgainst(a.(issued := a.issued + [r]), s)
  {
    hide Inv, ValidState, Evolves, RecordAccepted, Kept, SignedFor;
    var b := a.(issued := a.issued + [r]);
    NewRecordAccepted(a.document.value, r, a.now);
    forall k | 0 <= k < |b.issued| && b.issued[k].authorityRevision <= s.revision
      ensures RecordAccepted(s, b.issued[k])
    {
      if k < |a.issued| {
        assert b.issued[k] == a.issued[k];
      }
    }
  }

  lemma NewRecordAccepted(s: AuthorityState, r: LedgerRecord, now: Instant)
    requires Inv(s) && CheckAppend(s, r).Ok? && SignedFor(s, r, now)
    ensures r.authorityRevision == s.revision && RecordAccepted(s, r)
  {
  }

  lemma LedgerKeepsLoaded(a: Store, r: LedgerRecord, slug: Slug, name: string, m: Loaded)
    requires LoadedInv(a, slug, name, m)
    ensures LoadedInv(a.(issued := a.issued + [r]), slug, name, m)
  {
    hide ValidState, Sound, Load;
  }

  /** A new ledger record disturbs nobody: whoever reads the ledger to decide holds a lock. */
  lemma LedgerKeeps(a: Store, r: LedgerRecord, q: Process)
    requires ProcessInv(a, q) && !WritesCa(q) && !WritesLedger(q)
    requires StoreInv(a) && Next(a, Issue(r), a.(issued := a.issued + [r]))
    ensures ProcessInv(a.(issued := a.issued + [r]), q)
  {
    hide StoreInv, Next, LoadedInv, JobHolds, Built, CheckAppend, CheckedAgainst, ScanInv, WriteInv, CallInv, Accepted, NoClash;
    if q.SignReloading? || q.LedgerChecking? || q.LedgerCheckingLocked? {
      LedgerKeepsChecked(a, r, q.state);
    }
    if !q.UpdateWaiting? && !q.Finished? && !q.Opening? {
      LedgerKeepsLoaded(a, r, q.slug, q.name, q.loaded);
    }
    CallIgnoresLedger(a, r);
  }

  lemma CallIgnoresLedger(a: Store, r: LedgerRecord)
    ensures forall cfg :: CallInv(a, cfg) ==> CallInv(a.(issued := a.issued + [r]), cfg)
  {
  }

  /** The document just read is one to check against. */
  lemma CurrentIsChecked(a: Store)
    requires StoreInv(a) && a.document.Some?
    ensures CheckedAgainst(a, a.document.value)
  {
    var s := a.document.value;
    KeptAccepted(s, a.issued, a.now);
    hide Inv, ValidState, AllRecords, RecordAccepted;
    EvolvesReflexive(s);
  }

  lemma EvolvesReflexive(s: AuthorityState)
    ensures Evolves(s, s)
  {
  }

  // ----- what the computing steps establish -----

  /** Without a scan the mutation does not depend on the ledger. */
  lemma MutateIgnoresLedger(document: Option<AuthorityState>, cfg: ManagerConfig, cmd: Command,
          issued: seq<LedgerRecord>, now: Instant)
    requires DocumentInv(document) && !NeedsScan(document, cfg, cmd)
    requires document.Some? ==> document.value.spec.mode == Ledger
    ensures Mutate(Base(document), cfg, cmd, [], now) == Mutate(Base(document), cfg, cmd, issued, now)
  {
    hide ValidState, Inv, Ensure, Discard, Prune;
  }

  lemma ComputeInv(a: Store, q: Process)
    requires StoreInv(a) && LedgerMode(a) && q.UpdateReady? && ProcessInv(a, q) && FreshCommand(q.cmd, Base(a.document))
    ensures ProcessInv(a, Compute(q, a.now))
    ensures var r := Compute(q, a.now);
            r.Scanning? || r.UpdateWriting? || r.UpdateDone?
  {
    hide ValidState, Inv, Mutate, Commit;
    if NeedsScan(a.document, q.cfg, q.cmd) {
      assert a.issued[..0] == [];
    } else {
      MutateIgnoresLedger(a.document, q.cfg, q.cmd, a.issued, a.now);
      hide NeedsScan;
    }
  }

  lemma ScanStarts(s: AuthorityState, cfg: ManagerConfig, cmd: Command)
    requires ValidState(s) && NeedsScan(Some(s), cfg, cmd)
    ensures s.pending.Some? && s.activeRoot in s.roots
  {
  }

  /** The deadline that the pages add up to is the one the atomic promotion takes over the whole
      ledger. */
  lemma ScanPageInv(a: Store, q: Process)
    requires StoreInv(a) && LedgerMode(a) && q.ScanningLocked? && ProcessInv(a, q)
    ensures ProcessInv(a, ScanPage(q, a.issued))
    ensures var r := ScanPage(q, a.issued);
            r.Scanning? || r.UpdateWriting? || r.UpdateDone?
  {
    hide ValidState, Inv, Commit, Promoted, LedgerDeadline, ScanDeadline, AssertSpec;
    ScanStarts(q.state, q.cfg, q.cmd);
    var s := q.state;
    var page := ListLedger(a.issued, q.cursor, PAGE_SIZE).value;
    PageExtends(a.issued, q.cursor, PAGE_SIZE);
    ScanAppend(s, a.issued[..q.cursor], page.records, s.activeRoot);
    if page.next.None? {
      assert a.issued[..q.cursor] + page.records == a.issued;
    }
  }

  lemma CheckPageInv(a: Store, q: Process)
    requires StoreInv(a) && q.LedgerCheckingLocked? && ProcessInv(a, q)
    ensures ProcessInv(a, CheckPage(q, a.issued, a.now))
    ensures var r := CheckPage(q, a.issued, a.now);
            r.Manager? || r.LedgerChecking? || r.Attempting?
  {
    hide StoreInv, ValidState, Inv, Sound, Load, LoadedInv, LedgerAccepted, LedgerReadable, MakeJob, JobHolds, CheckedAgainst;
    PageExtends(a.issued, |q.all|, PAGE_SIZE);
    if MakeJob(q.loaded, q.request, a.now).Ok? {
      MadeJobHolds(q.loaded, q.request, a.now);
    }
  }

  lemma TryCandidateInv(a: Store, q: Process, serial: nat, raw: nat)
    requires q.Attempting? && ProcessInv(a, q) && q.loaded.version.key.Some?
    ensures ProcessInv(a, TryCandidate(q, a.issued, serial, raw))
    ensures var r := TryCandidate(q, a.issued, serial, raw);
            r.Manager? || r.Attempting? || r.AppendWaiting?
  {
    hide ValidState, Sound, Load, JobHolds;
  }

  lemma ReloadInv(a: Store, slug: Slug, name: string)
    requires StoreInv(a) && Reload(a.document, slug, name).Ok?
    ensures LoadedInv(a, slug, name, Reload(a.document, slug, name).value)
  {
    LoadSound(a.document.value, slug);
  }

  lemma OpenInv(a: Store, q: Process)
    requires StoreInv(a) && q.Opening?
    ensures ProcessInv(a, Open(q, a.document))
    ensures Open(q, a.document).Finished? || Open(q, a.document).Manager?
  {
    hide LoadedInv, Inv, ValidState, Kept, Reload, CheckedAgainst;
    if Reload(a.document, q.slug, q.name).Ok? {
      ReloadInv(a, q.slug, q.name);
    }
  }

  lemma ReloadAndCheckInv(a: Store, q: Process)
    requires StoreInv(a) && q.SignReloading? && ProcessInv(a, q)
    ensures ProcessInv(a, ReloadAndCheck(q, a.document))
    ensures ReloadAndCheck(q, a.document).Manager? || ReloadAndCheck(q, a.document).LedgerChecking?
  {
    hide LoadedInv, Inv, ValidState, Kept, Reload, CheckedAgainst;
    if Reload(a.document, q.slug, q.name).Ok? {
      ReloadInv(a, q.slug, q.name);
    }
  }

  /** After the reload of a retry the job still fits: the policy cannot have changed, and the
      remaining lifetime is tested again. */
  lemma RetryReloadInv(a: Store, q: Process)
    requires StoreInv(a) && q.RetryReloading? && ProcessInv(a, q)
    ensures ProcessInv(a, RetryReload(q, a.document))
    ensures RetryReload(q, a.document).Manager? || RetryReload(q, a.document).Attempting?
  {
    hide StoreInv, Reload, Sound, Load, Permits, ValidState;
    if Reload(a.document, q.slug, q.name).Ok? {
      ReloadInv(a, q.slug, q.name);
    }
  }

  // ----- the store steps are lifecycle steps -----

  /** What an appender has established is all that the atomic issue step asks for. */
  lemma AppendIsIssue(a: Store, q: Process)
    requires StoreInv(a) && q.AppendWriting? && ProcessInv(a, q)
    ensures Next(a, Issue(q.record), a.(issued := a.issued + [q.record]))
  {
    hide Inv, Permits, ValidRecord, ValidRoot, ValidVersion, ValidPending;
    var s, r, m := q.state, q.record, q.loaded;
    assert m.revision == s.revision;
    assert Load(s, q.slug, q.name) == Ok(m);
    var i := s.issuers[r.issuer];
    assert ValidIssuer(s, r.issuer);
    assert i.versions[r.issuerVersion] == m.version;
    assert SignedFor(s, r, a.now);
  }

  lemma WriteIsChange(a: Store, q: Process)
    requires StoreInv(a) && LedgerMode(a) && q.UpdateWriting? && ProcessInv(a, q)
    ensures Next(a, Change(q.cfg, q.cmd, q.at), a.(document := Some(q.next)))
    ensures a.document.Some? ==> Evolves(a.document.value, q.next) && a.document.value.revision < q.next.revision
    ensures ValidState(q.next) && q.next.spec.mode == Ledger
  {
    hide ValidState, Inv, Update, Mutate;
    UpdateInv(a.document, q.cfg, q.cmd, a.issued, q.at);
    if a.document.Some? {
      UpdateEvolves(a.document.value, q.cfg, q.cmd, a.issued, q.at);
    } else {
      FirstIsLedger(q.cfg, q.cmd, a.issued, q.at);
    }
  }

  /** The first document takes its mode from the configuration that provisioned it. */
  lemma FirstIsLedger(cfg: ManagerConfig, cmd: Command, issued: seq<LedgerRecord>, at: Instant)
    requires cfg.mode == Some(Ledger) && Mutate(EMPTY_STATE, cfg, cmd, issued, at).Ok?
    ensures Mutate(EMPTY_STATE, cfg, cmd, issued, at).value.spec.mode == Ledger
  {
  }
}
