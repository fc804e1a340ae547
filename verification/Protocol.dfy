/** The file store with its locks as explicit steps: any number of authority calls and issuer
    managers, interleaved. Every interleaving refines the atomic lifecycle. */
module Protocol {
  import opened Wrappers
  import opened Certificates
  import opened Policy
  import opened Authority
  import opened AuthorityInvariant
  import opened Evolution
  import opened Lifecycle
  import opened LedgerPaging
  import opened Signing

  type Pid = nat

  /** An flock: one writer or any number of readers. */
  datatype Flock = Flock(writer: Option<Pid>, readers: set<Pid>) {
    predicate FreeForWriter() {
      writer.None? && readers == {}
    }

    predicate FreeForReader() {
      writer.None?
    }
  }

  datatype Outcome = Recorded | Refused(error: Error)

  datatype Process =
    // an authority call inside FileStore.update
    | UpdateWaiting(cfg: ManagerConfig, cmd: Command)
    | UpdateLocked(cfg: ManagerConfig, cmd: Command)
    | UpdateLoaded(cfg: ManagerConfig, cmd: Command, document: Option<AuthorityState>)
    | UpdateReady(cfg: ManagerConfig, cmd: Command, document: Option<AuthorityState>)
    | Scanning(cfg: ManagerConfig, cmd: Command, state: AuthorityState, at: Instant, cursor: nat, deadline: Instant)
    | ScanningLocked(cfg: ManagerConfig, cmd: Command, state: AuthorityState, at: Instant, cursor: nat, deadline: Instant)
    | UpdateWriting(cfg: ManagerConfig, cmd: Command, at: Instant, next: AuthorityState)
    | UpdateDone
    | Finished
    // an issuer manager between calls
    | Opening(slug: Slug, name: string)
    | Manager(slug: Slug, name: string, loaded: Loaded)
    // SignCSR: checks
    | SignChecking(slug: Slug, name: string, loaded: Loaded, request: Request)
    | SignReloading(slug: Slug, name: string, loaded: Loaded, request: Request, state: AuthorityState)
    | LedgerChecking(slug: Slug, name: string, loaded: Loaded, request: Request, state: AuthorityState, all: seq<LedgerRecord>)
    | LedgerCheckingLocked(slug: Slug, name: string, loaded: Loaded, request: Request, state: AuthorityState, all: seq<LedgerRecord>)
    // SignCSR: the signing loop
    | Attempting(slug: Slug, name: string, loaded: Loaded, job: Job, attempt: nat)
    | AppendWaiting(slug: Slug, name: string, loaded: Loaded, job: Job, attempt: nat, record: LedgerRecord)
    | AppendShared(slug: Slug, name: string, loaded: Loaded, job: Job, attempt: nat, record: LedgerRecord)
    | AppendChecked(slug: Slug, name: string, loaded: Loaded, job: Job, attempt: nat, record: LedgerRecord, state: AuthorityState)
    | AppendLocked(slug: Slug, name: string, loaded: Loaded, job: Job, attempt: nat, record: LedgerRecord, state: AuthorityState)
    | AppendWriting(slug: Slug, name: string, loaded: Loaded, job: Job, attempt: nat, record: LedgerRecord, state: AuthorityState)
    | AppendWritten(slug: Slug, name: string, loaded: Loaded, job: Job, attempt: nat)
    | AppendReleasing(slug: Slug, name: string, loaded: Loaded, job: Job, attempt: nat, outcome: Outcome)
    | Retrying(slug: Slug, name: string, loaded: Loaded, job: Job, attempt: nat)
    | RetryReloading(slug: Slug, name: string, loaded: Loaded, job: Job, attempt: nat)

  datatype World = World(store: Store, ca: Flock, ledger: Flock, processes: map<Pid, Process>)

  // ----- which locks a process holds -----

  predicate WritesCa(p: Process) {
    p.UpdateLocked? || p.UpdateLoaded? || p.UpdateReady? || p.Scanning? || p.ScanningLocked? || p.UpdateWriting? || p.UpdateDone?
  }

  predicate ReadsCa(p: Process) {
    p.AppendShared? || p.AppendChecked? || p.AppendLocked? || p.AppendWriting? || p.AppendWritten? || p.AppendReleasing?
  }

  predicate WritesLedger(p: Process) {
    p.AppendLocked? || p.AppendWriting? || p.AppendWritten?
  }

  predicate ReadsLedger(p: Process) {
    p.ScanningLocked? || p.LedgerCheckingLocked?
  }

  // ----- events -----

  datatype Event =
    | StartCall(cfg: ManagerConfig, cmd: Command)
    | StartManager(slug: Slug, name: string)
    | StartSigning(request: Request)
    | Candidate(serial: nat, raw: nat)
    | Advance
    | Cancel
    | Clock(later: Instant)

  function Become(w: World, p: Pid, q: Process): World {
    w.(processes := w.processes[p := q])
  }

  function LockCa(w: World, p: Pid): World {
    w.(ca := Flock(Some(p), w.ca.readers))
  }

  function UnlockCa(w: World): World {
    w.(ca := Flock(None, w.ca.readers))
  }

  function ShareCa(w: World, p: Pid): World {
    w.(ca := Flock(w.ca.writer, w.ca.readers + {p}))
  }

  function UnshareCa(w: World, p: Pid): World {
    w.(ca := Flock(w.ca.writer, w.ca.readers - {p}))
  }

  function LockLedger(w: World, p: Pid): World {
    w.(ledger := Flock(Some(p), w.ledger.readers))
  }

  function UnlockLedger(w: World): World {
    w.(ledger := Flock(None, w.ledger.readers))
  }

  function ShareLedger(w: World, p: Pid): World {
    w.(ledger := Flock(w.ledger.writer, w.ledger.readers + {p}))
  }

  function UnshareLedger(w: World, p: Pid): World {
    w.(ledger := Flock(w.ledger.writer, w.ledger.readers - {p}))
  }

  // ----- what the steps compute -----

  /** The mutation scans the ledger before it can finish: a root promotion in Ledger mode. */
  predicate NeedsScan(document: Option<AuthorityState>, cfg: ManagerConfig, cmd: Command)
    requires document.Some? ==> ValidState(document.value)
  {
    && cmd.PromoteCommand?
    && document.Some?
    && document.value.spec.mode == Ledger
    && CheckPromotion(document.value, cfg, cmd.secret).Ok?
    && PendingIs(document.value, PendingRoot)
  }

  function AfterCommit(cfg: ManagerConfig, cmd: Command, at: Instant, r: Result<AuthorityState>): Process {
    if r.Ok? then UpdateWriting(cfg, cmd, at, r.value) else UpdateDone
  }

  predicate Usable(document: Option<AuthorityState>) {
    document.Some? ==> ValidState(document.value)
  }

  /** update after the ledger check: the mutation, unless it has to scan first. */
  function Compute(p: Process, now: Instant): Process
    requires p.UpdateReady?
  {
    if !Usable(p.document) then UpdateDone
    else if NeedsScan(p.document, p.cfg, p.cmd) then Scanning(p.cfg, p.cmd, p.document.value, now, 0, 0)
    else AfterCommit(p.cfg, p.cmd, now, Commit(Base(p.document), Mutate(Base(p.document), p.cfg, p.cmd, [], now)))
  }

  /** One page of ledgerTrustDeadline, and the rest of the promotion after the last page. */
  function ScanPage(p: Process, issued: seq<LedgerRecord>): Process
    requires p.ScanningLocked?
  {
    match ListLedger(issued, p.cursor, PAGE_SIZE)
    case Err(_) => UpdateDone
    case Ok(page) =>
      if p.state.pending.None? || p.state.activeRoot !in p.state.roots then UpdateDone else
      var d := ScanDeadline(p.state, page.records, p.state.activeRoot, p.deadline);
      if page.next.Some? then Scanning(p.cfg, p.cmd, p.state, p.at, page.next.value, d)
      else AfterCommit(p.cfg, p.cmd, p.at, Commit(p.state, Ok(Promoted(p.state, p.state.pending.value, if d == 0 then p.at else d))))
  }

  /** One page of validateLedger, and the request checks after the last page. */
  function CheckPage(p: Process, issued: seq<LedgerRecord>, now: Instant): Process
    requires p.LedgerCheckingLocked?
  {
    match ListLedger(issued, |p.all|, PAGE_SIZE)
    case Err(_) => Manager(p.slug, p.name, p.loaded)
    case Ok(page) =>
      var all := p.all + page.records;
      if page.next.Some? then LedgerChecking(p.slug, p.name, p.loaded, p.request, p.state, all)
      else if !LedgerAccepted(p.state, all) then Manager(p.slug, p.name, p.loaded)
      else match MakeJob(p.loaded, p.request, now)
        case Err(_) => Manager(p.slug, p.name, p.loaded)
        case Ok(job) => Attempting(p.slug, p.name, p.loaded, job, 0)
  }

  const MAX_ATTEMPTS: nat := 8

  predicate SerialTaken(issued: seq<LedgerRecord>, slug: Slug, version: int, serial: nat) {
    exists i :: 0 <= i < |issued| && issued[i].issuer == slug && issued[i].issuerVersion == version && issued[i].serial == serial
  }

  function TryCandidate(p: Process, issued: seq<LedgerRecord>, serial: nat, raw: nat): Process
    requires p.Attempting? && p.loaded.version.key.Some?
  {
    if p.attempt >= MAX_ATTEMPTS || !LedgerReadable(issued) then Manager(p.slug, p.name, p.loaded)
    else if SerialTaken(issued, p.slug, p.loaded.version.version, serial) then Attempting(p.slug, p.name, p.loaded, p.job, p.attempt + 1)
    else AppendWaiting(p.slug, p.name, p.loaded, p.job, p.attempt,
                       MakeRecord(p.slug, p.loaded, p.job, MakeLeaf(p.loaded, p.job, serial, raw)))
  }

  function LoadForAppend(p: Process, document: Option<AuthorityState>): Process
    requires p.AppendShared?
  {
    match ReadDocument(document)
    case Err(e) => AppendReleasing(p.slug, p.name, p.loaded, p.job, p.attempt, Refused(e))
    case Ok(s) =>
      match CheckAppend(s, p.record)
      case Err(e) => AppendReleasing(p.slug, p.name, p.loaded, p.job, p.attempt, Refused(e))
      case Ok(_) => AppendChecked(p.slug, p.name, p.loaded, p.job, p.attempt, p.record, s)
  }

  function Decide(p: Process): Process
    requires p.AppendReleasing?
  {
    if p.outcome == Refused(Conflict) then Retrying(p.slug, p.name, p.loaded, p.job, p.attempt)
    else Manager(p.slug, p.name, p.loaded)
  }

  function CheckDocument(p: Process, document: Option<AuthorityState>): Process
    requires p.SignChecking?
  {
    match ReadDocument(document)
    case Err(_) => Manager(p.slug, p.name, p.loaded)
    case Ok(s) =>
      if s.revision != p.loaded.revision then SignReloading(p.slug, p.name, p.loaded, p.request, s)
      else LedgerChecking(p.slug, p.name, p.loaded, p.request, s, [])
  }

  function Reload(document: Option<AuthorityState>, slug: Slug, name: string): Result<Loaded> {
    var s :- ReadDocument(document);
    Load(s, slug, name)
  }

  function ReloadAndCheck(p: Process, document: Option<AuthorityState>): Process
    requires p.SignReloading?
  {
    match Reload(document, p.slug, p.name)
    case Err(_) => Manager(p.slug, p.name, p.loaded)
    case Ok(m) => LedgerChecking(p.slug, p.name, m, p.request, p.state, [])
  }

  function Retry(p: Process, document: Option<AuthorityState>): Process
    requires p.Retrying?
  {
    match ReadDocument(document)
    case Err(_) => Manager(p.slug, p.name, p.loaded)
    case Ok(s) =>
      if s.revision != p.loaded.revision then RetryReloading(p.slug, p.name, p.loaded, p.job, p.attempt)
      else Attempting(p.slug, p.name, p.loaded, p.job, p.attempt + 1)
  }

  function RetryReload(p: Process, document: Option<AuthorityState>): Process
    requires p.RetryReloading?
  {
    match Reload(document, p.slug, p.name)
    case Err(_) => Manager(p.slug, p.name, p.loaded)
    case Ok(m) =>
      if !Fits(p.job.notAfter, m.version.certificate) then Manager(p.slug, p.name, m)
      else Attempting(p.slug, p.name, m, p.job, p.attempt + 1)
  }

  function Open(p: Process, document: Option<AuthorityState>): Process
    requires p.Opening?
  {
    match Reload(document, p.slug, p.name)
    case Err(_) => Finished
    case Ok(m) => Manager(p.slug, p.name, m)
  }

  // ----- the step relation -----

  /** The process has a next step of its own: it does not wait for a lock, a request or a serial. */
  ghost predicate Enabled(w: World, p: Pid)
    requires p in w.processes
  {
    match w.processes[p]
    case UpdateWaiting(_, _) => w.ca.FreeForWriter()
    case UpdateReady(_, cmd, document) => FreshCommand(cmd, Base(document))
    case Scanning(_, _, _, _, _, _) => w.ledger.FreeForReader()
    case LedgerChecking(_, _, _, _, _, _) => w.ledger.FreeForReader()
    case AppendWaiting(_, _, _, _, _, _) => w.ca.FreeForReader()
    case AppendChecked(_, _, _, _, _, _, _) => w.ledger.FreeForWriter()
    case Finished => false
    case Manager(_, _, _) => false
    case Attempting(_, _, _, _, _) => false
    case _ => true
  }

  /** The world after that step. */
  ghost function After(w: World, p: Pid): World
    requires p in w.processes && Enabled(w, p)
  {
    var q := w.processes[p];
    var a := w.store;
    match q
    case UpdateWaiting(cfg, cmd) => Become(LockCa(w, p), p, UpdateLocked(cfg, cmd))
    case UpdateLocked(cfg, cmd) => Become(w, p, if Usable(a.document) then UpdateLoaded(cfg, cmd, a.document) else UpdateDone)
    case UpdateLoaded(cfg, cmd, document) =>
      if document.Some? && document.value.spec.mode == Ledger && !(LedgerReadable(a.issued) && LedgerAccepted(document.value, a.issued))
      then Become(w, p, UpdateDone)
      else Become(w, p, UpdateReady(cfg, cmd, document))
    case UpdateReady(_, _, _) => Become(w, p, Compute(q, a.now))
    case Scanning(cfg, cmd, state, at, cursor, deadline) =>
      Become(ShareLedger(w, p), p, ScanningLocked(cfg, cmd, state, at, cursor, deadline))
    case ScanningLocked(_, _, _, _, _, _) => Become(UnshareLedger(w, p), p, ScanPage(q, a.issued))
    case UpdateWriting(_, _, _, next) => Become(w, p, UpdateDone).(store := a.(document := Some(next)))
    case UpdateDone => Become(UnlockCa(w), p, Finished)
    case Opening(_, _) => Become(w, p, Open(q, a.document))
    case SignChecking(_, _, _, _) => Become(w, p, CheckDocument(q, a.document))
    case SignReloading(_, _, _, _, _) => Become(w, p, ReloadAndCheck(q, a.document))
    case LedgerChecking(slug, name, loaded, request, state, all) =>
      Become(ShareLedger(w, p), p, LedgerCheckingLocked(slug, name, loaded, request, state, all))
    case LedgerCheckingLocked(_, _, _, _, _, _) => Become(UnshareLedger(w, p), p, CheckPage(q, a.issued, a.now))
    case AppendWaiting(slug, name, loaded, job, attempt, record) =>
      Become(ShareCa(w, p), p, AppendShared(slug, name, loaded, job, attempt, record))
    case AppendShared(_, _, _, _, _, _) => Become(w, p, LoadForAppend(q, a.document))
    case AppendChecked(slug, name, loaded, job, attempt, record, state) =>
      Become(LockLedger(w, p), p, AppendLocked(slug, name, loaded, job, attempt, record, state))
    case AppendLocked(slug, name, loaded, job, attempt, record, state) =>
      if !LedgerReadable(a.issued)
      then Become(UnlockLedger(w), p, AppendReleasing(slug, name, loaded, job, attempt, Refused(Corrupt)))
      else if exists i :: 0 <= i < |a.issued| && Clashes(a.issued[i], record)
      then Become(UnlockLedger(w), p, AppendReleasing(slug, name, loaded, job, attempt, Refused(Conflict)))
      else Become(w, p, AppendWriting(slug, name, loaded, job, attempt, record, state))
    case AppendWriting(slug, name, loaded, job, attempt, record, _) =>
      Become(w, p, AppendWritten(slug, name, loaded, job, attempt)).(store := a.(issued := a.issued + [record]))
    case AppendWritten(slug, name, loaded, job, attempt) =>
      Become(UnlockLedger(w), p, AppendReleasing(slug, name, loaded, job, attempt, Recorded))
    case AppendReleasing(_, _, _, _, _, _) => Become(UnshareCa(w, p), p, Decide(q))
    case Retrying(_, _, _, _, _) => Become(w, p, Retry(q, a.document))
    case RetryReloading(_, _, _, _, _) => Become(w, p, RetryReload(q, a.document))
  }

  ghost predicate Advances(w: World, p: Pid, v: World)
    requires p in w.processes
  {
    Enabled(w, p) && v == After(w, p)
  }

  /** A cancelled context ends a wait for a lock with an error. */
  function Cancelled(q: Process): Process {
    match q
    case UpdateWaiting(_, _) => Finished
    case Scanning(_, _, _, _, _, _) => UpdateDone
    case LedgerChecking(slug, name, loaded, _, _, _) => Manager(slug, name, loaded)
    case AppendWaiting(slug, name, loaded, _, _, _) => Manager(slug, name, loaded)
    case AppendChecked(slug, name, loaded, job, attempt, _, _) => AppendReleasing(slug, name, loaded, job, attempt, Refused(Canceled))
    case _ => q
  }

  ghost predicate Steps(w: World, p: Pid, e: Event, v: World) {
    match e
    case StartCall(cfg, cmd) =>
      p !in w.processes && ValidConfig(cfg) && (w.store.document.Some? || cfg.mode == Some(Ledger)) && v == Become(w, p, UpdateWaiting(cfg, cmd))
    case StartManager(slug, name) => p !in w.processes && v == Become(w, p, Opening(slug, name))
    case StartSigning(request) =>
      && p in w.processes && w.processes[p].Manager?
      && var q := w.processes[p];
      && v == Become(w, p, SignChecking(q.slug, q.name, q.loaded, request))
    case Candidate(serial, raw) =>
      && p in w.processes && w.processes[p].Attempting? && w.processes[p].loaded.version.key.Some?
      && v == Become(w, p, TryCandidate(w.processes[p], w.store.issued, serial, raw))
    case Advance => p in w.processes && Advances(w, p, v)
    case Cancel => p in w.processes && v == Become(w, p, Cancelled(w.processes[p]))
    case Clock(later) => later >= w.store.now && v == w.(store := w.store.(now := later))
  }

  predicate Start(w: World) {
    Initial(w.store) && w.ca == Flock(None, {}) && w.ledger == Flock(None, {}) && w.processes == map[]
  }
}
