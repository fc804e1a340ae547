/** Every interleaving of the locked protocol refines the atomic lifecycle, is safe, and cannot
    deadlock. */
module ProtocolSafety {
  import opened Wrappers
  import opened Certificates
  import opened Policy
  import opened Authority
  import opened AuthorityInvariant
  import opened Evolution
  import opened Lifecycle
  import opened LedgerPaging
  import opened Signing
  import opened Protocol
  import opened ProtocolInvariant
  import opened TrustBundle
  import Safety

  // ----- a process's own step -----

  /** What a step of process p does to the store. */
  ghost predicate StoreStep(a: Store, q: Process, b: Store) {
    || b == a
    || (q.UpdateWriting? && b == a.(document := Some(q.next)))
    || (q.AppendWriting? && b == a.(issued := a.issued + [q.record]))
  }

  ghost predicate OwnStep(w: World, p: Pid, v: World)
    requires p in w.processes
  {
    && LockStep(w, p, v)
    && StoreStep(w.store, w.processes[p], v.store)
    && ProcessInv(v.store, v.processes[p])
  }

  lemma LocksOf(w: World, p: Pid)
    requires LockInv(w) && p in w.processes
    ensures w.ca.writer == Some(p) <==> WritesCa(w.processes[p])
    ensures p in w.ca.readers <==> ReadsCa(w.processes[p])
    ensures w.ledger.writer == Some(p) <==> WritesLedger(w.processes[p])
    ensures p in w.ledger.readers <==> ReadsLedger(w.processes[p])
  {
  }

  lemma UpdateEnters(w: World, p: Pid, v: World)
    requires WorldInv(w) && p in w.processes && Advances(w, p, v)
    requires w.processes[p].UpdateWaiting?
    ensures OwnStep(w, p, v)
  {
    hide StoreInv, Inv, ValidState, Kept, LockInv, JobHolds, LedgerAccepted;
    assert ProcessInv(w.store, w.processes[p]);
    LocksOf(w, p);
  }

  lemma UpdateReads(w: World, p: Pid, v: World)
    requires WorldInv(w) && p in w.processes && Advances(w, p, v)
    requires w.processes[p].UpdateLocked?
    ensures OwnStep(w, p, v)
  {
    hide StoreInv, Inv, ValidState, Kept, LockInv, JobHolds, LedgerAccepted;
    assert ProcessInv(w.store, w.processes[p]);
    LocksOf(w, p);
  }

  lemma UpdateChecks(w: World, p: Pid, v: World)
    requires WorldInv(w) && p in w.processes && Advances(w, p, v)
    requires w.processes[p].UpdateLoaded?
    ensures OwnStep(w, p, v)
  {
    hide StoreInv, Inv, ValidState, Kept, LockInv, JobHolds, LedgerAccepted;
    assert ProcessInv(w.store, w.processes[p]);
    LocksOf(w, p);
  }

  lemma UpdateComputes(w: World, p: Pid, v: World)
    requires WorldInv(w) && p in w.processes && Advances(w, p, v)
    requires w.processes[p].UpdateReady?
    ensures OwnStep(w, p, v)
  {
    hide Inv, ValidState, Kept, LockInv, JobHolds, Compute, ScanInv, WriteInv, Accepted;
    assert ProcessInv(w.store, w.processes[p]);
    LocksOf(w, p);
    ComputeInv(w.store, w.processes[p]);
  }

  lemma UpdateScans(w: World, p: Pid, v: World)
    requires WorldInv(w) && p in w.processes && Advances(w, p, v)
    requires w.processes[p].Scanning?
    ensures OwnStep(w, p, v)
  {
    hide StoreInv, Inv, ValidState, Kept, LockInv, JobHolds, ScanPage, ScanInv, WriteInv;
    assert ProcessInv(w.store, w.processes[p]);
    LocksOf(w, p);
  }

  lemma UpdateReadsPage(w: World, p: Pid, v: World)
    requires WorldInv(w) && p in w.processes && Advances(w, p, v)
    requires w.processes[p].ScanningLocked?
    ensures OwnStep(w, p, v)
  {
    hide StoreInv, Inv, ValidState, Kept, LockInv, JobHolds, ScanPage, ScanInv, WriteInv;
    assert ProcessInv(w.store, w.processes[p]);
    LocksOf(w, p);
    ScanPageInv(w.store, w.processes[p]);
  }

  lemma UpdateWrites(w: World, p: Pid, v: World)
    requires WorldInv(w) && p in w.processes && Advances(w, p, v)
    requires w.processes[p].UpdateWriting?
    ensures OwnStep(w, p, v)
  {
    hide StoreInv, Inv, ValidState, Kept, LockInv, JobHolds, WriteInv;
    assert ProcessInv(w.store, w.processes[p]);
    LocksOf(w, p);
  }

  lemma UpdateLeaves(w: World, p: Pid, v: World)
    requires WorldInv(w) && p in w.processes && Advances(w, p, v)
    requires w.processes[p].UpdateDone?
    ensures OwnStep(w, p, v)
  {
    hide StoreInv, Inv, ValidState, Kept, LockInv, JobHolds, WriteInv;
    assert ProcessInv(w.store, w.processes[p]);
    LocksOf(w, p);
  }

  lemma OpenAdvances(w: World, p: Pid, v: World)
    requires WorldInv(w) && p in w.processes && Advances(w, p, v)
    requires w.processes[p].Opening?
    ensures OwnStep(w, p, v)
  {
    hide StoreInv, Inv, ValidState, Kept, LockInv, JobHolds, Open, ReloadAndCheck, LoadedInv, CheckedAgainst;
    assert ProcessInv(w.store, w.processes[p]);
    LocksOf(w, p);
    OpenInv(w.store, w.processes[p]);
  }

  lemma ReloadAdvances(w: World, p: Pid, v: World)
    requires WorldInv(w) && p in w.processes && Advances(w, p, v)
    requires w.processes[p].SignReloading?
    ensures OwnStep(w, p, v)
  {
    hide StoreInv, Inv, ValidState, Kept, LockInv, JobHolds, Open, ReloadAndCheck, LoadedInv, CheckedAgainst;
    assert ProcessInv(w.store, w.processes[p]);
    LocksOf(w, p);
    ReloadAndCheckInv(w.store, w.processes[p]);
  }

  lemma CheckAdvances(w: World, p: Pid, v: World)
    requires WorldInv(w) && p in w.processes && Advances(w, p, v)
    requires w.processes[p].SignChecking?
    ensures OwnStep(w, p, v)
  {
    hide Inv, ValidState, Kept, LockInv, JobHolds, CheckPage, LoadedInv, CheckedAgainst;
    assert ProcessInv(w.store, w.processes[p]);
    LocksOf(w, p);
    if w.store.document.Some? {
      CurrentIsChecked(w.store);
    }
  }

  lemma LedgerCheckWaits(w: World, p: Pid, v: World)
    requires WorldInv(w) && p in w.processes && Advances(w, p, v)
    requires w.processes[p].LedgerChecking?
    ensures OwnStep(w, p, v)
  {
    hide StoreInv, Inv, ValidState, Kept, LockInv, JobHolds, CheckPage, LoadedInv, CheckedAgainst;
    assert ProcessInv(w.store, w.processes[p]);
    LocksOf(w, p);
  }

  lemma LedgerCheckReads(w: World, p: Pid, v: World)
    requires WorldInv(w) && p in w.processes && Advances(w, p, v)
    requires w.processes[p].LedgerCheckingLocked?
    ensures OwnStep(w, p, v)
  {
    hide StoreInv, Inv, ValidState, Kept, LockInv, JobHolds, CheckPage, LoadedInv, CheckedAgainst;
    assert ProcessInv(w.store, w.processes[p]);
    LocksOf(w, p);
    CheckPageInv(w.store, w.processes[p]);
  }

  lemma RetryAdvances(w: World, p: Pid, v: World)
    requires WorldInv(w) && p in w.processes && Advances(w, p, v)
    requires w.processes[p].Retrying?
    ensures OwnStep(w, p, v)
  {
    hide StoreInv, Inv, ValidState, Kept, LockInv, JobHolds, RetryReload, LoadedInv;
    assert ProcessInv(w.store, w.processes[p]);
    LocksOf(w, p);
  }

  lemma RetryReloads(w: World, p: Pid, v: World)
    requires WorldInv(w) && p in w.processes && Advances(w, p, v)
    requires w.processes[p].RetryReloading?
    ensures OwnStep(w, p, v)
  {
    hide StoreInv, Inv, ValidState, Kept, LockInv, JobHolds, RetryReload, LoadedInv;
    assert ProcessInv(w.store, w.processes[p]);
    LocksOf(w, p);
    RetryReloadInv(w.store, w.processes[p]);
  }

  lemma AppendEnters(w: World, p: Pid, v: World)
    requires WorldInv(w) && p in w.processes && Advances(w, p, v)
    requires w.processes[p].AppendWaiting?
    ensures OwnStep(w, p, v)
  {
    hide StoreInv, Inv, ValidState, Kept, LockInv, JobHolds, LoadedInv, Built, CheckAppend;
    assert ProcessInv(w.store, w.processes[p]);
    LocksOf(w, p);
  }

  lemma AppendReads(w: World, p: Pid, v: World)
    requires WorldInv(w) && p in w.processes && Advances(w, p, v)
    requires w.processes[p].AppendShared?
    ensures OwnStep(w, p, v)
  {
    hide StoreInv, Inv, ValidState, Kept, LockInv, JobHolds, LoadedInv, Built, CheckAppend;
    assert ProcessInv(w.store, w.processes[p]);
    LocksOf(w, p);
  }

  lemma AppendLocks(w: World, p: Pid, v: World)
    requires WorldInv(w) && p in w.processes && Advances(w, p, v)
    requires w.processes[p].AppendChecked?
    ensures OwnStep(w, p, v)
  {
    hide StoreInv, Inv, ValidState, Kept, LockInv, JobInv, Built, CheckAppend, Clashes;
    assert ProcessInv(w.store, w.processes[p]);
    LocksOf(w, p);
  }

  lemma NoClashIsNone(issued: seq<LedgerRecord>, r: LedgerRecord)
    ensures NoClash(issued, r) <==> !exists i :: 0 <= i < |issued| && Clashes(issued[i], r)
  {
    hide Clashes;
  }

  lemma AppendUnread(w: World, p: Pid, v: World)
    requires WorldInv(w) && p in w.processes && Advances(w, p, v)
    requires w.processes[p].AppendLocked? && !LedgerReadable(w.store.issued)
    ensures OwnStep(w, p, v)
  {
    hide StoreInv, Inv, ValidState, Kept, LockInv, JobInv, Built, CheckAppend, Clashes, NoClash, LedgerReadable;
    assert ProcessInv(w.store, w.processes[p]);
    LocksOf(w, p);
    NoClashIsNone(w.store.issued, w.processes[p].record);
  }

  lemma AppendClashes(w: World, p: Pid, v: World)
    requires WorldInv(w) && p in w.processes && Advances(w, p, v)
    requires w.processes[p].AppendLocked? && LedgerReadable(w.store.issued) && !NoClash(w.store.issued, w.processes[p].record)
    ensures OwnStep(w, p, v)
  {
    hide StoreInv, Inv, ValidState, Kept, LockInv, JobInv, Built, CheckAppend, Clashes, NoClash, LedgerReadable;
    assert ProcessInv(w.store, w.processes[p]);
    LocksOf(w, p);
    NoClashIsNone(w.store.issued, w.processes[p].record);
  }

  lemma AppendAllowed(w: World, p: Pid, v: World)
    requires WorldInv(w) && p in w.processes && Advances(w, p, v)
    requires w.processes[p].AppendLocked? && LedgerReadable(w.store.issued) && NoClash(w.store.issued, w.processes[p].record)
    ensures OwnStep(w, p, v)
  {
    hide StoreInv, Inv, ValidState, Kept, LockInv, JobInv, Built, CheckAppend, Clashes, NoClash, LedgerReadable;
    assert ProcessInv(w.store, w.processes[p]);
    LocksOf(w, p);
    NoClashIsNone(w.store.issued, w.processes[p].record);
  }

  lemma AppendChecks(w: World, p: Pid, v: World)
    requires WorldInv(w) && p in w.processes && Advances(w, p, v)
    requires w.processes[p].AppendLocked?
    ensures OwnStep(w, p, v)
  {
    hide *;
    if !LedgerReadable(w.store.issued) {
      AppendUnread(w, p, v);
    } else if NoClash(w.store.issued, w.processes[p].record) {
      AppendAllowed(w, p, v);
    } else {
      AppendClashes(w, p, v);
    }
  }

  lemma AppendWrites(w: World, p: Pid, v: World)
    requires WorldInv(w) && p in w.processes && Advances(w, p, v)
    requires w.processes[p].AppendWriting?
    ensures OwnStep(w, p, v)
  {
    hide StoreInv, Inv, ValidState, Kept, LockInv, JobHolds, Sound, Load, Built, CheckAppend;
    assert ProcessInv(w.store, w.processes[p]);
    LocksOf(w, p);
  }

  lemma AppendUnlocks(w: World, p: Pid, v: World)
    requires WorldInv(w) && p in w.processes && Advances(w, p, v)
    requires w.processes[p].AppendWritten?
    ensures OwnStep(w, p, v)
  {
    hide StoreInv, Inv, ValidState, Kept, LockInv, JobHolds, Sound, Load, Built, CheckAppend;
    assert ProcessInv(w.store, w.processes[p]);
    LocksOf(w, p);
  }

  lemma AppendReleases(w: World, p: Pid, v: World)
    requires WorldInv(w) && p in w.processes && Advances(w, p, v)
    requires w.processes[p].AppendReleasing?
    ensures OwnStep(w, p, v)
  {
    hide StoreInv, Inv, ValidState, Kept, LockInv, JobHolds, Sound, Load, Built, CheckAppend;
    assert ProcessInv(w.store, w.processes[p]);
    LocksOf(w, p);
  }

  lemma AdvanceIsOwnStep(w: World, p: Pid, v: World)
    requires WorldInv(w) && p in w.processes && Advances(w, p, v)
    ensures OwnStep(w, p, v)
  {
    hide WorldInv, OwnStep;
    match w.processes[p]
    case UpdateWaiting(_, _) => UpdateEnters(w, p, v);
    case UpdateLocked(_, _) => UpdateReads(w, p, v);
    case UpdateLoaded(_, _, _) => UpdateChecks(w, p, v);
    case UpdateReady(_, _, _) => UpdateComputes(w, p, v);
    case Scanning(_, _, _, _, _, _) => UpdateScans(w, p, v);
    case ScanningLocked(_, _, _, _, _, _) => UpdateReadsPage(w, p, v);
    case UpdateWriting(_, _, _, _) => UpdateWrites(w, p, v);
    case UpdateDone => UpdateLeaves(w, p, v);
    case Opening(_, _) => OpenAdvances(w, p, v);
    case SignReloading(_, _, _, _, _) => ReloadAdvances(w, p, v);
    case SignChecking(_, _, _, _) => CheckAdvances(w, p, v);
    case LedgerChecking(_, _, _, _, _, _) => LedgerCheckWaits(w, p, v);
    case LedgerCheckingLocked(_, _, _, _, _, _) => LedgerCheckReads(w, p, v);
    case Retrying(_, _, _, _, _) => RetryAdvances(w, p, v);
    case RetryReloading(_, _, _, _, _) => RetryReloads(w, p, v);
    case AppendWaiting(_, _, _, _, _, _) => AppendEnters(w, p, v);
    case AppendShared(_, _, _, _, _, _) => AppendReads(w, p, v);
    case AppendChecked(_, _, _, _, _, _, _) => AppendLocks(w, p, v);
    case AppendLocked(_, _, _, _, _, _, _) => AppendChecks(w, p, v);
    case AppendWriting(_, _, _, _, _, _, _) => AppendWrites(w, p, v);
    case AppendWritten(_, _, _, _, _) => AppendUnlocks(w, p, v);
    case AppendReleasing(_, _, _, _, _, _) => AppendReleases(w, p, v);
    case _ =>
  }

  lemma CancelIsOwnStep(w: World, p: Pid, v: World)
    requires WorldInv(w) && p in w.processes && v == Become(w, p, Cancelled(w.processes[p]))
    ensures OwnStep(w, p, v)
  {
    hide StoreInv, LoadedInv, JobHolds, ScanInv, WriteInv, Built, CheckAppend, LockInv;
    assert ProcessInv(w.store, w.processes[p]);
    LocksOf(w, p);
  }

  lemma CandidateIsOwnStep(w: World, p: Pid, serial: nat, raw: nat, v: World)
    requires WorldInv(w) && Steps(w, p, Candidate(serial, raw), v)
    ensures OwnStep(w, p, v)
  {
    hide StoreInv, LoadedInv, JobHolds, Built, LockInv, TryCandidate;
    assert ProcessInv(w.store, w.processes[p]);
    LocksOf(w, p);
    TryCandidateInv(w.store, w.processes[p], serial, raw);
  }

  // ----- every step keeps the invariant and refines the lifecycle -----

  /** A lifecycle step, or no change at all. */
  ghost predicate Refines(a: Store, b: Store) {
    b == a || exists step :: Next(a, step, b)
  }

  lemma OthersKept(w: World, p: Pid, v: World, r: Pid)
    requires WorldInv(w) && p in w.processes && OwnStep(w, p, v) && r in v.processes && r != p
    ensures r in w.processes && v.processes[r] == w.processes[r] && ProcessInv(v.store, v.processes[r])
  {
    hide StoreInv, ProcessInv, Next, ValidState, Evolves;
    var q := w.processes[p];
    assert ProcessInv(w.store, q) && ProcessInv(w.store, w.processes[r]);
    if v.store != w.store {
      if q.UpdateWriting? {
        WriteIsChange(w.store, q);
        assert w.ca.writer == Some(p) && w.ca.readers == {};
        DocumentKeeps(w.store, v.store, w.processes[r]);
      } else {
        assert p in w.ca.readers && w.ledger.writer == Some(p);
        AppendIsIssue(w.store, q);
        LedgerKeeps(w.store, q.record, w.processes[r]);
      }
    }
  }

  lemma OwnStepRefines(w: World, p: Pid, v: World)
    requires WorldInv(w) && p in w.processes && OwnStep(w, p, v)
    ensures Refines(w.store, v.store) && StoreInv(v.store) && LedgerMode(v.store)
  {
    hide StoreInv, ProcessInv, Next, LockInv, ValidState, Evolves;
    var q := w.processes[p];
    assert ProcessInv(w.store, q);
    if v.store != w.store {
      if q.UpdateWriting? {
        WriteIsChange(w.store, q);
        StepKeepsStoreInv(w.store, Change(q.cfg, q.cmd, q.at), v.store);
      } else {
        AppendIsIssue(w.store, q);
        StepKeepsStoreInv(w.store, Issue(q.record), v.store);
      }
    }
  }

  lemma OwnStepKeepsWorldInv(w: World, p: Pid, v: World)
    requires WorldInv(w) && p in w.processes && OwnStep(w, p, v)
    ensures WorldInv(v) && Refines(w.store, v.store)
  {
    OwnStepRefines(w, p, v);
    hide StoreInv, ProcessInv, LockInv, LedgerMode, Refines;
    LockStepKeepsLockInv(w, p, v);
    forall r | r in v.processes
      ensures ProcessInv(v.store, v.processes[r])
    {
      if r != p {
        OthersKept(w, p, v, r);
      }
    }
  }

  lemma StartKeepsWorldInv(w: World, p: Pid, q: Process)
    requires WorldInv(w) && p !in w.processes && ProcessInv(w.store, q) && (q.UpdateWaiting? || q.Opening?)
    ensures WorldInv(Become(w, p, q))
  {
    hide StoreInv, ProcessInv;
    var v := Become(w, p, q);
    assert LockStep(w, p, v);
    LockStepKeepsLockInv(w, p, v);
    forall r | r in v.processes
      ensures ProcessInv(v.store, v.processes[r])
    {
      if r != p {
        assert v.processes[r] == w.processes[r];
      }
    }
  }

  lemma ClockKeepsWorldInv(w: World, later: Instant)
    requires WorldInv(w) && later >= w.store.now
    ensures WorldInv(w.(store := w.store.(now := later))) && Refines(w.store, w.store.(now := later))
  {
    hide StoreInv, ProcessInv;
    var v := w.(store := w.store.(now := later));
    assert Next(w.store, Tick(later), v.store);
    StepKeepsStoreInv(w.store, Tick(later), v.store);
    forall r | r in v.processes
      ensures ProcessInv(v.store, v.processes[r])
    {
      ClockKeeps(w.store, later, w.processes[r]);
    }
  }

  /** The heart of the protocol: whatever process moves, the invariant stays and the store either
      does not change or makes one step of the atomic lifecycle. */
  lemma StepKeepsWorldInv(w: World, p: Pid, e: Event, v: World)
    requires WorldInv(w) && Steps(w, p, e, v)
    ensures WorldInv(v) && Refines(w.store, v.store)
  {
    hide WorldInv, OwnStep, Refines, Advances;
    match e
    case StartCall(cfg, cmd) => StartRefines(w); StartKeepsWorldInv(w, p, UpdateWaiting(cfg, cmd));
    case StartManager(slug, name) => StartRefines(w); StartKeepsWorldInv(w, p, Opening(slug, name));
    case StartSigning(request) => SigningIsOwnStep(w, p, request, v); OwnStepKeepsWorldInv(w, p, v);
    case Candidate(serial, raw) => CandidateIsOwnStep(w, p, serial, raw, v); OwnStepKeepsWorldInv(w, p, v);
    case Advance => AdvanceIsOwnStep(w, p, v); OwnStepKeepsWorldInv(w, p, v);
    case Cancel => CancelIsOwnStep(w, p, v); OwnStepKeepsWorldInv(w, p, v);
    case Clock(later) => ClockKeepsWorldInv(w, later);
  }

  lemma StartRefines(w: World)
    ensures Refines(w.store, w.store)
  {
  }

  lemma SigningIsOwnStep(w: World, p: Pid, request: Request, v: World)
    requires WorldInv(w) && Steps(w, p, StartSigning(request), v)
    ensures OwnStep(w, p, v)
  {
    hide StoreInv, LoadedInv, LockInv;
    assert ProcessInv(w.store, w.processes[p]);
    LocksOf(w, p);
  }

  // ----- runs -----

  datatype Move = Move(pid: Pid, event: Event)

  ghost predicate IsProtocolRun(run: seq<World>, moves: seq<Move>) {
    && |run| == |moves| + 1
    && Start(run[0])
    && forall i :: 0 <= i < |moves| ==> Steps(run[i], moves[i].pid, moves[i].event, run[i + 1])
  }

  lemma StartHolds(w: World)
    requires Start(w)
    ensures WorldInv(w)
  {
  }

  lemma {:induction false} WorldInvAlways(run: seq<World>, moves: seq<Move>, i: nat)
    requires IsProtocolRun(run, moves) && i < |run|
    ensures WorldInv(run[i])
  {
    hide WorldInv, Start, Steps;
    if i == 0 {
      StartHolds(run[0]);
    } else {
      WorldInvAlways(run, moves, i - 1);
      StepKeepsWorldInv(run[i - 1], moves[i - 1].pid, moves[i - 1].event, run[i]);
    }
  }

  /** An atomic run, and for each world of an interleaving the place in that run it stands at. */
  datatype Trace = Trace(stores: seq<Store>, steps: seq<Step>, at: seq<nat>)

  /** The first n worlds move forward along one atomic run. */
  ghost predicate Traces(run: seq<World>, n: nat, t: Trace)
    requires 0 < n <= |run|
  {
    && IsRun(t.stores, t.steps)
    && |t.at| == n && t.at[n - 1] == |t.stores| - 1
    && (forall i :: 0 <= i < n ==> t.at[i] < |t.stores| && t.stores[t.at[i]] == run[i].store)
    && (forall i, j :: 0 <= i <= j < n ==> t.at[i] <= t.at[j])
  }

  lemma TraceStarts(run: seq<World>)
    requires run != [] && Start(run[0])
    ensures Traces(run, 1, Trace([run[0].store], [], [0]))
  {
  }

  lemma TraceExtends(run: seq<World>, n: nat, t: Trace) returns (u: Trace)
    requires 0 < n < |run| && Traces(run, n, t) && Refines(run[n - 1].store, run[n].store)
    ensures Traces(run, n + 1, u)
  {
    hide Next, Initial;
    var a, b := run[n - 1].store, run[n].store;
    if a == b {
      u := t.(at := t.at + [|t.stores| - 1]);
    } else {
      var step :| Next(a, step, b);
      u := Trace(t.stores + [b], t.steps + [step], t.at + [|t.stores|]);
      forall i | 0 <= i < |u.steps|
        ensures Next(u.stores[i], u.steps[i], u.stores[i + 1])
      {
        if i < |t.steps| {
          assert Next(t.stores[i], t.steps[i], t.stores[i + 1]);
        }
      }
    }
  }

  lemma {:induction false} PrefixRefines(run: seq<World>, moves: seq<Move>, n: nat) returns (t: Trace)
    requires IsProtocolRun(run, moves) && 0 < n <= |run|
    ensures Traces(run, n, t)
  {
    hide WorldInv, Start, Steps, Refines, Traces;
    if n == 1 {
      TraceStarts(run);
      t := Trace([run[0].store], [], [0]);
    } else {
      var before := PrefixRefines(run, moves, n - 1);
      WorldInvAlways(run, moves, n - 2);
      StepKeepsWorldInv(run[n - 2], moves[n - 2].pid, moves[n - 2].event, run[n - 1]);
      t := TraceExtends(run, n - 1, before);
    }
  }

  /** Refinement of whole runs: every interleaving moves forward along one run of atomic operations;
      at each point document, ledger and clock are those of its place in that run. */
  lemma EveryInterleavingRefines(run: seq<World>, moves: seq<Move>)
    requires IsProtocolRun(run, moves)
    ensures exists t :: Traces(run, |run|, t)
  {
    hide Traces;
    var t := PrefixRefines(run, moves, |run|);
  }

  /** Trust coverage for the real protocol: whatever the interleaving, a recorded leaf that has not
      expired chains to a root in the trust bundle built at that moment. */
  lemma CoverageInEveryInterleaving(run: seq<World>, moves: seq<Move>, i: nat, k: nat, bundle: seq<Certificate>)
    requires IsProtocolRun(run, moves) && i < |run| && k < |run[i].store.issued|
    requires run[i].store.now <= run[i].store.issued[k].expiresAt
    requires run[i].store.document.Some? ==> IsBundleOf(run[i].store.document.value, run[i].store.now, bundle)
    ensures var a, r := run[i].store, run[i].store.issued[k];
            && Safety.HasRecord(a, r)
            && RootOf(a.document.value, r) in a.document.value.roots
            && var issuer := a.document.value.issuers[r.issuer].versions[r.issuerVersion].certificate;
               var root := a.document.value.roots[RootOf(a.document.value, r)].certificate;
               SignedBy(r.certificate, issuer) && SignedBy(issuer, root) && root in bundle
  {
    hide WorldInv, Start, Steps;
    var t := PrefixRefines(run, moves, |run|);
    Safety.TrustCoverage(t.stores, t.steps, t.at[i], k, bundle);
  }

  /** The ledger check at the start of an update never refuses: every interleaving leaves a ledger
      that the current document accepts and in which no two records clash. */
  lemma LedgerAcceptedInEveryInterleaving(run: seq<World>, moves: seq<Move>, i: nat)
    requires IsProtocolRun(run, moves) && i < |run| && run[i].store.document.Some?
    ensures LedgerAccepted(run[i].store.document.value, run[i].store.issued) && NoClashes(run[i].store.issued)
  {
    hide Start, Steps;
    WorldInvAlways(run, moves, i);
    hide LockInv, ProcessInv;
    Safety.KeptAccepted(run[i].store.document.value, run[i].store.issued, run[i].store.now);
  }

  /** Whatever was reloaded and retried on the way, every recorded leaf obeys the policy of its
      issuer's stored definition and ends at least the clock skew before its issuer, and the issuer
      before its root. */
  lemma PolicyInEveryInterleaving(run: seq<World>, moves: seq<Move>, i: nat, k: nat)
    requires IsProtocolRun(run, moves) && i < |run| && k < |run[i].store.issued|
    ensures var a, r := run[i].store, run[i].store.issued[k];
            && Safety.HasRecord(a, r)
            && RootOf(a.document.value, r) in a.document.value.roots
            && var issuer := a.document.value.issuers[r.issuer];
               var version := issuer.versions[r.issuerVersion].certificate;
               && Permits(issuer.definition, r.subject, r.sans, r.profile)
               && r.certificate.subject == r.subject && r.certificate.sans == r.sans && r.certificate.profile == {r.profile}
               && r.certificate.notAfter + CLOCK_SKEW <= version.notAfter
               && version.notAfter + CLOCK_SKEW <= a.document.value.roots[RootOf(a.document.value, r)].certificate.notAfter
  {
    hide Start, Steps;
    WorldInvAlways(run, moves, i);
    hide LockInv, ProcessInv, Permits;
    var a := run[i].store;
    var s, r := a.document.value, a.issued[k];
    assert Kept(s, r, a.now);
    assert IssuerInv(s, r.issuer);
    assert VersionInv(s, r.issuer, r.issuerVersion);
  }

  // ----- appends and updates exclude each other -----

  /** While some process holds ca.lock shared, no step changes the document. */
  lemma SharedLockFreezesDocument(w: World, p: Pid, e: Event, v: World, r: Pid)
    requires WorldInv(w) && Steps(w, p, e, v)
    requires r in w.processes && ReadsCa(w.processes[r])
    ensures v.store.document == w.store.document
  {
    hide StoreInv, ProcessInv, TryCandidate, Cancelled, Compute, ScanPage, CheckPage, Open, CheckDocument, ReloadAndCheck,
         LoadForAppend, Decide, Retry, RetryReload;
    assert r in w.ca.readers && w.ca.writer.None?;
  }

  /** No update comes between an append's state read and its ledger write: as long as the append
      holds its shared lock the document is the one it has read. */
  lemma {:induction false} NoUpdateDuringAppend(run: seq<World>, moves: seq<Move>, i: nat, j: nat, r: Pid)
    requires IsProtocolRun(run, moves) && i <= j < |run|
    requires forall k :: i <= k < j ==> r in run[k].processes && ReadsCa(run[k].processes[r])
    ensures run[j].store.document == run[i].store.document
    decreases j
  {
    hide WorldInv, Start, Steps, ReadsCa;
    if i == j {
    } else {
      NoUpdateDuringAppend(run, moves, i, j - 1, r);
      WorldInvAlways(run, moves, j - 1);
      SharedLockFreezesDocument(run[j - 1], moves[j - 1].pid, moves[j - 1].event, run[j], r);
    }
  }

  /** At the instant a record is written its revision and issuer version are the current ones, the
      leaf obeys the stored policy and is nested in its issuer's and root's validity, the issuer is
      under the active root, and no other process is inside either exclusive section. */
  lemma RecordIsCurrent(run: seq<World>, moves: seq<Move>, i: nat, p: Pid)
    requires IsProtocolRun(run, moves) && i < |run| && p in run[i].processes && run[i].processes[p].AppendWriting?
    ensures run[i].store.document.Some?
    ensures var s, r := run[i].store.document.value, run[i].processes[p].record;
            && r.authorityRevision == s.revision
            && r.issuer in s.issuers && r.issuerVersion == s.issuers[r.issuer].activeVersion
            && r.issuerVersion in s.issuers[r.issuer].versions
            && Permits(s.issuers[r.issuer].definition, r.subject, r.sans, r.profile)
            && var issuer := s.issuers[r.issuer].versions[r.issuerVersion];
               && issuer.rootGeneration == s.activeRoot && s.activeRoot in s.roots
               && SignedBy(r.certificate, issuer.certificate)
               && r.certificate.notAfter + CLOCK_SKEW <= issuer.certificate.notAfter
               && issuer.certificate.notAfter + CLOCK_SKEW <= s.roots[s.activeRoot].certificate.notAfter
    ensures forall q :: q in run[i].processes && q != p ==> !WritesCa(run[i].processes[q]) && !WritesLedger(run[i].processes[q]) && !ReadsLedger(run[i].processes[q])
  {
    hide Start, Steps;
    WorldInvAlways(run, moves, i);
    WritingIsCurrent(run[i], p);
  }

  lemma WritingIsCurrent(w: World, p: Pid)
    requires WorldInv(w) && p in w.processes && w.processes[p].AppendWriting?
    ensures w.store.document.Some?
    ensures var s, r := w.store.document.value, w.processes[p].record;
            && r.authorityRevision == s.revision
            && r.issuer in s.issuers && r.issuerVersion == s.issuers[r.issuer].activeVersion
            && r.issuerVersion in s.issuers[r.issuer].versions
            && Permits(s.issuers[r.issuer].definition, r.subject, r.sans, r.profile)
            && var issuer := s.issuers[r.issuer].versions[r.issuerVersion];
               && issuer.rootGeneration == s.activeRoot && s.activeRoot in s.roots
               && SignedBy(r.certificate, issuer.certificate)
               && r.certificate.notAfter + CLOCK_SKEW <= issuer.certificate.notAfter
               && issuer.certificate.notAfter + CLOCK_SKEW <= s.roots[s.activeRoot].certificate.notAfter
    ensures forall q :: q in w.processes && q != p ==> !WritesCa(w.processes[q]) && !WritesLedger(w.processes[q]) && !ReadsLedger(w.processes[q])
  {
    hide Permits, Sound, Load, LoadedInv, JobHolds, NoClash, Kept;
    var q := w.processes[p];
    assert ProcessInv(w.store, q);
    AppendIsIssue(w.store, q);
    var s, r := w.store.document.value, q.record;
    assert SignedFor(s, r, w.store.now) && CheckAppend(s, r).Ok?;
    assert IssuerInv(s, r.issuer);
    assert VersionInv(s, r.issuer, r.issuerVersion);
    assert p in w.ca.readers && w.ledger.writer == Some(p);
  }

  // ----- no deadlock -----

  /** In the middle of a call. */
  predicate Busy(q: Process) {
    !q.Manager? && !q.Finished?
  }

  /** As long as a call is in progress, some call in progress can take a step: the order ca.lock
      then ledger.lock cannot block itself. The random source must not have repeated itself for a
      call that is about to create certificates. */
  lemma NoDeadlock(w: World, p: Pid)
    requires WorldInv(w) && p in w.processes && Busy(w.processes[p])
    requires forall q :: q in w.processes && w.processes[q].UpdateReady? ==> FreshCommand(w.processes[q].cmd, Base(w.processes[q].document))
    ensures exists q: Pid, e: Event, v: World :: q in w.processes && Busy(w.processes[q]) && (e.Advance? || e.Candidate?) && Steps(w, q, e, v)
  {
    hide After, TryCandidate, FreshCommand, StoreInv, ValidState;
    var q := SomeoneCanMove(w, p);
    if w.processes[q].Attempting? {
      CandidateExists(w, q);
    } else {
      assert Steps(w, q, Advance, After(w, q));
    }
  }

  lemma CandidateExists(w: World, q: Pid)
    requires WorldInv(w) && q in w.processes && w.processes[q].Attempting?
    ensures exists v :: Steps(w, q, Candidate(0, 0), v)
  {
    assert ProcessInv(w.store, w.processes[q]);
    assert Steps(w, q, Candidate(0, 0), Become(w, q, TryCandidate(w.processes[q], w.store.issued, 0, 0)));
  }

  lemma SomeoneCanMove(w: World, p: Pid) returns (q: Pid)
    requires WorldInv(w) && p in w.processes && Busy(w.processes[p])
    requires forall r :: r in w.processes && w.processes[r].UpdateReady? ==> FreshCommand(w.processes[r].cmd, Base(w.processes[r].document))
    ensures q in w.processes && Busy(w.processes[q]) && (Enabled(w, q) || w.processes[q].Attempting?)
  {
    hide FreshCommand, StoreInv, ValidState;
    if w.ledger.writer.Some? {
      q := w.ledger.writer.value;
    } else if w.ledger.readers != {} {
      q := SomeMember(w.ledger.readers);
    } else if w.ca.writer.Some? {
      q := w.ca.writer.value;
    } else if w.ca.readers != {} {
      q := SomeMember(w.ca.readers);
    } else {
      q := p;
    }
    CanMove(w, q);
  }

  lemma CanMove(w: World, q: Pid)
    requires WorldInv(w) && q in w.processes && Busy(w.processes[q])
    requires w.processes[q].UpdateReady? ==> FreshCommand(w.processes[q].cmd, Base(w.processes[q].document))
    requires w.ledger.writer == Some(q) || w.ledger.writer.None?
    requires q in w.ledger.readers || w.ledger.writer == Some(q) || w.ledger.readers == {}
    requires WritesLedger(w.processes[q]) || ReadsLedger(w.processes[q]) || WritesCa(w.processes[q]) || ReadsCa(w.processes[q])
          || (w.ca.writer.None? && w.ca.readers == {})
    ensures Enabled(w, q) || w.processes[q].Attempting?
  {
    hide FreshCommand;
    assert ProcessInv(w.store, w.processes[q]);
  }

  /** A call between taking and giving back the exclusive lock of the document. */
  predicate Updating(q: Process) {
    match q
    case UpdateLocked(_, _) => true
    case UpdateLoaded(_, _, _) => true
    case UpdateReady(_, _, _) => true
    case Scanning(_, _, _, _, _, _) => true
    case ScanningLocked(_, _, _, _, _, _) => true
    case UpdateWriting(_, _, _, _) => true
    case UpdateDone => true
    case _ => false
  }

  /** A signer between taking and giving back the shared lock of the document. */
  predicate Appending(q: Process) {
    match q
    case AppendShared(_, _, _, _, _, _) => true
    case AppendChecked(_, _, _, _, _, _, _) => true
    case AppendLocked(_, _, _, _, _, _, _) => true
    case AppendWriting(_, _, _, _, _, _, _) => true
    case AppendWritten(_, _, _, _, _) => true
    case AppendReleasing(_, _, _, _, _, _) => true
    case _ => false
  }

  /** A signer that tests and writes the ledger. */
  predicate WritingLedger(q: Process) {
    match q
    case AppendLocked(_, _, _, _, _, _, _) => true
    case AppendWriting(_, _, _, _, _, _, _) => true
    case AppendWritten(_, _, _, _, _) => true
    case _ => false
  }

  /** A call or a signer that reads a page of the ledger. */
  predicate ReadingLedger(q: Process) {
    match q
    case ScanningLocked(_, _, _, _, _, _) => true
    case LedgerCheckingLocked(_, _, _, _, _, _) => true
    case _ => false
  }

  /** In every interleaving a call that updates the document excludes all other updates and all
      appends, and a signer that writes the ledger excludes all other writers and all readers. */
  lemma ExclusionInEveryInterleaving(run: seq<World>, moves: seq<Move>, i: nat, p: Pid, q: Pid)
    requires IsProtocolRun(run, moves) && i < |run| && p in run[i].processes && q in run[i].processes && p != q
    ensures var x, y := run[i].processes[p], run[i].processes[q];
            && (Updating(x) ==> !Updating(y) && !Appending(y))
            && (WritingLedger(x) ==> !WritingLedger(y) && !ReadingLedger(y))
  {
    hide IsProtocolRun, WorldInv;
    WorldInvAlways(run, moves, i);
    Excluded(run[i], p, q);
  }

  lemma Excluded(w: World, p: Pid, q: Pid)
    requires WorldInv(w) && p in w.processes && q in w.processes && p != q
    ensures var x, y := w.processes[p], w.processes[q];
            && (Updating(x) ==> !Updating(y) && !Appending(y))
            && (WritingLedger(x) ==> !WritingLedger(y) && !ReadingLedger(y))
  {
    hide StoreInv, LedgerMode, ProcessInv;
    assert LockInv(w);
  }
}
