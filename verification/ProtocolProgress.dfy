/** What a process of the locked protocol gets done when the others leave the locks free: an update
    and a signature end exactly as the atomic operations do, and a refused append is tried again. */
module ProtocolProgress {
  import opened Wrappers
  import opened Certificates
  import opened Policy
  import opened Authority
  import opened AuthorityInvariant
  import opened AuthorityOutcomes
  import opened Lifecycle
  import opened LedgerPaging
  import opened Signing
  import opened Protocol
  import opened ProtocolInvariant
  import opened IssuerManagers
  import opened SigningOutcomes
  import ProtocolSafety

  // ----- moves of one process -----

  ghost predicate Reaches(w: World, p: Pid, v: World, n: nat)
    decreases n
  {
    if n == 0 then v == w
    else exists e: Event, u: World :: (e.Advance? || e.Candidate?) && Steps(w, p, e, u) && Reaches(u, p, v, n - 1)
  }

  /** The process gets from one world to the other by its own steps. */
  ghost predicate Alone(w: World, p: Pid, v: World) {
    exists n: nat :: Reaches(w, p, v, n)
  }

  lemma AloneStays(w: World, p: Pid)
    ensures Alone(w, p, w)
  {
    assert Reaches(w, p, w, 0);
  }

  lemma AloneStep(w: World, p: Pid, e: Event, v: World)
    requires (e.Advance? || e.Candidate?) && Steps(w, p, e, v)
    ensures Alone(w, p, v)
  {
    hide Steps;
    assert Reaches(v, p, v, 0);
    assert Reaches(w, p, v, 1);
  }

  lemma {:induction false} ReachesOn(w: World, p: Pid, u: World, v: World, m: nat, n: nat)
    requires Reaches(w, p, u, m) && Reaches(u, p, v, n)
    ensures Reaches(w, p, v, m + n)
    decreases m
  {
    hide Steps;
    if m > 0 {
      var e: Event, x: World :| (e.Advance? || e.Candidate?) && Steps(w, p, e, x) && Reaches(x, p, u, m - 1);
      ReachesOn(x, p, u, v, m - 1, n);
    }
  }

  lemma AloneOn(w: World, p: Pid, u: World, v: World)
    requires Alone(w, p, u) && Alone(u, p, v)
    ensures Alone(w, p, v)
  {
    var m: nat :| Reaches(w, p, u, m);
    var n: nat :| Reaches(u, p, v, n);
    ReachesOn(w, p, u, v, m, n);
  }

  /** Where a process is: its own state, and what it shares with the others. */
  datatype Place = Place(process: Process, store: Store, ca: Flock, ledger: Flock)

  /** The world with the process at this place and the others as in w. */
  function At(w: World, p: Pid, x: Place): World {
    World(x.store, x.ca, x.ledger, w.processes[p := x.process])
  }

  /** The process gets from one place to the other by its own steps, whatever the others are. */
  ghost predicate Leads(w: World, p: Pid, x: Place, y: Place) {
    Alone(At(w, p, x), p, At(w, p, y))
  }

  lemma LeadsOn(w: World, p: Pid, x: Place, y: Place, z: Place)
    requires Leads(w, p, x, y) && Leads(w, p, y, z)
    ensures Leads(w, p, x, z)
  {
    hide Alone, At;
    AloneOn(At(w, p, x), p, At(w, p, y), At(w, p, z));
  }

  lemma LeadsNowhere(w: World, p: Pid, x: Place)
    ensures Leads(w, p, x, x)
  {
    hide Alone, At;
    AloneStays(At(w, p, x), p);
  }

  /** One step of the process itself. */
  lemma Advances(w: World, p: Pid, x: Place, y: Place)
    requires Enabled(At(w, p, x), p) && After(At(w, p, x), p) == At(w, p, y)
    ensures Leads(w, p, x, y)
  {
    var u := At(w, p, x);
    hide Alone, After, Enabled;
    AloneStep(u, p, Advance, At(w, p, y));
  }

  lemma BecomeAt(w: World, p: Pid, x: Place, q: Process)
    ensures Become(At(w, p, x), p, q) == At(w, p, x.(process := q))
  {
    assert w.processes[p := x.process][p := q] == w.processes[p := q];
  }

  const FREE := Flock(None, {})

  predicate LocksFree(x: Place) {
    x.ca == FREE && x.ledger == FREE
  }

  // ----- one append -----

  /** The record was made for a document that has been replaced since. */
  predicate Outdated(s: AuthorityState, r: LedgerRecord) {
    s.revision != r.authorityRevision || r.issuer !in s.issuers || s.issuers[r.issuer].activeVersion != r.issuerVersion
  }

  lemma AppendExactly(s: AuthorityState, r: LedgerRecord)
    ensures CheckAppend(s, r) == if Outdated(s, r) then Err(Conflict) else if !WellFormed(r) then Err(Corrupt) else Ok(())
  {
  }

  /** The ledger has a record with this serial under this issuer version, or of these bytes. */
  predicate Known(ledger: seq<LedgerRecord>, r: LedgerRecord) {
    exists i :: 0 <= i < |ledger|
      && ((ledger[i].issuer == r.issuer && ledger[i].issuerVersion == r.issuerVersion && ledger[i].serial == r.serial)
          || ledger[i].fingerprint == r.fingerprint)
  }

  predicate Blocked(ledger: seq<LedgerRecord>, r: LedgerRecord) {
    exists i :: 0 <= i < |ledger| && Clashes(ledger[i], r)
  }

  lemma KnownIsTaken(ledger: seq<LedgerRecord>, r: LedgerRecord)
    ensures Known(ledger, r) <==> Blocked(ledger, r)
    ensures Known(ledger, r) <==> Taken(ledger, r)
  {
  }

  lemma ShareStep(w: World, p: Pid, x: Place)
    requires x.process.AppendWaiting? && x.ca == FREE
    ensures var q := x.process;
            Leads(w, p, x, x.(process := AppendShared(q.slug, q.name, q.loaded, q.job, q.attempt, q.record), ca := Flock(None, {p})))
  {
    hide Leads;
    var q := x.process;
    var y := x.(process := AppendShared(q.slug, q.name, q.loaded, q.job, q.attempt, q.record), ca := Flock(None, {p}));
    BecomeAt(w, p, x.(ca := Flock(None, {p})), y.process);
    assert FREE.readers + {p} == {p};
    Advances(w, p, x, y);
  }

  lemma LoadStep(w: World, p: Pid, x: Place)
    requires x.process.AppendShared?
    ensures Leads(w, p, x, x.(process := LoadForAppend(x.process, x.store.document)))
  {
    hide Leads, LoadForAppend;
    BecomeAt(w, p, x, LoadForAppend(x.process, x.store.document));
    Advances(w, p, x, x.(process := LoadForAppend(x.process, x.store.document)));
  }

  lemma LockStep(w: World, p: Pid, x: Place)
    requires x.process.AppendChecked? && x.ledger == FREE
    ensures var q := x.process;
            Leads(w, p, x, x.(process := AppendLocked(q.slug, q.name, q.loaded, q.job, q.attempt, q.record, q.state), ledger := Flock(Some(p), {})))
  {
    hide Leads;
    var q := x.process;
    var y := x.(process := AppendLocked(q.slug, q.name, q.loaded, q.job, q.attempt, q.record, q.state), ledger := Flock(Some(p), {}));
    BecomeAt(w, p, x.(ledger := Flock(Some(p), {})), y.process);
    Advances(w, p, x, y);
  }

  lemma TestStep(w: World, p: Pid, x: Place)
    requires x.process.AppendLocked? && x.ledger == Flock(Some(p), {})
    ensures var q, issued := x.process, x.store.issued;
            var refused := AppendReleasing(q.slug, q.name, q.loaded, q.job, q.attempt,
                                           Refused(if !LedgerReadable(issued) then Corrupt else Conflict));
            Leads(w, p, x,
                  if !LedgerReadable(issued) || Blocked(issued, q.record) then x.(process := refused, ledger := FREE)
                  else x.(process := AppendWriting(q.slug, q.name, q.loaded, q.job, q.attempt, q.record, q.state)))
  {
    hide Leads, LedgerReadable, Clashes;
    var q, issued := x.process, x.store.issued;
    var refused := AppendReleasing(q.slug, q.name, q.loaded, q.job, q.attempt,
                                   Refused(if !LedgerReadable(issued) then Corrupt else Conflict));
    var writing := AppendWriting(q.slug, q.name, q.loaded, q.job, q.attempt, q.record, q.state);
    BecomeAt(w, p, x.(ledger := FREE), refused);
    BecomeAt(w, p, x, writing);
    Advances(w, p, x,
             if !LedgerReadable(issued) || Blocked(issued, q.record) then x.(process := refused, ledger := FREE) else x.(process := writing));
  }

  lemma WriteStep(w: World, p: Pid, x: Place)
    requires x.process.AppendWriting? && x.ledger == Flock(Some(p), {})
    ensures var q := x.process;
            Leads(w, p, x, x.(process := AppendReleasing(q.slug, q.name, q.loaded, q.job, q.attempt, Recorded), ledger := FREE,
                              store := x.store.(issued := x.store.issued + [q.record])))
  {
    hide Leads;
    var q := x.process;
    var y := x.(process := AppendWritten(q.slug, q.name, q.loaded, q.job, q.attempt),
                store := x.store.(issued := x.store.issued + [q.record]));
    BecomeAt(w, p, x, y.process);
    Advances(w, p, x, y);
    var z := y.(process := AppendReleasing(q.slug, q.name, q.loaded, q.job, q.attempt, Recorded), ledger := FREE);
    BecomeAt(w, p, y.(ledger := FREE), z.process);
    Advances(w, p, y, z);
    LeadsOn(w, p, x, y, z);
  }

  /** Giving the shared lock back: a conflict goes on to the retry, anything else ends the call. */
  lemma ReleaseStep(w: World, p: Pid, x: Place)
    requires x.process.AppendReleasing?
    ensures var q := x.process;
            Leads(w, p, x, x.(process := if q.outcome == Refused(Conflict) then Retrying(q.slug, q.name, q.loaded, q.job, q.attempt)
                                         else Manager(q.slug, q.name, q.loaded),
                              ca := Flock(x.ca.writer, x.ca.readers - {p})))
  {
    hide Leads;
    var y := x.(process := Decide(x.process), ca := Flock(x.ca.writer, x.ca.readers - {p}));
    BecomeAt(w, p, x.(ca := y.ca), y.process);
    Advances(w, p, x, y);
  }

  /** Under both locks the ledger is read, and the record written if it is new. */
  lemma AppendWrites(w: World, p: Pid, x: Place) returns (y: Place)
    requires x.process.AppendChecked? && x.ca == Flock(None, {p}) && x.ledger == FREE
    ensures Leads(w, p, x, y) && LocksFree(y)
    ensures var q, a := x.process, x.store;
            var again := Retrying(q.slug, q.name, q.loaded, q.job, q.attempt);
            var ended := Manager(q.slug, q.name, q.loaded);
            if !LedgerReadable(a.issued) then y.store == a && y.process == ended
            else if Blocked(a.issued, q.record) then y.store == a && y.process == again
            else y.store == a.(issued := a.issued + [q.record]) && y.process == ended
  {
    hide Leads, LedgerReadable, Blocked;
    var q, a := x.process, x.store;
    LockStep(w, p, x);
    var locked := x.(process := AppendLocked(q.slug, q.name, q.loaded, q.job, q.attempt, q.record, q.state), ledger := Flock(Some(p), {}));
    TestStep(w, p, locked);
    var done: Place;
    if !LedgerReadable(a.issued) || Blocked(a.issued, q.record) {
      done := x.(process := AppendReleasing(q.slug, q.name, q.loaded, q.job, q.attempt,
                                            Refused(if !LedgerReadable(a.issued) then Corrupt else Conflict)));
      assert done == locked.(process := done.process, ledger := FREE);
      LeadsOn(w, p, x, locked, done);
    } else {
      var writing := locked.(process := AppendWriting(q.slug, q.name, q.loaded, q.job, q.attempt, q.record, q.state));
      LeadsOn(w, p, x, locked, writing);
      WriteStep(w, p, writing);
      done := x.(process := AppendReleasing(q.slug, q.name, q.loaded, q.job, q.attempt, Recorded), store := a.(issued := a.issued + [q.record]));
      assert done == writing.(process := done.process, ledger := FREE, store := done.store);
      LeadsOn(w, p, x, writing, done);
    }
    ReleaseStep(w, p, done);
    y := done.(process := if done.process.outcome == Refused(Conflict) then Retrying(q.slug, q.name, q.loaded, q.job, q.attempt)
                          else Manager(q.slug, q.name, q.loaded), ca := FREE);
    assert {p} - {p} == {};
    LeadsOn(w, p, x, done, y);
  }

  /** An append that is not disturbed: a record of the current revision and active version, in order
      and new to a readable ledger, is appended; an outdated or a known one is tried again; anything
      else ends the call. */
  lemma AppendAlone(w: World, p: Pid, x: Place) returns (y: Place)
    requires x.process.AppendWaiting? && LocksFree(x)
    requires x.store.document.Some? && ValidState(x.store.document.value)
    ensures Leads(w, p, x, y) && LocksFree(y)
    ensures var q, a := x.process, x.store;
            var s, r := a.document.value, q.record;
            var again := Retrying(q.slug, q.name, q.loaded, q.job, q.attempt);
            var ended := Manager(q.slug, q.name, q.loaded);
            if Outdated(s, r) then y.store == a && y.process == again
            else if !WellFormed(r) || exists i :: 0 <= i < |a.issued| && !WellFormed(a.issued[i]) then y.store == a && y.process == ended
            else if Known(a.issued, r) then y.store == a && y.process == again
            else y.store == a.(issued := a.issued + [r]) && y.process == ended
  {
    hide Leads, ValidState, CheckAppend, WellFormed, LedgerReadable, Outdated, Known, Blocked, Taken;
    var q, a := x.process, x.store;
    AppendExactly(a.document.value, q.record);
    ReadableExactly(a.issued);
    KnownIsTaken(a.issued, q.record);
    ShareStep(w, p, x);
    var shared := x.(process := AppendShared(q.slug, q.name, q.loaded, q.job, q.attempt, q.record), ca := Flock(None, {p}));
    LoadStep(w, p, shared);
    var checked := shared.(process := LoadForAppend(shared.process, a.document));
    LeadsOn(w, p, x, shared, checked);
    if CheckAppend(a.document.value, q.record).Ok? {
      y := AppendWrites(w, p, checked);
      LeadsOn(w, p, x, checked, y);
    } else {
      ReleaseStep(w, p, checked);
      y := checked.(process := if checked.process.outcome == Refused(Conflict) then Retrying(q.slug, q.name, q.loaded, q.job, q.attempt)
                               else Manager(q.slug, q.name, q.loaded), ca := FREE);
      assert {p} - {p} == {};
      LeadsOn(w, p, x, checked, y);
    }
  }

  // ----- trying again -----

  lemma RetryStep(w: World, p: Pid, x: Place)
    requires x.process.Retrying?
    ensures Leads(w, p, x, x.(process := Retry(x.process, x.store.document)))
  {
    hide Leads, Retry;
    BecomeAt(w, p, x, Retry(x.process, x.store.document));
    Advances(w, p, x, x.(process := Retry(x.process, x.store.document)));
  }

  lemma RetryReloadStep(w: World, p: Pid, x: Place)
    requires x.process.RetryReloading?
    ensures Leads(w, p, x, x.(process := RetryReload(x.process, x.store.document)))
  {
    hide Leads, RetryReload;
    BecomeAt(w, p, x, RetryReload(x.process, x.store.document));
    Advances(w, p, x, x.(process := RetryReload(x.process, x.store.document)));
  }

  /** After a conflict another attempt follows: at once while the document is the one the material
      came from, otherwise with the reloaded material, unless the issuer is gone or the job no longer
      ends five minutes before its certificate. */
  lemma RetryGoesOn(w: World, p: Pid, x: Place) returns (y: Place)
    requires x.process.Retrying?
    requires x.store.document.Some? && ValidState(x.store.document.value)
    ensures Leads(w, p, x, y)
    ensures var q, s := x.process, x.store.document.value;
            y == x.(process :=
              if s.revision == q.loaded.revision then Attempting(q.slug, q.name, q.loaded, q.job, q.attempt + 1)
              else if !(q.slug in s.issuers && s.issuers[q.slug].definition.name == q.name) then Manager(q.slug, q.name, q.loaded)
              else var m := Load(s, q.slug, q.name).value;
                   if q.job.notAfter + 300_000_000_000 <= m.version.certificate.notAfter
                   then Attempting(q.slug, q.name, m, q.job, q.attempt + 1)
                   else Manager(q.slug, q.name, m))
  {
    hide Leads, ValidState, Load;
    var q, s := x.process, x.store.document.value;
    LoadExactly(s, q.slug, q.name);
    RetryStep(w, p, x);
    y := x.(process := Retry(q, x.store.document));
    if s.revision != q.loaded.revision {
      var reloading := y;
      RetryReloadStep(w, p, reloading);
      y := reloading.(process := RetryReload(reloading.process, x.store.document));
      LeadsOn(w, p, x, reloading, y);
    }
  }

  /** A refused append never ends the call by itself: releasing the lock and retrying lead to the next
      attempt while the document stays as the material knows it. */
  lemma ConflictGoesOn(w: World, p: Pid, x: Place) returns (y: Place)
    requires x.process.AppendReleasing? && x.process.outcome == Refused(Conflict)
    requires x.store.document.Some? && ValidState(x.store.document.value)
    requires x.store.document.value.revision == x.process.loaded.revision
    ensures var q := x.process;
            y == x.(process := Attempting(q.slug, q.name, q.loaded, q.job, q.attempt + 1), ca := Flock(x.ca.writer, x.ca.readers - {p}))
    ensures Leads(w, p, x, y)
  {
    hide Leads, ValidState, Load;
    var q := x.process;
    ReleaseStep(w, p, x);
    var u := x.(process := Retrying(q.slug, q.name, q.loaded, q.job, q.attempt), ca := Flock(x.ca.writer, x.ca.readers - {p}));
    y := RetryGoesOn(w, p, u);
    LeadsOn(w, p, x, u, y);
  }

  lemma CandidateStep(w: World, p: Pid, x: Place, d: Draw)
    requires x.process.Attempting? && x.process.loaded.version.key.Some?
    ensures Leads(w, p, x, x.(process := TryCandidate(x.process, x.store.issued, d.serial, d.raw)))
  {
    hide TryCandidate, Alone;
    var q := TryCandidate(x.process, x.store.issued, d.serial, d.raw);
    BecomeAt(w, p, x, q);
    AloneStep(At(w, p, x), p, Candidate(d.serial, d.raw), At(w, p, x.(process := q)));
  }

  predicate HasSerial(ledger: seq<LedgerRecord>, slug: Slug, version: int, serial: nat) {
    exists i :: 0 <= i < |ledger| && ledger[i].issuer == slug && ledger[i].issuerVersion == version && ledger[i].serial == serial
  }

  /** One of eight attempts: a serial that is taken costs the attempt, a free one goes into a record
      that waits to be appended. */
  lemma AttemptGoesOn(w: World, p: Pid, x: Place, d: Draw) returns (y: Place)
    requires x.process.Attempting? && x.process.loaded.version.key.Some?
    ensures Leads(w, p, x, y)
    ensures var q, ledger := x.process, x.store.issued;
            y == x.(process :=
              if q.attempt >= 8 || exists i :: 0 <= i < |ledger| && !WellFormed(ledger[i]) then Manager(q.slug, q.name, q.loaded)
              else if HasSerial(ledger, q.slug, q.loaded.version.version, d.serial)
              then Attempting(q.slug, q.name, q.loaded, q.job, q.attempt + 1)
              else AppendWaiting(q.slug, q.name, q.loaded, q.job, q.attempt, RecordOf(q.slug, q.loaded, q.job, d)))
  {
    hide Leads, WellFormed, LedgerReadable, MakeRecord, MakeLeaf;
    ReadableExactly(x.store.issued);
    CandidateStep(w, p, x, d);
    y := x.(process := TryCandidate(x.process, x.store.issued, d.serial, d.raw));
  }

  // ----- a whole signature -----

  /** An append and, where it met a conflict, the step back into the loop. */
  lemma AppendOrAgain(w: World, p: Pid, x: Place) returns (y: Place)
    requires x.process.AppendWaiting? && LocksFree(x)
    requires x.store.document.Some? && ValidState(x.store.document.value) && LedgerReadable(x.store.issued)
    requires x.store.document.value.revision == x.process.loaded.revision
    ensures Leads(w, p, x, y) && LocksFree(y)
    ensures var q, a := x.process, x.store;
            var checked := CheckAppend(a.document.value, q.record);
            var next := Attempting(q.slug, q.name, q.loaded, q.job, q.attempt + 1);
            var ended := Manager(q.slug, q.name, q.loaded);
            if checked.Err? && checked.error != Conflict then y.store == a && y.process == ended
            else if checked.Err? || Taken(a.issued, q.record) then y.store == a && y.process == next
            else y.store == a.(issued := a.issued + [q.record]) && y.process == ended
  {
    hide Leads, ValidState, CheckAppend, WellFormed, LedgerReadable, Outdated, Known, Taken, Load, Blocked;
    var q, a := x.process, x.store;
    ReadableExactly(a.issued);
    AppendExactly(a.document.value, q.record);
    KnownIsTaken(a.issued, q.record);
    y := AppendAlone(w, p, x);
    if y.process.Retrying? {
      var u := y;
      y := RetryGoesOn(w, p, u);
      LeadsOn(w, p, x, u, y);
    }
  }

  /** One round of the signing loop while the document stays as the material knows it. */
  lemma OneAttempt(w: World, p: Pid, x: Place, d: Draw) returns (y: Place)
    requires x.process.Attempting? && x.process.attempt < 8 && LocksFree(x) && x.process.loaded.version.key.Some?
    requires x.store.document.Some? && ValidState(x.store.document.value)
    requires x.store.document.value.revision == x.process.loaded.revision
    ensures Leads(w, p, x, y) && LocksFree(y)
    ensures var q, a := x.process, x.store;
            var r := RecordOf(q.slug, q.loaded, q.job, d);
            var checked := CheckAppend(a.document.value, r);
            var next := Attempting(q.slug, q.name, q.loaded, q.job, q.attempt + 1);
            var ended := Manager(q.slug, q.name, q.loaded);
            if !LedgerReadable(a.issued) then y.store == a && y.process == ended
            else if HasSerial(a.issued, q.slug, q.loaded.version.version, d.serial) then y.store == a && y.process == next
            else if checked.Err? && checked.error != Conflict then y.store == a && y.process == ended
            else if checked.Err? || Taken(a.issued, r) then y.store == a && y.process == next
            else y.store == a.(issued := a.issued + [r]) && y.process == ended
  {
    hide Leads, ValidState, CheckAppend, WellFormed, LedgerReadable, RecordOf, Taken, HasSerial;
    ReadableExactly(x.store.issued);
    y := AttemptGoesOn(w, p, x, d);
    if y.process.AppendWaiting? {
      var u := y;
      y := AppendOrAgain(w, p, u);
      LeadsOn(w, p, x, u, y);
    }
  }

  /** The atomic loop, one round. */
  lemma WinnerUnfolds(s: AuthorityState, ledger: seq<LedgerRecord>, slug: Slug, m: Loaded, job: Job, draws: Draws, k: nat)
    requires m.version.key.Some? && k < 8
    ensures var r := RecordOf(slug, m, job, draws(k));
            var checked := CheckAppend(s, r);
            Winner(s, ledger, slug, m, job, draws, k) ==
            if !LedgerReadable(ledger) then Err(Corrupt)
            else if HasSerial(ledger, slug, m.version.version, draws(k).serial) then Winner(s, ledger, slug, m, job, draws, k + 1)
            else if checked.Err? && checked.error != Conflict then Err(checked.error)
            else if checked.Err? || Taken(ledger, r) then Winner(s, ledger, slug, m, job, draws, k + 1)
            else Ok(k)
  {
    var r := RecordOf(slug, m, job, draws(k));
    RecordSerial(slug, m, job, draws(k));
    hide CheckAppend, RecordOf, LedgerReadable, Taken;
    assert HasSerial(ledger, slug, m.version.version, draws(k).serial) <==> exists i :: 0 <= i < |ledger| && SameSerial(ledger[i], r);
    hide HasSerial, SameSerial;
  }

  /** The signing loop alone ends as the atomic loop does: with the record of the first draw that
      wins, or with nothing. */
  lemma {:induction false} AttemptsAlone(w: World, p: Pid, x: Place, draws: Draws) returns (y: Place)
    requires x.process.Attempting? && LocksFree(x) && x.process.loaded.version.key.Some?
    requires x.store.document.Some? && ValidState(x.store.document.value)
    requires x.store.document.value.revision == x.process.loaded.revision
    ensures Leads(w, p, x, y) && LocksFree(y)
    ensures var q, a := x.process, x.store;
            var won := Winner(a.document.value, a.issued, q.slug, q.loaded, q.job, draws, q.attempt);
            && y.process == Manager(q.slug, q.name, q.loaded)
            && y.store == if won.Err? then a else a.(issued := a.issued + [RecordOf(q.slug, q.loaded, q.job, draws(won.value))])
    decreases 8 - x.process.attempt
  {
    hide Leads, ValidState, CheckAppend, WellFormed, LedgerReadable, RecordOf, Taken, HasSerial;
    var q := x.process;
    if q.attempt >= 8 {
      y := AttemptGoesOn(w, p, x, draws(q.attempt));
    } else {
      WinnerUnfolds(x.store.document.value, x.store.issued, q.slug, q.loaded, q.job, draws, q.attempt);
      hide Winner;
      y := OneAttempt(w, p, x, draws(q.attempt));
      if y.process.Attempting? {
        var u := y;
        y := AttemptsAlone(w, p, u, draws);
        LeadsOn(w, p, x, u, y);
      }
    }
  }

  /** Reading one page under the shared ledger lock. */
  lemma PageStep(w: World, p: Pid, x: Place)
    requires x.process.LedgerChecking? && x.ledger == FREE
    ensures var q := x.process;
            var locked := LedgerCheckingLocked(q.slug, q.name, q.loaded, q.request, q.state, q.all);
            Leads(w, p, x, x.(process := CheckPage(locked, x.store.issued, x.store.now)))
  {
    hide Leads, CheckPage;
    var q := x.process;
    var y := x.(process := LedgerCheckingLocked(q.slug, q.name, q.loaded, q.request, q.state, q.all), ledger := Flock(None, {p}));
    BecomeAt(w, p, x.(ledger := y.ledger), y.process);
    assert FREE.readers + {p} == {p};
    Advances(w, p, x, y);
    var z := x.(process := CheckPage(y.process, x.store.issued, x.store.now));
    BecomeAt(w, p, y.(ledger := FREE), z.process);
    assert {p} - {p} == {};
    Advances(w, p, y, z);
    LeadsOn(w, p, x, y, z);
  }

  /** The ledger check of a signer: page by page, and then the decision over the whole ledger. */
  lemma {:induction false} PagesAlone(w: World, p: Pid, x: Place) returns (y: Place)
    requires x.process.LedgerChecking? && LocksFree(x) && x.process.all <= x.store.issued
    ensures Leads(w, p, x, y)
    ensures var q, a := x.process, x.store;
            var made := MakeJob(q.loaded, q.request, a.now);
            y == x.(process := if LedgerReadable(a.issued) && LedgerAccepted(q.state, a.issued) && made.Ok?
                               then Attempting(q.slug, q.name, q.loaded, made.value, 0) else Manager(q.slug, q.name, q.loaded))
    decreases |x.store.issued| - |x.process.all|
  {
    hide Leads, LedgerReadable, LedgerAccepted, MakeJob;
    var q, a := x.process, x.store;
    PageExtends(a.issued, |q.all|, PAGE_SIZE);
    assert a.issued[..|q.all|] == q.all;
    PageStep(w, p, x);
    y := x.(process := CheckPage(LedgerCheckingLocked(q.slug, q.name, q.loaded, q.request, q.state, q.all), a.issued, a.now));
    if LedgerReadable(a.issued) {
      var page := ListLedger(a.issued, |q.all|, PAGE_SIZE).value;
      if page.next.Some? {
        var u := y;
        y := PagesAlone(w, p, u);
        LeadsOn(w, p, x, u, y);
      } else {
        assert q.all + page.records == a.issued;
      }
    }
  }

  lemma CheckStep(w: World, p: Pid, x: Place)
    requires x.process.SignChecking?
    ensures Leads(w, p, x, x.(process := CheckDocument(x.process, x.store.document)))
  {
    hide Leads, CheckDocument;
    BecomeAt(w, p, x, CheckDocument(x.process, x.store.document));
    Advances(w, p, x, x.(process := CheckDocument(x.process, x.store.document)));
  }

  lemma ReloadStep(w: World, p: Pid, x: Place)
    requires x.process.SignReloading?
    ensures Leads(w, p, x, x.(process := ReloadAndCheck(x.process, x.store.document)))
  {
    hide Leads, ReloadAndCheck;
    BecomeAt(w, p, x, ReloadAndCheck(x.process, x.store.document));
    Advances(w, p, x, x.(process := ReloadAndCheck(x.process, x.store.document)));
  }

  /** Before the ledger check the manager has the current material, reloaded if it had an older one. */
  lemma ChecksAlone(w: World, p: Pid, x: Place) returns (y: Place)
    requires x.process.SignChecking? && LoadedInv(x.store, x.process.slug, x.process.name, x.process.loaded)
    ensures Leads(w, p, x, y)
    ensures var q, s := x.process, x.store.document.value;
            && Load(s, q.slug, q.name).Ok?
            && y == x.(process := LedgerChecking(q.slug, q.name, Load(s, q.slug, q.name).value, q.request, s, []))
  {
    hide Leads, ValidState, Load, Sound;
    var q, s := x.process, x.store.document.value;
    LoadExactly(s, q.slug, q.name);
    CheckStep(w, p, x);
    y := x.(process := CheckDocument(q, x.store.document));
    if s.revision != q.loaded.revision {
      var u := y;
      ReloadStep(w, p, u);
      y := u.(process := ReloadAndCheck(u.process, x.store.document));
      LeadsOn(w, p, x, u, y);
    }
  }

  /** Where the process is. */
  function Here(w: World, p: Pid): Place
    requires p in w.processes
  {
    Place(w.processes[p], w.store, w.ca, w.ledger)
  }

  lemma HereIsWorld(w: World, p: Pid, y: Place)
    requires p in w.processes && Leads(w, p, Here(w, p), y)
    ensures Alone(w, p, At(w, p, y))
  {
    assert At(w, p, Here(w, p)) == w;
  }

  /** Nobody holds a lock. */
  predicate Quiet(w: World) {
    w.ca == FREE && w.ledger == FREE
  }

  /** The store and the process after a signing call, as the atomic SignCSR has them; the locks are
      free again and the others are where they were. */
  ghost predicate EndsAsSigned(w: World, p: Pid, draws: Draws, v: World)
    requires p in w.processes && w.processes[p].SignChecking?
  {
    var q, a := w.processes[p], w.store;
    var signed := Signed(a.document, a.issued, q.name, q.request, a.now, draws);
    && a.document.Some? && ValidState(a.document.value) && Load(a.document.value, q.slug, q.name).Ok?
    && var m := Load(a.document.value, q.slug, q.name).value;
       && Quiet(v) && v.processes == w.processes[p := Manager(q.slug, q.name, m)]
       && (signed.Ok? ==> signed.value.0 == m && m.version.key.Some?)
       && v.store == if signed.Err? then a else a.(issued := a.issued + [RecordOf(q.slug, m, signed.value.1, signed.value.2)])
  }

  /** A signing call that is not disturbed does what the atomic SignCSR does: it appends the record
      of the leaf that is signed, or nothing, and the manager keeps the current material. */
  lemma SigningAlone(w: World, p: Pid, draws: Draws) returns (v: World)
    requires WorldInv(w) && p in w.processes && w.processes[p].SignChecking? && Quiet(w)
    requires w.processes[p].slug == SlugOf(w.processes[p].name)
    ensures Alone(w, p, v) && EndsAsSigned(w, p, draws, v)
  {
    hide WorldInv, Leads, Alone, At, Inv, ValidState, Load, MakeJob, Winner, RecordOf, LedgerReadable, LedgerAccepted, Signed, Sound,
         LoadedInv, EndsAsSigned, SlugOf;
    KnowsLoaded(w, p);
    var x := Here(w, p);
    var q, a := x.process, x.store;
    var s := a.document.value;
    SignedParts(s, a.issued, q.name, q.request, a.now, draws);
    var u := ChecksAlone(w, p, x);
    LoadSound(s, q.slug);
    LoadedIsCurrent(s, q.slug, q.name);
    var y := PagesAlone(w, p, u);
    LeadsOn(w, p, x, u, y);
    if y.process.Attempting? {
      u := y;
      y := AttemptsAlone(w, p, u, draws);
      LeadsOn(w, p, x, u, y);
    }
    HereIsWorld(w, p, y);
    v := At(w, p, y);
    SignedHere(w, p, draws, y);
  }

  lemma SignedHere(w: World, p: Pid, draws: Draws, y: Place)
    requires p in w.processes && w.processes[p].SignChecking? && LocksFree(y)
    requires var q, a := w.processes[p], w.store;
             var signed := Signed(a.document, a.issued, q.name, q.request, a.now, draws);
             && a.document.Some? && ValidState(a.document.value) && Load(a.document.value, q.slug, q.name).Ok?
             && var m := Load(a.document.value, q.slug, q.name).value;
                && y.process == Manager(q.slug, q.name, m)
                && (signed.Ok? ==> signed.value.0 == m && m.version.key.Some?)
                && y.store == if signed.Err? then a else a.(issued := a.issued + [RecordOf(q.slug, m, signed.value.1, signed.value.2)])
    ensures EndsAsSigned(w, p, draws, At(w, p, y))
  {
    hide ValidState, Load, RecordOf, Signed;
  }

  lemma KnowsLoaded(w: World, p: Pid)
    requires WorldInv(w) && p in w.processes && w.processes[p].SignChecking?
    ensures var q := w.processes[p];
            && w.store.document.Some? && ValidState(w.store.document.value) && Inv(w.store.document.value)
            && q.slug in w.store.document.value.issuers && w.store.document.value.issuers[q.slug].definition.name == q.name
            && LoadedInv(w.store, q.slug, q.name, q.loaded)
  {
    assert ProcessInv(w.store, w.processes[p]);
    hide LockInv, ValidState, Inv, Sound, Load;
  }

  lemma LoadedIsCurrent(s: AuthorityState, slug: Slug, name: string)
    requires ValidState(s) && Load(s, slug, name).Ok?
    ensures Load(s, slug, name).value.revision == s.revision && Load(s, slug, name).value.version.key.Some?
  {
    hide ValidRoot, ValidIssuer;
  }

  // ----- a whole update -----

  lemma UpdateLockStep(w: World, p: Pid, x: Place)
    requires x.process.UpdateWaiting? && x.ca == FREE
    ensures Leads(w, p, x, x.(process := UpdateLocked(x.process.cfg, x.process.cmd), ca := Flock(Some(p), {})))
  {
    hide Leads;
    var y := x.(process := UpdateLocked(x.process.cfg, x.process.cmd), ca := Flock(Some(p), {}));
    BecomeAt(w, p, x.(ca := y.ca), y.process);
    Advances(w, p, x, y);
  }

  lemma UpdateLoadStep(w: World, p: Pid, x: Place)
    requires x.process.UpdateLocked? && (x.store.document.Some? ==> ValidState(x.store.document.value))
    ensures Leads(w, p, x, x.(process := UpdateLoaded(x.process.cfg, x.process.cmd, x.store.document)))
  {
    hide Leads, ValidState;
    var y := x.(process := UpdateLoaded(x.process.cfg, x.process.cmd, x.store.document));
    BecomeAt(w, p, x, y.process);
    Advances(w, p, x, y);
  }

  lemma UpdateCheckStep(w: World, p: Pid, x: Place)
    requires x.process.UpdateLoaded?
    ensures var q, issued := x.process, x.store.issued;
            Leads(w, p, x, x.(process :=
              if q.document.Some? && q.document.value.spec.mode == Ledger && !(LedgerReadable(issued) && LedgerAccepted(q.document.value, issued))
              then UpdateDone else UpdateReady(q.cfg, q.cmd, q.document)))
  {
    hide Leads, LedgerReadable, LedgerAccepted;
    var q, issued := x.process, x.store.issued;
    var y := x.(process :=
      if q.document.Some? && q.document.value.spec.mode == Ledger && !(LedgerReadable(issued) && LedgerAccepted(q.document.value, issued))
      then UpdateDone else UpdateReady(q.cfg, q.cmd, q.document));
    BecomeAt(w, p, x, y.process);
    Advances(w, p, x, y);
  }

  lemma ComputeStep(w: World, p: Pid, x: Place)
    requires x.process.UpdateReady? && FreshCommand(x.process.cmd, Base(x.process.document))
    ensures Leads(w, p, x, x.(process := Compute(x.process, x.store.now)))
  {
    hide Leads, Compute, FreshFor;
    BecomeAt(w, p, x, Compute(x.process, x.store.now));
    Advances(w, p, x, x.(process := Compute(x.process, x.store.now)));
  }

  lemma ScanStep(w: World, p: Pid, x: Place)
    requires x.process.Scanning? && x.ledger == FREE
    ensures var q := x.process;
            var locked := ScanningLocked(q.cfg, q.cmd, q.state, q.at, q.cursor, q.deadline);
            Leads(w, p, x, x.(process := ScanPage(locked, x.store.issued)))
  {
    hide Leads, ScanPage;
    var q := x.process;
    var y := x.(process := ScanningLocked(q.cfg, q.cmd, q.state, q.at, q.cursor, q.deadline), ledger := Flock(None, {p}));
    BecomeAt(w, p, x.(ledger := y.ledger), y.process);
    assert FREE.readers + {p} == {p};
    Advances(w, p, x, y);
    var z := x.(process := ScanPage(y.process, x.store.issued));
    BecomeAt(w, p, y.(ledger := FREE), z.process);
    assert {p} - {p} == {};
    Advances(w, p, y, z);
    LeadsOn(w, p, x, y, z);
  }

  lemma UpdateWriteStep(w: World, p: Pid, x: Place)
    requires x.process.UpdateWriting?
    ensures Leads(w, p, x, x.(process := UpdateDone, store := x.store.(document := Some(x.process.next))))
  {
    hide Leads;
    var y := x.(process := UpdateDone, store := x.store.(document := Some(x.process.next)));
    BecomeAt(w, p, x, UpdateDone);
    Advances(w, p, x, y);
  }

  lemma UpdateUnlockStep(w: World, p: Pid, x: Place)
    requires x.process.UpdateDone?
    ensures Leads(w, p, x, x.(process := Finished, ca := Flock(None, x.ca.readers)))
  {
    hide Leads;
    var y := x.(process := Finished, ca := Flock(None, x.ca.readers));
    BecomeAt(w, p, x.(ca := y.ca), Finished);
    Advances(w, p, x, y);
  }

  /** The scan of a root promotion ends with what the whole ledger gives. */
  lemma {:induction false} ScansAlone(w: World, p: Pid, x: Place) returns (y: Place)
    requires x.process.Scanning? && x.ledger == FREE
    requires var q := x.process;
             && q.state.pending.Some? && q.state.activeRoot in q.state.roots
             && q.cursor <= |x.store.issued|
             && q.deadline == LedgerDeadline(q.state, x.store.issued[..q.cursor], q.state.activeRoot)
    ensures Leads(w, p, x, y)
    ensures var q, a := x.process, x.store;
            var d := LedgerDeadline(q.state, a.issued, q.state.activeRoot);
            y == x.(process :=
              if !LedgerReadable(a.issued) then UpdateDone
              else AfterCommit(q.cfg, q.cmd, q.at, Commit(q.state, Ok(Promoted(q.state, q.state.pending.value, if d == 0 then q.at else d)))))
    decreases |x.store.issued| - x.process.cursor
  {
    hide Leads, LedgerReadable, LedgerDeadline, ScanDeadline, Promoted, Commit;
    var q, a := x.process, x.store;
    PageExtends(a.issued, q.cursor, PAGE_SIZE);
    ScanStep(w, p, x);
    y := x.(process := ScanPage(ScanningLocked(q.cfg, q.cmd, q.state, q.at, q.cursor, q.deadline), a.issued));
    if LedgerReadable(a.issued) {
      var page := ListLedger(a.issued, q.cursor, PAGE_SIZE).value;
      ScanAppend(q.state, a.issued[..q.cursor], page.records, q.state.activeRoot);
      if page.next.Some? {
        var u := y;
        y := ScansAlone(w, p, u);
        LeadsOn(w, p, x, u, y);
      } else {
        assert a.issued[..q.cursor] + page.records == a.issued;
      }
    }
  }

  /** The mutation, with the scan of the ledger where it needs one. */
  lemma ComputesAlone(w: World, p: Pid, x: Place) returns (y: Place)
    requires x.process.UpdateReady? && x.ledger == FREE
    requires DocumentInv(x.store.document) && x.process.document == x.store.document && LedgerMode(x.store)
    requires FreshCommand(x.process.cmd, Base(x.store.document)) && LedgerReadable(x.store.issued)
    ensures Leads(w, p, x, y)
    ensures var q, a := x.process, x.store;
            y == x.(process := AfterCommit(q.cfg, q.cmd, a.now, Commit(Base(a.document), Mutate(Base(a.document), q.cfg, q.cmd, a.issued, a.now))))
  {
    hide Leads, ValidState, Inv, Commit, FreshFor, LedgerReadable, LedgerDeadline, NeedsScan, Mutate;
    var q, a := x.process, x.store;
    ComputeStep(w, p, x);
    y := x.(process := Compute(q, a.now));
    if NeedsScan(a.document, q.cfg, q.cmd) {
      var s := ScannedDocument(a.document, q.cfg, q.cmd);
      assert a.issued[..0] == [];
      DeadlineOfNothing(s);
      var u := y;
      y := ScansAlone(w, p, u);
      LeadsOn(w, p, x, u, y);
      ScannedIsMutated(s, q.cfg, q.cmd, a.issued, a.now);
    } else {
      MutateIgnoresLedger(a.document, q.cfg, q.cmd, a.issued, a.now);
    }
  }

  lemma ScannedDocument(document: Option<AuthorityState>, cfg: ManagerConfig, cmd: Command) returns (s: AuthorityState)
    requires (document.Some? ==> ValidState(document.value)) && NeedsScan(document, cfg, cmd)
    ensures document == Some(s) && s.pending.Some? && s.activeRoot in s.roots
  {
    s := document.value;
    ScanStarts(s, cfg, cmd);
  }

  lemma DeadlineOfNothing(s: AuthorityState)
    ensures LedgerDeadline(s, [], s.activeRoot) == 0
  {
  }

  lemma ScannedIsMutated(s: AuthorityState, cfg: ManagerConfig, cmd: Command, ledger: seq<LedgerRecord>, now: Instant)
    requires ValidState(s) && NeedsScan(Some(s), cfg, cmd) && LedgerReadable(ledger)
    ensures s.pending.Some? && s.activeRoot in s.roots
    ensures var d := LedgerDeadline(s, ledger, s.activeRoot);
            Mutate(s, cfg, cmd, ledger, now) == Ok(Promoted(s, s.pending.value, if d == 0 then now else d))
  {
    ScanStarts(s, cfg, cmd);
    hide ValidState, Promoted, LedgerReadable, LedgerDeadline, AssertSpec;
  }

  /** The store after an update, as the atomic one has it; the call has ended, the locks are free again
      and the others are where they were. */
  ghost predicate EndsAsUpdated(w: World, p: Pid, v: World)
    requires p in w.processes && w.processes[p].UpdateWaiting?
  {
    var q, a := w.processes[p], w.store;
    && (a.document.Some? ==> ValidState(a.document.value))
    && Quiet(v) && v.processes == w.processes[p := Finished]
    && var r := Update(a.document, q.cfg, q.cmd, a.issued, a.now);
       v.store == if r.Ok? then a.(document := Some(r.value)) else a
  }

  /** An update that is not disturbed does what the atomic one does: it replaces the document by the
      one that Update computes over the whole ledger, or leaves everything as it was. */
  lemma UpdateAlone(w: World, p: Pid) returns (v: World)
    requires WorldInv(w) && p in w.processes && w.processes[p].UpdateWaiting? && Quiet(w)
    requires FreshCommand(w.processes[p].cmd, Base(w.store.document))
    ensures Alone(w, p, v) && EndsAsUpdated(w, p, v)
  {
    hide WorldInv, Leads, Alone, ValidState, Inv, Commit, Mutate, FreshFor, LedgerReadable, LedgerAccepted;
    StoreOfWorld(w);
    var x := Here(w, p);
    var q, a := x.process, x.store;
    UpdateLockStep(w, p, x);
    var y := x.(process := UpdateLocked(q.cfg, q.cmd), ca := Flock(Some(p), {}));
    UpdateLoadStep(w, p, y);
    var z := y.(process := UpdateLoaded(q.cfg, q.cmd, a.document));
    LeadsOn(w, p, x, y, z);
    UpdateCheckStep(w, p, z);
    y := z.(process := UpdateReady(q.cfg, q.cmd, a.document));
    LeadsOn(w, p, x, z, y);
    z := ComputesAlone(w, p, y);
    LeadsOn(w, p, x, y, z);
    if z.process.UpdateWriting? {
      UpdateWriteStep(w, p, z);
      y := z.(process := UpdateDone, store := a.(document := Some(z.process.next)));
      LeadsOn(w, p, x, z, y);
      z := y;
    }
    UpdateUnlockStep(w, p, z);
    y := z.(process := Finished, ca := FREE);
    LeadsOn(w, p, x, z, y);
    HereIsWorld(w, p, y);
    v := At(w, p, y);
  }

  lemma StoreOfWorld(w: World)
    requires WorldInv(w)
    ensures DocumentInv(w.store.document) && LedgerMode(w.store) && LedgerReadable(w.store.issued)
    ensures w.store.document.Some? ==> LedgerAccepted(w.store.document.value, w.store.issued)
  {
    assert StoreInv(w.store);
    hide LockInv, ProcessInv, Inv, ValidState;
    if w.store.document.Some? {
      KeptReadable(w.store);
    }
  }

  // ----- giving up -----

  predicate WaitsForLock(q: Process) {
    q.UpdateWaiting? || q.Scanning? || q.LedgerChecking? || q.AppendWaiting? || q.AppendChecked?
  }

  lemma HeldBy(w: World, p: Pid)
    requires WorldInv(w) && p in w.processes
    ensures var q := w.processes[p];
            && (w.ca.writer == Some(p) <==> WritesCa(q)) && (p in w.ca.readers <==> ReadsCa(q))
            && (w.ledger.writer == Some(p) <==> WritesLedger(q)) && (p in w.ledger.readers <==> ReadsLedger(q))
  {
    assert LockInv(w);
    hide StoreInv, LedgerMode, ProcessInv, WorldInv;
  }

  /** A call that is cancelled while it waits for a lock changes nothing, gives back the locks it has
      and ends. */
  lemma CancelledEnds(w: World, p: Pid) returns (v: World)
    requires WorldInv(w) && p in w.processes && WaitsForLock(w.processes[p])
    ensures Alone(Become(w, p, Cancelled(w.processes[p])), p, v)
    ensures v.store == w.store && p in v.processes && (v.processes[p].Finished? || v.processes[p].Manager?)
    ensures v.ca.writer == (if w.ca.writer == Some(p) then None else w.ca.writer) && v.ca.readers == w.ca.readers - {p}
    ensures v.ledger == w.ledger && v.ledger.writer != Some(p) && p !in v.ledger.readers
  {
    hide WorldInv, Leads, Alone, Reaches;
    HeldBy(w, p);
    var q := w.processes[p];
    var x := Place(Cancelled(q), w.store, w.ca, w.ledger);
    var y := x;
    if q.Scanning? {
      UpdateUnlockStep(w, p, x);
      y := x.(process := Finished, ca := Flock(None, x.ca.readers));
    } else if q.AppendChecked? {
      ReleaseStep(w, p, x);
      y := x.(process := Manager(q.slug, q.name, q.loaded), ca := Flock(x.ca.writer, x.ca.readers - {p}));
    } else {
      LeadsNowhere(w, p, x);
    }
    v := At(w, p, y);
    assert Become(w, p, Cancelled(q)) == At(w, p, x);
    LeadsMeans(w, p, x, y);
  }

  lemma LeadsMeans(w: World, p: Pid, x: Place, y: Place)
    requires Leads(w, p, x, y)
    ensures Alone(At(w, p, x), p, At(w, p, y))
  {
  }

  // ----- from the start of a call to its end -----

  /** In any reachable world in which nobody holds a lock an authority call can be started, and alone
      it ends with the store that the atomic update gives. */
  lemma UpdateCompletes(w: World, p: Pid, cfg: ManagerConfig, cmd: Command) returns (u: World, v: World)
    requires WorldInv(w) && p !in w.processes && Quiet(w) && ValidConfig(cfg) && FreshCommand(cmd, Base(w.store.document))
    requires w.store.document.Some? || cfg.mode == Some(Ledger)
    ensures Steps(w, p, StartCall(cfg, cmd), u) && Alone(u, p, v)
    ensures w.store.document.Some? ==> ValidState(w.store.document.value)
    ensures var a := w.store;
            var r := Update(a.document, cfg, cmd, a.issued, a.now);
            && v.store == (if r.Ok? then a.(document := Some(r.value)) else a)
            && v.processes == w.processes[p := Finished] && Quiet(v)
  {
    hide WorldInv, Alone, FreshFor, ValidState, ValidConfig, Update, After, Enabled, Leads;
    u := Become(w, p, UpdateWaiting(cfg, cmd));
    assert Steps(w, p, StartCall(cfg, cmd), u);
    ProtocolSafety.StepKeepsWorldInv(w, p, StartCall(cfg, cmd), u);
    v := UpdateAlone(u, p);
    assert u.processes[p := Finished] == w.processes[p := Finished];
  }

  /** A signing call can be started on every open manager, and alone it ends with the store and the
      material that the atomic SignCSR gives. */
  lemma SigningCompletes(w: World, p: Pid, q: Request, draws: Draws) returns (u: World, v: World)
    requires WorldInv(w) && p in w.processes && w.processes[p].Manager? && Quiet(w)
    requires w.processes[p].slug == SlugOf(w.processes[p].name)
    ensures Steps(w, p, StartSigning(q), u) && Alone(u, p, v)
    ensures p in u.processes && u.processes[p].SignChecking? && u.processes[p].request == q && u.processes[p].name == w.processes[p].name
    ensures u.store == w.store && EndsAsSigned(u, p, draws, v)
  {
    hide WorldInv, Alone, SlugOf, EndsAsSigned, After, Enabled, Leads;
    var m := w.processes[p];
    u := Become(w, p, SignChecking(m.slug, m.name, m.loaded, q));
    assert Steps(w, p, StartSigning(q), u);
    ProtocolSafety.StepKeepsWorldInv(w, p, StartSigning(q), u);
    v := SigningAlone(u, p, draws);
  }

  lemma OpenStep(w: World, p: Pid, x: Place)
    requires x.process.Opening?
    ensures Leads(w, p, x, x.(process := Open(x.process, x.store.document)))
  {
    hide Leads, Open;
    BecomeAt(w, p, x, Open(x.process, x.store.document));
    Advances(w, p, x, x.(process := Open(x.process, x.store.document)));
  }

  /** A manager can be opened at any moment, and opens exactly when its issuer is there, with the
      current material. */
  lemma OpeningCompletes(w: World, p: Pid, slug: Slug, name: string) returns (u: World, v: World)
    requires WorldInv(w) && p !in w.processes
    ensures Steps(w, p, StartManager(slug, name), u) && Alone(u, p, v)
    ensures w.store.document.Some? ==> ValidState(w.store.document.value)
    ensures v.store == w.store && v.ca == w.ca && v.ledger == w.ledger
    ensures v.processes == w.processes[p :=
              if w.store.document.Some? && slug in w.store.document.value.issuers && w.store.document.value.issuers[slug].definition.name == name
              then Manager(slug, name, Load(w.store.document.value, slug, name).value) else Finished]
  {
    hide WorldInv, Alone, Reaches, Leads, Load, ValidState, Inv, At;
    StoreOfWorld(w);
    u := Become(w, p, Opening(slug, name));
    var x := Place(Opening(slug, name), w.store, w.ca, w.ledger);
    OpenStep(w, p, x);
    if w.store.document.Some? {
      LoadExactly(w.store.document.value, slug, name);
    }
    var y := x.(process := Open(x.process, x.store.document));
    LeadsMeans(w, p, x, y);
    v := At(w, p, y);
    WorldAt(w, p, x);
    WorldAt(w, p, y);
  }

  lemma WorldAt(w: World, p: Pid, x: Place)
    ensures At(w, p, x) == World(x.store, x.ca, x.ledger, w.processes[p := x.process])
  {
  }
}
