/** An interleaving in which a signer is refused over a sound ledger: between its two reads another
    call adds an issuer and another signer records a leaf. */
module StaleSignerExample {
  import opened Wrappers
  import opened Certificates
  import opened Policy
  import opened Authority
  import opened AuthorityInvariant
  import opened Evolution
  import opened Lifecycle
  import opened LedgerPaging
  import opened Signing
  import opened Protocol
  import opened ProtocolInvariant
  import opened ProtocolSafety
  import opened Safety
  import opened ProtocolRuns
  import opened StaleCheckExample

  // ----- stretches of an interleaving -----

  ghost predicate IsStretch(run: seq<World>, moves: seq<Move>) {
    && |run| == |moves| + 1
    && forall i :: 0 <= i < |moves| ==> Steps(run[i], moves[i].pid, moves[i].event, run[i + 1])
  }

  ghost predicate Leads(w: World, v: World) {
    exists run: seq<World>, moves: seq<Move> :: IsStretch(run, moves) && run[0] == w && run[|run| - 1] == v
  }

  lemma OneMove(w: World, p: Pid, e: Event, v: World)
    requires Steps(w, p, e, v)
    ensures Leads(w, v)
  {
    var run, moves := [w, v], [Move(p, e)];
    assert IsStretch(run, moves);
  }

  lemma Onwards(w: World, v: World, u: World)
    requires Leads(w, v) && Leads(v, u)
    ensures Leads(w, u)
  {
    hide Steps;
    var r1: seq<World>, m1: seq<Move> :| IsStretch(r1, m1) && r1[0] == w && r1[|r1| - 1] == v;
    var r2: seq<World>, m2: seq<Move> :| IsStretch(r2, m2) && r2[0] == v && r2[|r2| - 1] == u;
    var run, moves := r1 + r2[1..], m1 + m2;
    forall i | 0 <= i < |moves|
      ensures Steps(run[i], moves[i].pid, moves[i].event, run[i + 1])
    {
      if i < |m1| {
        assert Steps(r1[i], m1[i].pid, m1[i].event, r1[i + 1]);
      } else {
        var j := i - |m1|;
        assert Steps(r2[j], m2[j].pid, m2[j].event, r2[j + 1]);
        assert run[i] == r2[j];
      }
    }
    assert IsStretch(run, moves);
  }

  const FREE := Flock(None, {})

  /** Nobody holds a lock. */
  function Quiet(a: Store, ps: map<Pid, Process>): World {
    World(a, FREE, FREE, ps)
  }

  /** One step of process p, from q to r; the others are as in ps. */
  lemma Goes(w: World, ps: map<Pid, Process>, p: Pid, q: Process, v: World, r: Process)
    requires w.processes == ps[p := q] && v.processes == ps[p := r]
    requires Enabled(w, p) && After(w, p) == v.(processes := w.processes[p := r])
    ensures Leads(w, v)
  {
    assert ps[p := q][p := r] == ps[p := r];
    OneMove(w, p, Advance, v);
  }

  // ----- an authority call -----

  lemma CallStarts(a: Store, ps: map<Pid, Process>, p: Pid, cfg: ManagerConfig, cmd: Command)
    requires p !in ps && ValidConfig(cfg) && cfg.mode == Some(Ledger) && Usable(a.document)
    ensures Leads(Quiet(a, ps), World(a, Flock(Some(p), {}), FREE, ps[p := UpdateLoaded(cfg, cmd, a.document)]))
  {
    hide ValidState, ValidConfig, Leads;
    var w := Quiet(a, ps);
    var w1 := Quiet(a, ps[p := UpdateWaiting(cfg, cmd)]);
    OneMove(w, p, StartCall(cfg, cmd), w1);
    var w2 := World(a, Flock(Some(p), {}), FREE, ps[p := UpdateLocked(cfg, cmd)]);
    Goes(w1, ps, p, UpdateWaiting(cfg, cmd), w2, UpdateLocked(cfg, cmd));
    var w3 := w2.(processes := ps[p := UpdateLoaded(cfg, cmd, a.document)]);
    Goes(w2, ps, p, UpdateLocked(cfg, cmd), w3, UpdateLoaded(cfg, cmd, a.document));
    Onwards(w, w1, w2);
    Onwards(w, w2, w3);
  }

  lemma CallComputes(a: Store, ps: map<Pid, Process>, p: Pid, cfg: ManagerConfig, cmd: Command, t: AuthorityState)
    requires Usable(a.document) && FreshCommand(cmd, Base(a.document)) && !NeedsScan(a.document, cfg, cmd)
    requires Accepted(a.document, a.issued)
    requires Commit(Base(a.document), Mutate(Base(a.document), cfg, cmd, [], a.now)) == Ok(t)
    ensures Leads(World(a, Flock(Some(p), {}), FREE, ps[p := UpdateLoaded(cfg, cmd, a.document)]),
                  World(a, Flock(Some(p), {}), FREE, ps[p := UpdateWriting(cfg, cmd, a.now, t)]))
  {
    hide ValidState, Mutate, Commit, FreshCommand, LedgerAccepted, NeedsScan, Leads;
    var w := World(a, Flock(Some(p), {}), FREE, ps[p := UpdateLoaded(cfg, cmd, a.document)]);
    var w1 := w.(processes := ps[p := UpdateReady(cfg, cmd, a.document)]);
    Goes(w, ps, p, UpdateLoaded(cfg, cmd, a.document), w1, UpdateReady(cfg, cmd, a.document));
    var w2 := w.(processes := ps[p := UpdateWriting(cfg, cmd, a.now, t)]);
    Goes(w1, ps, p, UpdateReady(cfg, cmd, a.document), w2, UpdateWriting(cfg, cmd, a.now, t));
    Onwards(w, w1, w2);
  }

  lemma CallEnds(a: Store, ps: map<Pid, Process>, p: Pid, cfg: ManagerConfig, cmd: Command, t: AuthorityState)
    ensures Leads(World(a, Flock(Some(p), {}), FREE, ps[p := UpdateWriting(cfg, cmd, a.now, t)]),
                  Quiet(a.(document := Some(t)), ps[p := Finished]))
  {
    hide Leads;
    var w := World(a, Flock(Some(p), {}), FREE, ps[p := UpdateWriting(cfg, cmd, a.now, t)]);
    var w1 := World(a.(document := Some(t)), Flock(Some(p), {}), FREE, ps[p := UpdateDone]);
    Goes(w, ps, p, UpdateWriting(cfg, cmd, a.now, t), w1, UpdateDone);
    var w2 := Quiet(a.(document := Some(t)), ps[p := Finished]);
    Goes(w1, ps, p, UpdateDone, w2, Finished);
    Onwards(w, w1, w2);
  }

  /** A whole authority call without a ledger scan. */
  lemma WholeCall(a: Store, ps: map<Pid, Process>, p: Pid, cfg: ManagerConfig, cmd: Command, t: AuthorityState)
    requires p !in ps && cfg.mode == Some(Ledger) && cmd.EnsureCommand? && Usable(a.document)
    requires Next(a, Change(cfg, cmd, a.now), a.(document := Some(t)))
    requires a.issued == [] && Accepted(a.document, [])
    ensures Leads(Quiet(a, ps), Quiet(a.(document := Some(t)), ps[p := Finished]))
  {
    hide Leads, ValidState, Mutate, Commit, FreshCommand, LedgerAccepted, ValidConfig;
    CallStarts(a, ps, p, cfg, cmd);
    CallComputes(a, ps, p, cfg, cmd, t);
    CallEnds(a, ps, p, cfg, cmd, t);
    var w1 := World(a, Flock(Some(p), {}), FREE, ps[p := UpdateLoaded(cfg, cmd, a.document)]);
    var w2 := World(a, Flock(Some(p), {}), FREE, ps[p := UpdateWriting(cfg, cmd, a.now, t)]);
    Onwards(Quiet(a, ps), w1, w2);
    Onwards(Quiet(a, ps), w2, Quiet(a.(document := Some(t)), ps[p := Finished]));
  }

  // ----- a signer up to its ledger check -----

  lemma SignerOpens(a: Store, ps: map<Pid, Process>, p: Pid, slug: Slug, m: Loaded)
    requires p !in ps && a.document.Some? && ValidState(a.document.value) && Load(a.document.value, slug, slug) == Ok(m)
    ensures Leads(Quiet(a, ps), Quiet(a, ps[p := Manager(slug, slug, m)]))
  {
    hide ValidState, Load, Leads;
    var w1 := Quiet(a, ps[p := Opening(slug, slug)]);
    OneMove(Quiet(a, ps), p, StartManager(slug, slug), w1);
    var w2 := Quiet(a, ps[p := Manager(slug, slug, m)]);
    Goes(w1, ps, p, Opening(slug, slug), w2, Manager(slug, slug, m));
    Onwards(Quiet(a, ps), w1, w2);
  }

  lemma SignerAsks(a: Store, ps: map<Pid, Process>, p: Pid, slug: Slug, m: Loaded, q: Request, s: AuthorityState)
    requires a.document == Some(s) && ValidState(s) && m.revision == s.revision
    ensures Leads(Quiet(a, ps[p := Manager(slug, slug, m)]), Quiet(a, ps[p := LedgerChecking(slug, slug, m, q, s, [])]))
  {
    hide ValidState, Leads;
    var w := Quiet(a, ps[p := Manager(slug, slug, m)]);
    var w1 := Quiet(a, ps[p := SignChecking(slug, slug, m, q)]);
    assert ps[p := Manager(slug, slug, m)][p := SignChecking(slug, slug, m, q)] == ps[p := SignChecking(slug, slug, m, q)];
    OneMove(w, p, StartSigning(q), w1);
    var w2 := Quiet(a, ps[p := LedgerChecking(slug, slug, m, q, s, [])]);
    Goes(w1, ps, p, SignChecking(slug, slug, m, q), w2, LedgerChecking(slug, slug, m, q, s, []));
    Onwards(w, w1, w2);
  }

  lemma SignerStarts(a: Store, ps: map<Pid, Process>, p: Pid, slug: Slug, m: Loaded, q: Request)
    requires p !in ps && a.document.Some? && ValidState(a.document.value) && Load(a.document.value, slug, slug) == Ok(m)
    ensures Leads(Quiet(a, ps), Quiet(a, ps[p := LedgerChecking(slug, slug, m, q, a.document.value, [])]))
  {
    var s := a.document.value;
    assert m.revision == s.revision;
    hide ValidState, Load, Leads;
    SignerOpens(a, ps, p, slug, m);
    SignerAsks(a, ps, p, slug, m, q, s);
    Onwards(Quiet(a, ps), Quiet(a, ps[p := Manager(slug, slug, m)]), Quiet(a, ps[p := LedgerChecking(slug, slug, m, q, s, [])]));
  }

  /** The signer locks the ledger to read its next page. */
  lemma SignerReads(a: Store, ps: map<Pid, Process>, p: Pid, slug: Slug, m: Loaded, q: Request, s: AuthorityState)
    ensures Leads(Quiet(a, ps[p := LedgerChecking(slug, slug, m, q, s, [])]),
                  World(a, FREE, Flock(None, {p}), ps[p := LedgerCheckingLocked(slug, slug, m, q, s, [])]))
  {
    hide Leads;
    var w := Quiet(a, ps[p := LedgerChecking(slug, slug, m, q, s, [])]);
    var v := World(a, FREE, Flock(None, {p}), ps[p := LedgerCheckingLocked(slug, slug, m, q, s, [])]);
    assert {} + {p} == {p};
    Goes(w, ps, p, LedgerChecking(slug, slug, m, q, s, []), v, LedgerCheckingLocked(slug, slug, m, q, s, []));
  }

  // ----- a signer that records a leaf in an empty ledger -----

  lemma SignerPasses(a: Store, ps: map<Pid, Process>, p: Pid, slug: Slug, m: Loaded, q: Request, s: AuthorityState, job: Job)
    requires a.issued == [] && MakeJob(m, q, a.now) == Ok(job)
    ensures Leads(Quiet(a, ps[p := LedgerChecking(slug, slug, m, q, s, [])]), Quiet(a, ps[p := Attempting(slug, slug, m, job, 0)]))
  {
    hide Leads, MakeJob;
    SignerReads(a, ps, p, slug, m, q, s);
    var v := World(a, FREE, Flock(None, {p}), ps[p := LedgerCheckingLocked(slug, slug, m, q, s, [])]);
    var u := Quiet(a, ps[p := Attempting(slug, slug, m, job, 0)]);
    assert {p} - {p} == {};
    Goes(v, ps, p, LedgerCheckingLocked(slug, slug, m, q, s, []), u, Attempting(slug, slug, m, job, 0));
    Onwards(Quiet(a, ps[p := LedgerChecking(slug, slug, m, q, s, [])]), v, u);
  }

  lemma SignerLoads(a: Store, ps: map<Pid, Process>, p: Pid, slug: Slug, m: Loaded, job: Job, s: AuthorityState, r: LedgerRecord)
    requires a.issued == [] && a.document == Some(s) && ValidState(s) && m.version.key.Some? && CheckAppend(s, r).Ok?
    requires r == MakeRecord(slug, m, job, MakeLeaf(m, job, r.serial, r.fingerprint))
    ensures Leads(Quiet(a, ps[p := Attempting(slug, slug, m, job, 0)]),
                  World(a, Flock(None, {p}), FREE, ps[p := AppendChecked(slug, slug, m, job, 0, r, s)]))
  {
    hide Leads, ValidState, CheckAppend, MakeRecord, MakeLeaf;
    var w := Quiet(a, ps[p := Attempting(slug, slug, m, job, 0)]);
    var w1 := Quiet(a, ps[p := AppendWaiting(slug, slug, m, job, 0, r)]);
    assert ps[p := Attempting(slug, slug, m, job, 0)][p := AppendWaiting(slug, slug, m, job, 0, r)] == w1.processes;
    OneMove(w, p, Candidate(r.serial, r.fingerprint), w1);
    var w2 := World(a, Flock(None, {p}), FREE, ps[p := AppendShared(slug, slug, m, job, 0, r)]);
    assert {} + {p} == {p};
    Goes(w1, ps, p, AppendWaiting(slug, slug, m, job, 0, r), w2, AppendShared(slug, slug, m, job, 0, r));
    Onwards(w, w1, w2);
    var w3 := w2.(processes := ps[p := AppendChecked(slug, slug, m, job, 0, r, s)]);
    Goes(w2, ps, p, AppendShared(slug, slug, m, job, 0, r), w3, AppendChecked(slug, slug, m, job, 0, r, s));
    Onwards(w, w2, w3);
  }

  lemma SignerLocks(a: Store, ps: map<Pid, Process>, p: Pid, slug: Slug, m: Loaded, job: Job, s: AuthorityState, r: LedgerRecord)
    requires a.issued == []
    ensures Leads(World(a, Flock(None, {p}), FREE, ps[p := AppendChecked(slug, slug, m, job, 0, r, s)]),
                  World(a, Flock(None, {p}), Flock(Some(p), {}), ps[p := AppendWriting(slug, slug, m, job, 0, r, s)]))
  {
    hide Leads;
    var shared, mine := Flock(None, {p}), Flock(Some(p), {});
    var w := World(a, shared, FREE, ps[p := AppendChecked(slug, slug, m, job, 0, r, s)]);
    var w1 := World(a, shared, mine, ps[p := AppendLocked(slug, slug, m, job, 0, r, s)]);
    Goes(w, ps, p, AppendChecked(slug, slug, m, job, 0, r, s), w1, AppendLocked(slug, slug, m, job, 0, r, s));
    var w2 := World(a, shared, mine, ps[p := AppendWriting(slug, slug, m, job, 0, r, s)]);
    Goes(w1, ps, p, AppendLocked(slug, slug, m, job, 0, r, s), w2, AppendWriting(slug, slug, m, job, 0, r, s));
    Onwards(w, w1, w2);
  }

  lemma SignerWrites(a: Store, ps: map<Pid, Process>, p: Pid, slug: Slug, m: Loaded, job: Job, s: AuthorityState, r: LedgerRecord)
    requires a.issued == []
    ensures Leads(World(a, Flock(None, {p}), Flock(Some(p), {}), ps[p := AppendWriting(slug, slug, m, job, 0, r, s)]),
                  World(a.(issued := [r]), Flock(None, {p}), Flock(Some(p), {}), ps[p := AppendWritten(slug, slug, m, job, 0)]))
  {
    hide Leads;
    var w := World(a, Flock(None, {p}), Flock(Some(p), {}), ps[p := AppendWriting(slug, slug, m, job, 0, r, s)]);
    var v := World(a.(issued := [r]), Flock(None, {p}), Flock(Some(p), {}), ps[p := AppendWritten(slug, slug, m, job, 0)]);
    assert a.issued + [r] == [r];
    Goes(w, ps, p, AppendWriting(slug, slug, m, job, 0, r, s), v, AppendWritten(slug, slug, m, job, 0));
  }

  lemma SignerReleases(a: Store, ps: map<Pid, Process>, p: Pid, slug: Slug, m: Loaded, job: Job)
    ensures Leads(World(a, Flock(None, {p}), Flock(Some(p), {}), ps[p := AppendWritten(slug, slug, m, job, 0)]),
                  Quiet(a, ps[p := Manager(slug, slug, m)]))
  {
    hide Leads;
    var w := World(a, Flock(None, {p}), Flock(Some(p), {}), ps[p := AppendWritten(slug, slug, m, job, 0)]);
    var w1 := World(a, Flock(None, {p}), FREE, ps[p := AppendReleasing(slug, slug, m, job, 0, Recorded)]);
    Goes(w, ps, p, AppendWritten(slug, slug, m, job, 0), w1, AppendReleasing(slug, slug, m, job, 0, Recorded));
    var w2 := Quiet(a, ps[p := Manager(slug, slug, m)]);
    assert {p} - {p} == {};
    Goes(w1, ps, p, AppendReleasing(slug, slug, m, job, 0, Recorded), w2, Manager(slug, slug, m));
    Onwards(w, w1, w2);
  }

  /** A whole SignCSR of a manager that has just been opened. */
  lemma WholeSigning(a: Store, ps: map<Pid, Process>, p: Pid, slug: Slug, m: Loaded, q: Request, s: AuthorityState, job: Job,
          r: LedgerRecord)
    requires p !in ps && a.issued == [] && a.document == Some(s) && ValidState(s) && Load(s, slug, slug) == Ok(m)
    requires MakeJob(m, q, a.now) == Ok(job) && m.version.key.Some? && CheckAppend(s, r).Ok?
    requires r == MakeRecord(slug, m, job, MakeLeaf(m, job, r.serial, r.fingerprint))
    ensures Leads(Quiet(a, ps), Quiet(a.(issued := [r]), ps[p := Manager(slug, slug, m)]))
  {
    hide Leads, ValidState, Load, MakeJob, CheckAppend, MakeRecord, MakeLeaf;
    var w := Quiet(a, ps);
    var w1 := Quiet(a, ps[p := LedgerChecking(slug, slug, m, q, s, [])]);
    var w2 := Quiet(a, ps[p := Attempting(slug, slug, m, job, 0)]);
    var w3 := World(a, Flock(None, {p}), FREE, ps[p := AppendChecked(slug, slug, m, job, 0, r, s)]);
    var locked := World(a, Flock(None, {p}), Flock(Some(p), {}), ps[p := AppendWriting(slug, slug, m, job, 0, r, s)]);
    SignerStarts(a, ps, p, slug, m, q);
    SignerPasses(a, ps, p, slug, m, q, s, job);
    SignerLoads(a, ps, p, slug, m, job, s, r);
    SignerLocks(a, ps, p, slug, m, job, s, r);
    SignerWrites(a, ps, p, slug, m, job, s, r);
    SignerReleases(a.(issued := [r]), ps, p, slug, m, job);
    var w4 := World(a.(issued := [r]), Flock(None, {p}), Flock(Some(p), {}), ps[p := AppendWritten(slug, slug, m, job, 0)]);
    Onwards(w, w1, w2);
    Onwards(w, w2, w3);
    Onwards(w, w3, locked);
    Onwards(w, locked, w4);
    Onwards(w, w4, Quiet(a.(issued := [r]), ps[p := Manager(slug, slug, m)]));
  }

  // ----- the refused signer -----

  /** Process 1 has loaded the document s of the first call when process 2 extends it to t and
      process 3 records r under the new one. */
  lemma Interleaved(s: AuthorityState, t: AuthorityState, r: LedgerRecord, m: Loaded, n: Loaded, job: Job)
      returns (ps: map<Pid, Process>)
    requires var cfg := Config([Definition("a")]);
             Next(EMPTY_STORE, Change(cfg, Call(FIRST), NOW), EMPTY_STORE.(document := Some(s)))
    requires var cfg := Config([Definition("a"), Definition("b")]);
             Next(EMPTY_STORE.(document := Some(s)), Change(cfg, Call(SECOND_SUPPLY), NOW), EMPTY_STORE.(document := Some(t)))
    requires ValidState(s) && Load(s, "a", "a") == Ok(m)
    requires ValidState(t) && Load(t, "a", "a") == Ok(n) && MakeJob(n, REQUEST, NOW) == Ok(job) && CheckAppend(t, r).Ok?
    requires n.version.key.Some? && r == MakeRecord("a", n, job, MakeLeaf(n, job, r.serial, r.fingerprint))
    ensures 1 !in ps && Leads(Quiet(EMPTY_STORE, map[]),
                              World(Store(Some(t), [r], NOW), FREE, Flock(None, {1}), ps[1 := LedgerCheckingLocked("a", "a", m, REQUEST, s, [])]))
  {
    hide Leads, ValidState, Load, MakeJob, CheckAppend, MakeRecord, MakeLeaf, Next, RecordAccepted, Quiet;
    var a0, a1, a2, a3 := EMPTY_STORE, EMPTY_STORE.(document := Some(s)), EMPTY_STORE.(document := Some(t)), Store(Some(t), [r], NOW);
    var first := LedgerChecking("a", "a", m, REQUEST, s, []);
    var p0: map<Pid, Process> := map[];
    var p1 := p0[0 := Finished];
    var p2 := p1[1 := first];
    var p3 := p2[2 := Finished];
    var p4 := p3[3 := Manager("a", "a", n)];
    WholeCall(a0, p0, 0, Config([Definition("a")]), Call(FIRST), s);
    SignerStarts(a1, p1, 1, "a", m, REQUEST);
    Onwards(Quiet(a0, p0), Quiet(a1, p1), Quiet(a1, p2));
    assert a1.(document := Some(t)) == a2;
    WholeCall(a1, p2, 2, Config([Definition("a"), Definition("b")]), Call(SECOND_SUPPLY), t);
    Onwards(Quiet(a0, p0), Quiet(a1, p2), Quiet(a2, p3));
    WholeSigning(a2, p3, 3, "a", n, REQUEST, t, job, r);
    assert a2.(issued := [r]) == a3;
    Onwards(Quiet(a0, p0), Quiet(a2, p3), Quiet(a3, p4));
    ps := map[0 := Finished, 2 := Finished, 3 := Manager("a", "a", n)];
    assert p4 == ps[1 := first];
    SignerReads(a3, ps, 1, "a", m, REQUEST, s);
    Onwards(Quiet(a0, p0), Quiet(a3, p4),
            World(a3, FREE, Flock(None, {1}), ps[1 := LedgerCheckingLocked("a", "a", m, REQUEST, s, [])]));
  }

  lemma Prepared() returns (s: AuthorityState, t: AuthorityState, r: LedgerRecord, m: Loaded, ps: map<Pid, Process>)
    ensures s.revision == 1 && r.authorityRevision == 2 && ValidRecord(r) && 1 !in ps
    ensures Leads(Quiet(EMPTY_STORE, map[]),
                  World(Store(Some(t), [r], NOW), FREE, Flock(None, {1}), ps[1 := LedgerCheckingLocked("a", "a", m, REQUEST, s, [])]))
  {
    hide Inv, ValidState, RootInv, ValidRoot, MakeRoot, Sound, Load, MakeJob, CheckAppend, Next, Leads;
    s := Provisioned();
    t := Extended(s);
    r := StaleCheckExample.Recorded(t);
    AppendedIsValid(t, r);
    LoadSound(s, "a");
    m := Load(s, "a", "a").value;
    var n := Load(t, "a", "a").value;
    ps := Interleaved(s, t, r, m, n, MakeJob(n, REQUEST, NOW).value);
  }

  lemma AppendedIsValid(t: AuthorityState, r: LedgerRecord)
    requires CheckAppend(t, r).Ok?
    ensures ValidRecord(r)
  {
  }

  lemma OnlyPage(r: LedgerRecord)
    requires ValidRecord(r)
    ensures var page := ListLedger([r], 0, PAGE_SIZE);
            page.Ok? && page.value.records == [r] && page.value.next.None?
  {
  }

  lemma RunTo(v: World) returns (run: seq<World>, moves: seq<Move>)
    requires Leads(Quiet(EMPTY_STORE, map[]), v)
    ensures IsProtocolRun(run, moves) && run[|run| - 1] == v
  {
    hide Steps;
    var x: seq<World>, y: seq<Move> :| IsStretch(x, y) && x[0] == Quiet(EMPTY_STORE, map[]) && x[|x| - 1] == v;
    run, moves := x, y;
  }

  /** One step from here, at the only page, the signer is back without a certificate. */
  lemma RefusalIsNext(w: World, p: Pid)
    requires p in w.processes && w.processes[p].LedgerCheckingLocked?
    requires CheckPage(w.processes[p], w.store.issued, w.store.now).Manager?
    ensures Enabled(w, p) && After(w, p).processes[p].Manager?
  {
    hide CheckPage;
  }

  /** What the last page of the prepared world holds. */
  lemma LastPageIsStale(w: World, p: Pid, s: AuthorityState, r: LedgerRecord)
    requires p in w.processes && w.processes[p].LedgerCheckingLocked? && w.processes[p].all == [] && w.processes[p].state == s
    requires w.store.issued == [r] && s.revision < r.authorityRevision && ValidRecord(r)
    ensures LastPage(w.processes[p], w.store.issued)
    ensures w.processes[p].all + ListLedger(w.store.issued, |w.processes[p].all|, PAGE_SIZE).value.records == [r]
    ensures !NoNewerRecord(s, [r])
  {
    OnlyPage(r);
    hide ListLedger;
    assert [r][0].authorityRevision > s.revision;
    assert [] + [r] == [r];
  }

  /** A signer is refused over a ledger that is sound for the current document: its last page holds
      a record newer than the document it started from. */
  lemma StaleSignerIsRefused() returns (run: seq<World>, moves: seq<Move>, p: Pid)
    ensures IsProtocolRun(run, moves)
    ensures var w := run[|run| - 1];
            && p in w.processes
            && LastPage(w.processes[p], w.store.issued)
            && w.store.document.Some? && LedgerAccepted(w.store.document.value, w.store.issued)
            && !LedgerAccepted(w.processes[p].state, w.store.issued)
            && Enabled(w, p) && After(w, p).processes[p].Manager?
  {
    hide Steps, LedgerAccepted, Leads, CheckPage, LastPage, NoNewerRecord, Enabled, After, ListLedger;
    var s, t, r, m, ps := Prepared();
    p := 1;
    var w := World(Store(Some(t), [r], NOW), FREE, Flock(None, {1}), ps[1 := LedgerCheckingLocked("a", "a", m, REQUEST, s, [])]);
    run, moves := RunTo(w);
    LastPageIsStale(w, p, s, r);
    ProtocolRunEnds(run, moves);
    hide IsProtocolRun;
    SignerRefusesExactly(run, moves, |run| - 1, p);
    RefusalIsNext(w, p);
  }

  lemma ProtocolRunEnds(run: seq<World>, moves: seq<Move>)
    requires IsProtocolRun(run, moves)
    ensures |run| > 0
  {
  }
}
