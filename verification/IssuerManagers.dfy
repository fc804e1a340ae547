/** The issuer manager as an object working on a file store (certs/issuer.go), one call at a time;
    the retry after a concurrent update is the subject of Protocol. */
module IssuerManagers {
  import opened Wrappers
  import opened Certificates
  import opened Policy
  import opened Authority
  import opened AuthorityInvariant
  import opened Evolution
  import opened Lifecycle
  import opened Safety
  import opened LedgerPaging
  import opened Signing
  import opened FileStores
  import opened Bundles
  import opened BundleProperties

  const ATTEMPTS: nat := 8

  /** What one attempt draws: a random serial and, through it, the DER bytes of the leaf. */
  datatype Draw = Draw(serial: nat, raw: nat)

  type Draws = nat -> Draw

  ghost predicate FreshDraws(draws: Draws, m: Loaded) {
    forall k :: draws(k).raw != m.version.certificate.raw && draws(k).raw != m.rootCertificate.raw
  }

  // ----- the outcome of the signing loop -----

  function LeafOf(m: Loaded, job: Job, d: Draw): Certificate
    requires m.version.key.Some?
  {
    MakeLeaf(m, job, d.serial, d.raw)
  }

  function RecordOf(slug: Slug, m: Loaded, job: Job, d: Draw): LedgerRecord
    requires m.version.key.Some?
  {
    MakeRecord(slug, m, job, LeafOf(m, job, d))
  }

  predicate SameSerial(x: LedgerRecord, r: LedgerRecord) {
    x.issuer == r.issuer && x.issuerVersion == r.issuerVersion && x.serial == r.serial
  }

  predicate Taken(ledger: seq<LedgerRecord>, r: LedgerRecord) {
    exists i :: 0 <= i < |ledger| && Clashes(ledger[i], r)
  }

  /** The attempt that succeeds, counting from k. */
  function Winner(s: AuthorityState, ledger: seq<LedgerRecord>, slug: Slug, m: Loaded, job: Job, draws: Draws,
          k: nat): Result<nat>
    requires m.version.key.Some?
    decreases ATTEMPTS - k
  {
    if k >= ATTEMPTS then Err(Conflict)
    else if !LedgerReadable(ledger) then Err(Corrupt)
    else
      var r := RecordOf(slug, m, job, draws(k));
      if exists i :: 0 <= i < |ledger| && SameSerial(ledger[i], r) then Winner(s, ledger, slug, m, job, draws, k + 1)
      else if CheckAppend(s, r).Err? && CheckAppend(s, r).error != Conflict then Err(CheckAppend(s, r).error)
      else if CheckAppend(s, r).Err? || Taken(ledger, r) then Winner(s, ledger, slug, m, job, draws, k + 1)
      else Ok(k)
  }

  /** SignCSR in Ledger mode on a manager whose calls are not interleaved with others: the material
      it ends up signing with, what it signs, and which draw it uses. */
  function Signed(document: Option<AuthorityState>, ledger: seq<LedgerRecord>, name: string, q: Request,
          now: Instant, draws: Draws): Result<(Loaded, Job, Draw)> {
    var s :- ReadDocument(document);
    var m :- Load(s, SlugOf(name), name);
    if !(LedgerReadable(ledger) && LedgerAccepted(s, ledger)) then Err(Corrupt)
    else
      var job :- MakeJob(m, q, now);
      var k :- Winner(s, ledger, SlugOf(name), m, job, draws, 0);
      Ok((m, job, draws(k)))
  }

  /** The bundle that SignCSR hands out. */
  function IssuedBundle(m: Loaded, leaf: Certificate): Bundle {
    Bundle([leaf, m.version.certificate, m.rootCertificate], Some(leaf), [m.version.certificate], Some(m.rootCertificate), None)
  }

  // ----- the returned chain -----

  function Chain(m: Loaded, leaf: Certificate): seq<Certificate> {
    [leaf, m.version.certificate, m.rootCertificate]
  }

  lemma ChainIsPath(m: Loaded, leaf: Certificate)
    requires Sound(m) && !leaf.isCA && SignedBy(leaf, m.version.certificate) && leaf.issuer == m.version.certificate.subject
    ensures IsPath(SignedBy, Chain(m, leaf), Chain(m, leaf))
  {
    var chain := Chain(m, leaf);
    forall i, p | 0 <= i < |chain|
      ensures Parent(SignedBy, chain, chain[i], p) <==> i + 1 < |chain| && p == chain[i + 1]
    {
      assert p in chain ==> p == chain[0] || p == chain[1] || p == chain[2];
      assert chain[1] in chain && chain[2] in chain;
    }
  }

  /** Signing with sound material always yields a bundle that can be rebuilt: normalizeBundle
      accepts leaf, issuer and root and puts them in this order. */
  lemma IssuedBundleNormalizes(m: Loaded, leaf: Certificate)
    requires Sound(m) && !leaf.isCA && SignedBy(leaf, m.version.certificate) && leaf.issuer == m.version.certificate.subject
    requires leaf.raw != m.version.certificate.raw && leaf.raw != m.rootCertificate.raw
    ensures Normalized(SignedBy, Present(Chain(m, leaf)), None) == Ok(IssuedBundle(m, leaf))
  {
    hide Normalized, IsPath;
    var chain := Chain(m, leaf);
    ChainIsPath(m, leaf);
    assert Values(Present(chain)) == chain;
    assert Acceptable(SignedBy, Values(Present(chain)), chain, None);
    NormalizedMeaning(SignedBy, Present(chain), None);
    NormalizedResult(SignedBy, Present(chain), None);
    PathUnique(SignedBy, chain, chain, Normalized(SignedBy, Present(chain), None).value.certs);
    assert chain[1..2] == [m.version.certificate];
  }

  lemma SoundHasKey(m: Loaded)
    requires Sound(m)
    ensures m.version.key.Some?
  {
  }

  lemma RecordSerial(slug: Slug, m: Loaded, job: Job, d: Draw)
    requires m.version.key.Some?
    ensures var r := RecordOf(slug, m, job, d);
            r.issuer == slug && r.issuerVersion == m.version.version && r.serial == d.serial
  {
  }

  lemma LeafFits(m: Loaded, job: Job, d: Draw)
    requires Sound(m) && m.version.key.Some?
    ensures var leaf := LeafOf(m, job, d);
            && !leaf.isCA && leaf.raw == d.raw
            && SignedBy(leaf, m.version.certificate) && leaf.issuer == m.version.certificate.subject
  {
  }

  // ----- which attempt wins -----

  ghost predicate AllAppendable(s: AuthorityState, slug: Slug, m: Loaded, job: Job, draws: Draws)
    requires m.version.key.Some?
  {
    forall k :: CheckAppend(s, RecordOf(slug, m, job, draws(k))).Ok?
  }

  lemma WinnerStep(s: AuthorityState, ledger: seq<LedgerRecord>, slug: Slug, m: Loaded, job: Job, draws: Draws, k: nat)
    requires m.version.key.Some? && LedgerReadable(ledger) && CheckAppend(s, RecordOf(slug, m, job, draws(k))).Ok? && k < ATTEMPTS
    ensures Winner(s, ledger, slug, m, job, draws, k) ==
            if Taken(ledger, RecordOf(slug, m, job, draws(k))) then Winner(s, ledger, slug, m, job, draws, k + 1) else Ok(k)
  {
    hide CheckAppend, MakeRecord, MakeLeaf, LedgerReadable;
    var r := RecordOf(slug, m, job, draws(k));
    assert forall i :: 0 <= i < |ledger| && SameSerial(ledger[i], r) ==> Clashes(ledger[i], r);
  }

  lemma {:induction false} FirstFreeWins(s: AuthorityState, ledger: seq<LedgerRecord>, slug: Slug, m: Loaded,
          job: Job, draws: Draws, from: nat)
    requires m.version.key.Some? && AllAppendable(s, slug, m, job, draws)
    ensures var w := Winner(s, ledger, slug, m, job, draws, from);
            && (!LedgerReadable(ledger) && from < ATTEMPTS ==> w == Err(Corrupt))
            && (w.Ok? ==> from <= w.value < ATTEMPTS && !Taken(ledger, RecordOf(slug, m, job, draws(w.value))))
            && (w.Ok? ==> forall k :: from <= k < w.value ==> Taken(ledger, RecordOf(slug, m, job, draws(k))))
            && (w.Err? && LedgerReadable(ledger) ==>
                  w.error == Conflict && forall k :: from <= k < ATTEMPTS ==> Taken(ledger, RecordOf(slug, m, job, draws(k))))
    decreases ATTEMPTS - from
  {
    hide CheckAppend, RecordOf, Taken, LedgerReadable;
    if from < ATTEMPTS && LedgerReadable(ledger) {
      assert CheckAppend(s, RecordOf(slug, m, job, draws(from))).Ok?;
      WinnerStep(s, ledger, slug, m, job, draws, from);
      FirstFreeWins(s, ledger, slug, m, job, draws, from + 1);
    }
  }

  lemma {:induction false} NobodyWins(s: AuthorityState, ledger: seq<LedgerRecord>, slug: Slug, m: Loaded, job: Job,
          draws: Draws, from: nat)
    requires m.version.key.Some?
    requires forall k :: CheckAppend(s, RecordOf(slug, m, job, draws(k))).Err?
    ensures Winner(s, ledger, slug, m, job, draws, from).Err?
    decreases ATTEMPTS - from
  {
    if from < ATTEMPTS {
      NobodyWins(s, ledger, slug, m, job, draws, from + 1);
    }
  }

  /** In a reachable Ledger-mode state an admissible request is signed exactly when its lifetime is a
      whole number of seconds and one of the eight drawn certificates is new to the ledger; the
      first such draw is the one used. */
  lemma SigningSucceeds(s: AuthorityState, ledger: seq<LedgerRecord>, name: string, q: Request, now: Instant, draws: Draws)
    requires Inv(s) && ValidState(s) && LedgerReadable(ledger) && LedgerAccepted(s, ledger) && s.revision > 0 && now >= SECOND
    requires SlugOf(name) in s.issuers && s.issuers[SlugOf(name)].definition.name == name
    requires MakeJob(Load(s, SlugOf(name), name).value, q, now).Ok?
    ensures var m := Load(s, SlugOf(name), name).value;
            var job := MakeJob(m, q, now).value;
            && m.version.key.Some?
            && (Signed(Some(s), ledger, name, q, now, draws).Ok? <==>
                  q.lifetime % SECOND == 0 && exists k :: 0 <= k < ATTEMPTS && !Taken(ledger, RecordOf(SlugOf(name), m, job, draws(k))))
  {
    hide ValidState, Inv, LedgerAccepted, LedgerReadable, CheckAppend, MakeJob;
    var slug := SlugOf(name);
    LoadSound(s, slug);
    var m := Load(s, slug, name).value;
    var job := MakeJob(m, q, now).value;
    forall k
      ensures CheckAppend(s, RecordOf(slug, m, job, draws(k))).Ok? <==> q.lifetime % SECOND == 0
    {
      CurrentRecordAccepted(s, slug, q, now, draws(k).serial, draws(k).raw);
    }
    if q.lifetime % SECOND == 0 {
      FirstFreeWins(s, ledger, slug, m, job, draws, 0);
    } else {
      NobodyWins(s, ledger, slug, m, job, draws, 0);
    }
  }

  lemma {:induction false} WinnerIsAppended(s: AuthorityState, ledger: seq<LedgerRecord>, slug: Slug, m: Loaded,
          job: Job, draws: Draws, from: nat)
    requires m.version.key.Some? && Winner(s, ledger, slug, m, job, draws, from).Ok?
    ensures var r := RecordOf(slug, m, job, draws(Winner(s, ledger, slug, m, job, draws, from).value));
            CheckAppend(s, r).Ok? && !Taken(ledger, r)
    decreases ATTEMPTS - from
  {
    hide CheckAppend, MakeRecord, MakeLeaf, Clashes;
    if from < ATTEMPTS {
      var r := RecordOf(slug, m, job, draws(from));
      if (exists i :: 0 <= i < |ledger| && SameSerial(ledger[i], r)) || CheckAppend(s, r).Err? || Taken(ledger, r) {
        WinnerIsAppended(s, ledger, slug, m, job, draws, from + 1);
      }
    }
  }

  /** A successful SignCSR on a ledger is an issuing step of the lifecycle, so everything proved
      about its runs holds for the ledger this manager writes. */
  lemma SignedIsIssue(a: Store, name: string, q: Request, draws: Draws)
    requires StoreInv(a) && Signed(a.document, a.issued, name, q, a.now, draws).Ok?
    ensures var (m, job, d) := Signed(a.document, a.issued, name, q, a.now, draws).value;
            && m.version.key.Some?
            && var r := RecordOf(SlugOf(name), m, job, d);
               Next(a, Issue(r), a.(issued := a.issued + [r]))
  {
    hide ValidState, Inv, LedgerAccepted, CheckAppend, MakeJob, Kept, Permits, Sound, Fits;
    var s := a.document.value;
    var slug := SlugOf(name);
    LoadSound(s, slug);
    var m := Load(s, slug, name).value;
    SoundHasKey(m);
    var job := MakeJob(m, q, a.now).value;
    WinnerIsAppended(s, a.issued, slug, m, job, draws, 0);
    MadeJobHolds(m, q, a.now);
    JobIsSigned(s, slug, name, job, a.now, Signed(a.document, a.issued, name, q, a.now, draws).value.2);
  }

  lemma JobIsSigned(s: AuthorityState, slug: Slug, name: string, job: Job, now: Instant, d: Draw)
    requires ValidState(s) && Load(s, slug, name).Ok?
    requires var m := Load(s, slug, name).value; Sound(m) && m.version.key.Some? && JobHolds(m, job, now)
    ensures SignedFor(s, RecordOf(slug, Load(s, slug, name).value, job, d), now)
  {
    assert ValidIssuer(s, slug);
    assert ValidVersion(s, slug, s.issuers[slug].activeVersion);
  }

  // ----- what a manager remembers -----

  /** The loaded material belongs to this authority, and is current when the revisions agree. */
  ghost predicate Remembered(document: Option<AuthorityState>, m: Loaded, name: string) {
    && document.Some?
    && ValidState(document.value)
    && document.value.spec.mode == m.mode
    && (document.value.revision == m.revision ==> Load(document.value, SlugOf(name), name) == Ok(m))
  }

  /** Whatever was loaded at one moment of a run is remembered correctly at every later one. */
  lemma LoadedIsRemembered(run: seq<Store>, steps: seq<Step>, i: nat, j: nat, name: string)
    requires IsRun(run, steps) && i <= j < |run| && run[i].document.Some?
    requires ValidState(run[i].document.value) && Load(run[i].document.value, SlugOf(name), name).Ok?
    ensures Remembered(run[j].document, Load(run[i].document.value, SlugOf(name), name).value, name)
  {
    hide Inv, ValidState;
    RunIsLater(run, steps, i, j);
    RunKeepsStoreInv(run, steps, j);
  }

  class IssuerManager {
    const store: FileStore
    const name: string
    var loaded: Signing.Loaded
    var closed: bool

    ghost predicate Valid()
      reads this, store
    {
      DocumentInv(store.document) && Remembered(store.document, loaded, name) && Sound(loaded)
    }

    constructor (store: FileStore, name: string, loaded: Signing.Loaded)
      ensures this.store == store && this.name == name && this.loaded == loaded && !closed
    {
      this.store := store;
      this.name := name;
      this.loaded := loaded;
      closed := false;
    }

    /** NewIssuerManager: opening fails exactly when loading does. */
    static method Open(store: FileStore, name: string) returns (r: Result<IssuerManager>)
      requires DocumentInv(store.document)
      ensures r.Ok? <==> ReadDocument(store.document).Ok? && Load(store.document.value, SlugOf(name), name).Ok?
      ensures r.Ok? ==> fresh(r.value) && r.value.store == store && r.value.name == name && !r.value.closed && r.value.Valid()
      ensures r.Ok? ==> Load(store.document.value, SlugOf(name), name) == Ok(r.value.loaded)
    {
      hide Inv, ValidState, Sound;
      var s := store.Load();
      if s.Err? {
        return Err(s.error);
      }
      var m := Load(s.value, SlugOf(name), name);
      if m.Err? {
        return Err(m.error);
      }
      LoadSound(s.value, SlugOf(name));
      var manager := new IssuerManager(store, name, m.value);
      return Ok(manager);
    }

    /** Reload: the material is replaced by the current one, or kept when loading fails. */
    method Reload() returns (r: Result<()>)
      requires Valid()
      modifies this`loaded
      ensures Valid()
      ensures closed ==> r == Err(Conflict) && loaded == old(loaded)
      ensures !closed ==>
                var m := Load(store.document.value, SlugOf(name), name);
                (m.Ok? ==> r == Ok(()) && loaded == m.value) && (m.Err? ==> r == Err(m.error) && loaded == old(loaded))
    {
      hide Inv, ValidState, Sound;
      if closed {
        return Err(Conflict);
      }
      r := Refresh();
    }

    /** reload, which the source calls with the lock held. */
    method Refresh() returns (r: Result<()>)
      requires Valid()
      modifies this`loaded
      ensures Valid()
      ensures var m := Load(store.document.value, SlugOf(name), name);
              (m.Ok? ==> r == Ok(()) && loaded == m.value) && (m.Err? ==> r == Err(m.error) && loaded == old(loaded))
    {
      hide Inv, ValidState, Sound;
      var s := store.Load();
      var m := Load(s.value, SlugOf(name), name);
      if m.Err? {
        return Err(m.error);
      }
      LoadSound(s.value, SlugOf(name));
      loaded := m.value;
      return Ok(());
    }

    /** SignCSR. Without a ledger the loaded material signs at once. With one, the call succeeds
        exactly as Signed says, appends the one record of the leaf it returns, and a call that fails
        leaves the ledger as it was. What is returned is always leaf, issuer, root. */
    method SignCSR(q: Request, now: Instant, draws: Draws) returns (r: Result<Bundle>)
      requires Valid()
      requires FreshDraws(draws, loaded)
      requires Load(store.document.value, SlugOf(name), name).Ok? ==> FreshDraws(draws, Load(store.document.value, SlugOf(name), name).value)
      modifies this`loaded, store`ledger
      ensures Valid()
      ensures closed ==> r == Err(Conflict) && store.ledger == old(store.ledger) && loaded == old(loaded)
      ensures !closed && old(loaded).mode == NoLedger ==>
                && store.ledger == old(store.ledger) && loaded == old(loaded)
                && match MakeJob(loaded, q, now)
                   case Err(e) => r == Err(e)
                   case Ok(job) => r == Ok(IssuedBundle(loaded, LeafOf(loaded, job, draws(0))))
      ensures !closed && old(loaded).mode == Ledger ==>
                match Signed(store.document, old(store.ledger), name, q, now, draws)
                case Err(e) => r == Err(e) && store.ledger == old(store.ledger)
                case Ok((m, job, d)) =>
                  && m.version.key.Some? && loaded == m
                  && r == Ok(IssuedBundle(m, LeafOf(m, job, d)))
                  && store.ledger == old(store.ledger) + [RecordOf(SlugOf(name), m, job, d)]
    {
      hide Inv, ValidState, Sound, LedgerAccepted, LedgerReadable, CheckAppend, MakeJob;
      if closed {
        return Err(Conflict);
      }
      var s := store.document.value;
      if loaded.mode == Ledger {
        var current := store.Load();
        if current.value.revision != loaded.revision {
          var refreshed := Refresh();
          if refreshed.Err? {
            return Err(refreshed.error);
          }
        }
        var records := store.ReadPages(PAGE_SIZE);
        if records.Err? {
          return Err(records.error);
        }
        if !LedgerAccepted(current.value, records.value) {
          return Err(Corrupt);
        }
      }
      var made := MakeJob(loaded, q, now);
      if made.Err? {
        return Err(made.error);
      }
      SoundHasKey(loaded);
      r := Attempt(s, made.value, draws);
    }

    /** The signing loop. */
    method Attempt(ghost s: AuthorityState, job: Job, draws: Draws) returns (r: Result<Bundle>)
      requires Valid() && store.document == Some(s) && FreshDraws(draws, loaded) && loaded.version.key.Some?
      requires loaded.mode == Ledger ==> loaded.revision == s.revision
      modifies store`ledger
      ensures loaded.mode == NoLedger ==> store.ledger == old(store.ledger) && r == Ok(IssuedBundle(loaded, LeafOf(loaded, job, draws(0))))
      ensures loaded.mode == Ledger ==>
                match Winner(s, old(store.ledger), SlugOf(name), loaded, job, draws, 0)
                case Err(e) => r == Err(e) && store.ledger == old(store.ledger)
                case Ok(k) =>
                  && r == Ok(IssuedBundle(loaded, LeafOf(loaded, job, draws(k))))
                  && store.ledger == old(store.ledger) + [RecordOf(SlugOf(name), loaded, job, draws(k))]
    {
      hide Inv, ValidState, Sound, LedgerReadable, CheckAppend, MakeRecord, MakeLeaf;
      var attempts := 0;
      while attempts < ATTEMPTS
        invariant 0 <= attempts <= ATTEMPTS
        invariant store.ledger == old(store.ledger)
        invariant loaded.mode == NoLedger ==> attempts == 0
        invariant loaded.mode == Ledger ==>
          Winner(s, old(store.ledger), SlugOf(name), loaded, job, draws, 0) == Winner(s, old(store.ledger), SlugOf(name), loaded, job, draws, attempts)
      {
        var d := draws(attempts);
        attempts := attempts + 1;
        var leaf := LeafOf(loaded, job, d);
        if loaded.mode == Ledger {
          var known := store.LookupLedger(SlugOf(name), loaded.version.version, d.serial);
          RecordSerial(SlugOf(name), loaded, job, d);
          if known.Ok? {
            continue;
          }
          if known.error != NotFound {
            return Err(known.error);
          }
          var appended := store.AppendLedger(RecordOf(SlugOf(name), loaded, job, d));
          if appended.Err? {
            if appended.error == Conflict {
              // Only another process could have moved the revision since the ledger check.
              assert s.revision == loaded.revision;
              continue;
            }
            return Err(appended.error);
          }
        }
        LeafFits(loaded, job, d);
        IssuedBundleNormalizes(loaded, leaf);
        r := NormalizeBundle(SignedBy, [Some(leaf), Some(loaded.version.certificate), Some(loaded.rootCertificate)], None);
        assert [Some(leaf), Some(loaded.version.certificate), Some(loaded.rootCertificate)] == Present(Chain(loaded, leaf));
        return;
      }
      return Err(Conflict);
    }

    method Close()
      modifies this`closed
      ensures closed
    {
      closed := true;
    }
  }
}
