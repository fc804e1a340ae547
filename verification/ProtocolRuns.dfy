/** What relates two moments of an interleaving: every result about whole atomic runs carries over
    to the locked protocol. */
module ProtocolRuns {
  import opened Wrappers
  import opened Certificates
  import opened Policy
  import opened Authority
  import opened AuthorityInvariant
  import opened Evolution
  import opened Lifecycle
  import opened LedgerPaging
  import opened Signing
  import opened Protocol
  import opened ProtocolInvariant
  import opened ProtocolSafety
  import opened Safety
  import IssuerManagers

  /** In every interleaving documents evolve, the ledger only grows and the revision identifies the
      document. */
  lemma LaterInEveryInterleaving(run: seq<World>, moves: seq<Move>, i: nat, j: nat)
    requires IsProtocolRun(run, moves) && i <= j < |run|
    ensures Later(run[i].store, run[j].store)
  {
    hide IsProtocolRun, Later, IsRun;
    var t := PrefixRefines(run, moves, |run|);
    RunIsLater(t.stores, t.steps, t.at[i], t.at[j]);
  }

  /** Keys are stored exactly with active and pending records. */
  lemma KeysInEveryInterleaving(run: seq<World>, moves: seq<Move>, i: nat)
    requires IsProtocolRun(run, moves) && i < |run| && run[i].store.document.Some?
    ensures var s := run[i].store.document.value;
            && (forall g :: g in s.roots ==> (s.roots[g].key.Some? <==> KeyActive(s, g)))
            && (forall slug, v :: slug in s.issuers && v in s.issuers[slug].versions ==>
                  (s.issuers[slug].versions[v].key.Some? <==> VersionNeedsKey(s, slug, v)))
  {
    hide IsProtocolRun, IsRun;
    var t := PrefixRefines(run, moves, |run|);
    KeysFollowActivity(t.stores, t.steps, t.at[i]);
  }

  /** A superseded root or issuer version stays and never holds a private key again, whatever the
      interleaving. */
  lemma RetiredKeysInEveryInterleaving(run: seq<World>, moves: seq<Move>, i: nat, j: nat)
    requires IsProtocolRun(run, moves) && i <= j < |run| && run[i].store.document.Some?
    ensures run[j].store.document.Some?
    ensures KeysRetired(run[i].store.document.value, run[j].store.document.value)
  {
    hide IsProtocolRun, IsRun, KeysRetired;
    var t := PrefixRefines(run, moves, |run|);
    RetiredKeysStayGone(t.stores, t.steps, t.at[i], t.at[j]);
  }

  lemma WindowsInEveryInterleaving(run: seq<World>, moves: seq<Move>, i: nat, k: nat)
    requires IsProtocolRun(run, moves) && i < |run| && k < |run[i].store.issued|
    ensures var a, r := run[i].store, run[i].store.issued[k];
            && HasRecord(a, r)
            && var s := a.document.value;
               var g := RootOf(s, r);
               && g in s.roots && g <= s.activeRoot
               && (g < s.activeRoot && a.now < r.expiresAt + CLOCK_SKEW ==> s.roots[g].retiredTrustUntil >= r.expiresAt + CLOCK_SKEW)
  {
    hide IsProtocolRun, IsRun;
    var t := PrefixRefines(run, moves, |run|);
    WindowOutlastsLeaves(t.stores, t.steps, t.at[i], k);
  }

  /** What a manager loaded at one moment of an interleaving is current at every later one at which
      the revisions agree. */
  lemma RememberedInEveryInterleaving(run: seq<World>, moves: seq<Move>, i: nat, j: nat, name: string)
    requires IsProtocolRun(run, moves) && i <= j < |run| && run[i].store.document.Some?
    requires ValidState(run[i].store.document.value) && Load(run[i].store.document.value, SlugOf(name), name).Ok?
    ensures IssuerManagers.Remembered(run[j].store.document, Load(run[i].store.document.value, SlugOf(name), name).value, name)
  {
    hide IsProtocolRun, IsRun, ValidState;
    var t := PrefixRefines(run, moves, |run|);
    IssuerManagers.LoadedIsRemembered(t.stores, t.steps, t.at[i], t.at[j], name);
  }

  // ----- how a generation leaves the bundle -----

  lemma OneMoveKeepsBundle(w: World, p: Pid, e: Event, v: World, g: int)
    requires WorldInv(w) && Steps(w, p, e, v) && InBundle(w.store, g)
    ensures InBundle(v.store, g) || DiscardedFrom(w.store, v.store, g) || WindowOver(v.store, g)
  {
    hide Steps, InBundle, DiscardedFrom, WindowOver, Next;
    StepKeepsWorldInv(w, p, e, v);
    hide WorldInv;
    if v.store != w.store {
      var step :| Next(w.store, step, v.store);
      WorldHasStoreInv(w);
      StepKeepsBundle(w.store, step, v.store, g);
    }
  }

  lemma WorldHasStoreInv(w: World)
    requires WorldInv(w)
    ensures StoreInv(w.store)
  {
    hide StoreInv;
  }

  /** In every interleaving a generation, once trusted, stays in every bundle until it is discarded
      while pending or its window ends after retirement. */
  lemma {:induction false} GenerationStaysInEveryInterleaving(run: seq<World>, moves: seq<Move>, i: nat, j: nat, g: int)
    requires IsProtocolRun(run, moves) && i <= j < |run| && InBundle(run[i].store, g)
    requires forall k :: i <= k < j ==> !DiscardedFrom(run[k].store, run[k + 1].store, g)
    requires forall k :: i < k <= j ==> !WindowOver(run[k].store, g)
    ensures InBundle(run[j].store, g)
    decreases j
  {
    hide Steps, InBundle, DiscardedFrom, WindowOver, WorldInv, Start;
    if i == j {
    } else {
      GenerationStaysInEveryInterleaving(run, moves, i, j - 1, g);
      WorldInvAlways(run, moves, j - 1);
      OneMoveKeepsBundle(run[j - 1], moves[j - 1].pid, moves[j - 1].event, run[j], g);
      assert !DiscardedFrom(run[j - 1].store, run[j - 1 + 1].store, g);
    }
  }

  // ----- the ledger check of a signer -----

  /** The last page of a ledger check: a signer has the whole ledger and decides about it. */
  predicate LastPage(q: Process, issued: seq<LedgerRecord>) {
    q.LedgerCheckingLocked? && ListLedger(issued, |q.all|, PAGE_SIZE).Ok? && ListLedger(issued, |q.all|, PAGE_SIZE).value.next.None?
  }

  /** A signer's ledger check in any interleaving: at its last page it has read exactly the ledger of
      that moment, a ledger that the current document accepts; it refuses it exactly when some record
      is newer than the document the check was started with. */
  lemma SignerRefusesExactly(run: seq<World>, moves: seq<Move>, i: nat, p: Pid)
    requires IsProtocolRun(run, moves) && i < |run| && p in run[i].processes && LastPage(run[i].processes[p], run[i].store.issued)
    ensures var a, q := run[i].store, run[i].processes[p];
            var all := q.all + ListLedger(a.issued, |q.all|, PAGE_SIZE).value.records;
            && all == a.issued
            && a.document.Some? && LedgerAccepted(a.document.value, all)
            && (LedgerAccepted(q.state, all) <==> NoNewerRecord(q.state, all))
            && (!NoNewerRecord(q.state, all) ==> CheckPage(q, a.issued, a.now) == Manager(q.slug, q.name, q.loaded))
            && (NoNewerRecord(q.state, all) && MakeJob(q.loaded, q.request, a.now).Ok? ==>
                  CheckPage(q, a.issued, a.now) == Attempting(q.slug, q.name, q.loaded, MakeJob(q.loaded, q.request, a.now).value, 0))
  {
    hide IsProtocolRun;
    WorldInvAlways(run, moves, i);
    SignerDecides(run[i], p);
  }

  lemma SignerDecides(w: World, p: Pid)
    requires WorldInv(w) && p in w.processes && LastPage(w.processes[p], w.store.issued)
    ensures var a, q := w.store, w.processes[p];
            var all := q.all + ListLedger(a.issued, |q.all|, PAGE_SIZE).value.records;
            && all == a.issued
            && a.document.Some? && LedgerAccepted(a.document.value, all)
            && (LedgerAccepted(q.state, all) <==> NoNewerRecord(q.state, all))
            && (!NoNewerRecord(q.state, all) ==> CheckPage(q, a.issued, a.now) == Manager(q.slug, q.name, q.loaded))
            && (NoNewerRecord(q.state, all) && MakeJob(q.loaded, q.request, a.now).Ok? ==>
                  CheckPage(q, a.issued, a.now) == Attempting(q.slug, q.name, q.loaded, MakeJob(q.loaded, q.request, a.now).value, 0))
  {
    hide Inv, ValidState, LockInv, Sound, Load, RecordAccepted, Evolves, Kept, MakeJob;
    var a, q := w.store, w.processes[p];
    assert ProcessInv(a, q);
    PageExtends(a.issued, |q.all|, PAGE_SIZE);
    assert a.issued[..|q.all|] == q.all;
    KeptAccepted(a.document.value, a.issued, a.now);
    if LedgerAccepted(q.state, a.issued) {
      AcceptedIsNotNewer(q.state, a.issued);
    }
  }

  lemma AcceptedIsNotNewer(s: AuthorityState, issued: seq<LedgerRecord>)
    requires LedgerAccepted(s, issued)
    ensures NoNewerRecord(s, issued)
  {
    forall k | 0 <= k < |issued|
      ensures issued[k].authorityRevision <= s.revision
    {
      assert RecordAccepted(s, issued[k]);
    }
  }
}
