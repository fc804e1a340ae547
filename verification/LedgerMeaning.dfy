/** What every leaf that was ever recorded says of itself, in every run and every interleaving. */
module LedgerMeaning {
  import opened Certificates
  import opened Policy
  import opened PolicyMeaning
  import opened Authority
  import opened AuthorityInvariant
  import opened AuthorityOutcomes
  import opened Lifecycle
  import opened Signing
  import opened Protocol
  import opened ProtocolInvariant
  import opened ProtocolSafety

  /** A recorded leaf: the record agrees with it, the issuer version named there signed it, the
      issuer's policy allows its names and profile, and its validity is at most a year and nested in
      the issuer's and the root's with five minutes to spare. */
  predicate LeafInOrder(s: AuthorityState, r: LedgerRecord, now: Instant) {
    && WellFormed(r) && Vouched(s, r)
    && var i := s.issuers[r.issuer];
       var v := i.versions[r.issuerVersion];
       && SubjectObeys(i.definition, r.certificate.subject)
       && SANsObey(i.definition.sanPolicy, r.certificate.sans)
       && (exists k :: 0 <= k < |i.definition.allowedProfiles| && r.certificate.profile == {i.definition.allowedProfiles[k]})
       && 1 <= r.issuerVersion <= i.activeVersion
       && v.rootGeneration in s.roots
       && r.certificate.notAfter + 300_000_000_000 <= v.certificate.notAfter
       && v.certificate.notAfter + 300_000_000_000 <= s.roots[v.rootGeneration].certificate.notAfter
       && r.issuedAt <= now
       && r.certificate.notAfter <= r.certificate.notBefore + 300_000_000_000 + 31_536_000_000_000_000
  }

  /** No two records share an issuer serial or the bytes of the leaf. */
  predicate AllDifferent(ledger: seq<LedgerRecord>) {
    forall i, j :: 0 <= i < |ledger| && 0 <= j < |ledger| && i != j ==>
      && ledger[i].fingerprint != ledger[j].fingerprint
      && (ledger[i].issuer, ledger[i].issuerVersion, ledger[i].serial) != (ledger[j].issuer, ledger[j].issuerVersion, ledger[j].serial)
  }

  lemma KeptInOrder(s: AuthorityState, r: LedgerRecord, now: Instant)
    requires Inv(s) && Kept(s, r, now)
    ensures LeafInOrder(s, r, now)
  {
    assert IssuerInv(s, r.issuer);
    assert VersionInv(s, r.issuer, r.issuerVersion);
    PolicyExactly(s.issuers[r.issuer].definition, r.subject, r.sans, r.profile);
    hide RequestAllowed, Permits, SubjectObeys, SANsObey, RootInv, IssuerInv;
  }

  lemma StoreInOrder(a: Store)
    requires StoreInv(a)
    ensures a.issued != [] ==> a.document.Some?
    ensures forall k :: 0 <= k < |a.issued| ==> LeafInOrder(a.document.value, a.issued[k], a.now)
    ensures a.document.Some? && a.document.value.spec.mode == Ledger ==> AllDifferent(a.issued)
  {
    hide Inv, ValidState;
    forall k | 0 <= k < |a.issued|
      ensures LeafInOrder(a.document.value, a.issued[k], a.now)
    {
      assert Kept(a.document.value, a.issued[k], a.now);
      KeptInOrder(a.document.value, a.issued[k], a.now);
    }
    if a.document.Some? && a.document.value.spec.mode == Ledger {
      hide Kept, LeafInOrder;
      forall i, j | 0 <= i < |a.issued| && 0 <= j < |a.issued| && i != j
        ensures a.issued[i].fingerprint != a.issued[j].fingerprint
        ensures (a.issued[i].issuer, a.issued[i].issuerVersion, a.issued[i].serial) != (a.issued[j].issuer, a.issued[j].issuerVersion, a.issued[j].serial)
      {
        var x, y := if i < j then i else j, if i < j then j else i;
        assert !Clashes(a.issued[x], a.issued[y]);
      }
    }
  }

  /** In every state of every run every leaf recorded so far is in order, and with a ledger no two are
      alike. */
  lemma LeavesInEveryRun(run: seq<Store>, steps: seq<Step>, i: nat)
    requires IsRun(run, steps) && i < |run|
    ensures var a := run[i];
            && (a.issued != [] ==> a.document.Some?)
            && (forall k :: 0 <= k < |a.issued| ==> LeafInOrder(a.document.value, a.issued[k], a.now))
            && (a.document.Some? && a.document.value.spec.mode == Ledger ==> AllDifferent(a.issued))
  {
    hide StoreInv, LeafInOrder, AllDifferent;
    RunKeepsStoreInv(run, steps, i);
    StoreInOrder(run[i]);
  }

  /** A document that is there has been written at least once. */
  lemma {:induction false} RevisionInEveryRun(run: seq<Store>, steps: seq<Step>, i: nat)
    requires IsRun(run, steps) && i < |run|
    ensures run[i].document.Some? ==> run[i].document.value.revision >= 1
  {
    hide StoreInv, Inv, ValidState, Update;
    if i > 0 {
      RevisionInEveryRun(run, steps, i - 1);
      RunKeepsStoreInv(run, steps, i - 1);
      assert Next(run[i - 1], steps[i - 1], run[i]);
      if steps[i - 1].Change? {
        WrittenRevision(run[i - 1], steps[i - 1].cfg, steps[i - 1].cmd, steps[i - 1].at);
      }
    }
  }

  lemma WrittenRevision(a: Store, cfg: ManagerConfig, cmd: Command, at: Instant)
    requires StoreInv(a) && CanChange(a, cfg, cmd, at)
    ensures Update(a.document, cfg, cmd, a.issued, at).value.revision >= 1
  {
    hide Inv, ValidState, Update, Mutate;
    UpdateInv(a.document, cfg, cmd, a.issued, at);
  }

  /** The same whatever the interleaving: also for a leaf whose issuer was reloaded in the middle of
      signing, when only its validity is checked again. */
  lemma LeavesInEveryInterleaving(run: seq<World>, moves: seq<Move>, i: nat)
    requires IsProtocolRun(run, moves) && i < |run|
    ensures var a := run[i].store;
            && (a.issued != [] ==> a.document.Some?)
            && (forall k :: 0 <= k < |a.issued| ==> LeafInOrder(a.document.value, a.issued[k], a.now))
            && (a.document.Some? && a.document.value.spec.mode == Ledger ==> AllDifferent(a.issued))
  {
    hide StoreInv, LeafInOrder, AllDifferent, LockInv, ProcessInv, Start, Steps;
    WorldInvAlways(run, moves, i);
    assert StoreInv(run[i].store);
    StoreInOrder(run[i].store);
  }
}
