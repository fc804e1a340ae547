/** A concrete request that every check of SignCSR accepts and whose record the ledger then refuses:
    its lifetime is a second and a half. */
module FractionExample {
  import opened Wrappers
  import opened Certificates
  import opened Policy
  import opened Authority
  import opened AuthorityInvariant
  import opened Lifecycle
  import opened Signing
  import opened IssuerManagers
  import opened StaleCheckExample

  const DRAWS: Draws := (k: nat) => Draw(6 + k, 6 + k)

  const FRACTIONAL := REQUEST.(lifetime := 1_500_000_000)

  /** An admissible request with the validity of any positive lifetime below a minute. */
  lemma ShortRequestAdmitted(s: AuthorityState, lifetime: nat)
    requires AfterProvision(s) && 0 < lifetime < 60 * SECOND
    ensures Load(s, "a", "a").Ok? && MakeJob(Load(s, "a", "a").value, REQUEST.(lifetime := lifetime), NOW).Ok?
  {
    LoadSound(s, "a");
    WholeSecondsBounds(NOW);
    WholeSecondsBounds(NOW + 2 * MAXIMUM_LEAF_VALIDITY);
  }

  /** After provisioning, with an empty ledger, the same request is signed when it asks for one
      second and refused as corrupt when it asks for one and a half. */
  lemma FractionalLifetimeIsRefused() returns (run: seq<Store>, steps: seq<Step>)
    ensures IsRun(run, steps) && |run| == 2
    ensures var a := run[1];
            && a.document.Some? && a.issued == [] && ValidState(a.document.value)
            && Load(a.document.value, SlugOf("a"), "a").Ok?
            && MakeJob(Load(a.document.value, SlugOf("a"), "a").value, FRACTIONAL, a.now).Ok?
            && Signed(a.document, a.issued, "a", FRACTIONAL, a.now, DRAWS) == Err(Corrupt)
            && Signed(a.document, a.issued, "a", REQUEST, a.now, DRAWS).Ok?
  {
    hide Next, Inv, ValidState, Load, MakeJob;
    var s := Provisioned();
    run, steps := [EMPTY_STORE, EMPTY_STORE.(document := Some(s))], [Change(Config([Definition("a")]), Call(FIRST), NOW)];
    assert IsRun(run, steps);
    assert SlugOf("a") == "a";
    ShortRequestAdmitted(s, SECOND);
    ShortRequestAdmitted(s, 1_500_000_000);
    assert REQUEST.(lifetime := SECOND) == REQUEST;
    FirstDrawDecides(s, REQUEST);
    FirstDrawDecides(s, FRACTIONAL);
  }

  lemma FirstDrawDecides(s: AuthorityState, q: Request)
    requires AfterProvision(s) && Load(s, "a", "a").Ok? && MakeJob(Load(s, "a", "a").value, q, NOW).Ok?
    ensures if q.lifetime % SECOND == 0 then Signed(Some(s), [], "a", q, NOW, DRAWS).Ok?
            else Signed(Some(s), [], "a", q, NOW, DRAWS) == Err(Corrupt)
  {
    assert SlugOf("a") == "a";
    var m := Load(s, "a", "a").value;
    var job := MakeJob(m, q, NOW).value;
    CurrentRecordAccepted(s, "a", q, NOW, 6, 6);
    CurrentNeverConflicts(s, job);
    hide Inv, ValidState, Load, MakeJob, CheckAppend, MakeRecord, MakeLeaf;
  }

  /** The only reason left to refuse a record of current material is its content. */
  lemma CurrentNeverConflicts(s: AuthorityState, job: Job)
    requires AfterProvision(s) && Load(s, "a", "a").Ok? && Load(s, "a", "a").value.version.key.Some?
    ensures var m := Load(s, "a", "a").value;
            var r := CheckAppend(s, MakeRecord("a", m, job, MakeLeaf(m, job, 6, 6)));
            r.Err? ==> r.error == Corrupt
  {
    assert IssuerInv(s, "a");
    assert VersionInv(s, "a", 1);
  }
}
