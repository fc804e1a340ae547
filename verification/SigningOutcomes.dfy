/** When a request is signed, how it is refused, and what the leaf and its record then hold, said of
    the request and the document (certs/issuer.go). */
module SigningOutcomes {
  import opened Wrappers
  import opened Certificates
  import opened Policy
  import opened PolicyMeaning
  import opened Authority
  import opened AuthorityInvariant
  import opened AuthorityOutcomes
  import opened Lifecycle
  import opened Signing
  import opened IssuerManagers

  /** Loading finds an issuer by its slug and its name, and takes its active version and the
      certificate of the active root. */
  lemma LoadExactly(s: AuthorityState, slug: Slug, name: string)
    requires ValidState(s)
    ensures var r := Load(s, slug, name);
            && (r.Ok? <==> slug in s.issuers && s.issuers[slug].definition.name == name)
            && (r.Err? ==> r.error == NotFound)
            && (r.Ok? ==>
                  var i, m := s.issuers[slug], r.value;
                  && m.revision == s.revision && m.mode == s.spec.mode && m.definition == i.definition
                  && i.activeVersion in i.versions && m.version == i.versions[i.activeVersion]
                  && s.activeRoot in s.roots && m.rootCertificate == s.roots[s.activeRoot].certificate)
  {
    if slug in s.issuers {
      assert ValidIssuer(s, slug);
      assert ValidVersion(s, slug, s.issuers[slug].activeVersion);
    }
    hide ValidRoot, ValidVersion, ValidPending;
  }

  /** The request obeys the policy, before and after the options apply, asks for an allowed profile
      and for at most a year, and ends at least five minutes before the issuer. */
  predicate Admissible(d: IssuerDefinition, issuer: Certificate, q: Request, now: Instant) {
    && SubjectObeys(d, q.csrSubject) && SANsObey(d.sanPolicy, q.csrSANs)
    && SubjectObeys(d, q.subject) && SANsObey(d.sanPolicy, q.sans)
    && (exists i :: 0 <= i < |d.allowedProfiles| && d.allowedProfiles[i] == q.profile)
    && 0 < q.lifetime <= 31_536_000_000_000_000
    && now - now % 1_000_000_000 + q.lifetime + 300_000_000_000 <= issuer.notAfter
  }

  /** The checks before the signing loop pass exactly for an admissible request, and what is then
      signed is the request's. What the policy or the profiles forbid is refused as forbidden, a
      validity as invalid. */
  lemma JobExactly(m: Loaded, q: Request, now: Instant)
    ensures var r := MakeJob(m, q, now);
            && (r.Ok? <==> Admissible(m.definition, m.version.certificate, q, now))
            && (r.Ok? ==>
                  var start := now - now % 1_000_000_000;
                  r.value == Job(q.subject, q.sans, q.profile, q.publicKey, start, start + q.lifetime))
            && (r.Err? ==>
                  r.error ==
                  if SubjectObeys(m.definition, q.csrSubject) && SANsObey(m.definition.sanPolicy, q.csrSANs)
                     && SubjectObeys(m.definition, q.subject) && SANsObey(m.definition.sanPolicy, q.sans)
                     && q.profile in m.definition.allowedProfiles
                  then Validation else Forbidden)
  {
    PolicyExactly(m.definition, q.csrSubject, q.csrSANs, q.profile);
    PolicyExactly(m.definition, q.subject, q.sans, q.profile);
    hide RequestAllowed, SubjectObeys, SANsObey, Permits;
  }

  /** A leaf for a request: its names and key, signed by the issuer, for one profile, valid from five
      minutes ago to the end asked for. */
  predicate LeafFor(c: Certificate, q: Request, issuer: Certificate, now: Instant, d: Draw) {
    var start := now - now % 1_000_000_000;
    && c.serial == d.serial && c.raw == d.raw
    && c.subject == q.subject && c.sans == q.sans && c.publicKey == q.publicKey
    && c.profile == {q.profile} && c.usage == {DigitalSignature}
    && !c.isCA && c.basicConstraintsValid && c.maxPathLen == -1
    && c.issuer == issuer.subject && c.signedBy == issuer.publicKey
    && c.notBefore == start - 300_000_000_000
    && q.lifetime >= 0 && c.notAfter == start + q.lifetime - (start + q.lifetime) % 1_000_000_000
  }

  /** The record of a leaf: who signed it, on which revision, and what it says. */
  predicate RecordFor(r: LedgerRecord, c: Certificate, q: Request, slug: Slug, version: int, revision: nat, now: Instant) {
    var start := now - now % 1_000_000_000;
    && r.authorityRevision == revision && r.issuer == slug && r.issuerVersion == version
    && r.certificate == c && r.fingerprint == c.raw && r.serial == c.serial
    && r.subject == q.subject && r.sans == q.sans && r.profile == q.profile
    && r.issuedAt == start && q.lifetime >= 0 && r.expiresAt == start + q.lifetime
  }

  lemma LeafExactly(m: Loaded, q: Request, now: Instant, slug: Slug, d: Draw)
    requires m.version.key == Some(m.version.certificate.publicKey) && MakeJob(m, q, now).Ok?
    ensures var job := MakeJob(m, q, now).value;
            && LeafFor(LeafOf(m, job, d), q, m.version.certificate, now, d)
            && RecordFor(RecordOf(slug, m, job, d), LeafOf(m, job, d), q, slug, m.version.version, m.revision, now)
  {
    JobExactly(m, q, now);
    hide MakeJob;
  }

  /** No record has this serial under this issuer version, nor these bytes. */
  predicate NewDraw(ledger: seq<LedgerRecord>, slug: Slug, version: int, d: Draw) {
    forall i :: 0 <= i < |ledger| ==>
      && !(ledger[i].issuer == slug && ledger[i].issuerVersion == version && ledger[i].serial == d.serial)
      && ledger[i].fingerprint != d.raw
  }

  lemma TakenExactly(ledger: seq<LedgerRecord>, slug: Slug, m: Loaded, job: Job, d: Draw)
    requires m.version.key.Some?
    ensures Taken(ledger, RecordOf(slug, m, job, d)) <==> !NewDraw(ledger, slug, m.version.version, d)
  {
    var r := RecordOf(slug, m, job, d);
    assert r.issuer == slug && r.issuerVersion == m.version.version && r.serial == d.serial && r.fingerprint == d.raw;
    hide RecordOf;
  }

  lemma SignedParts(s: AuthorityState, ledger: seq<LedgerRecord>, name: string, q: Request, now: Instant, draws: Draws)
    requires ValidState(s)
    ensures var slug := SlugOf(name);
            var m := Load(s, slug, name);
            Signed(Some(s), ledger, name, q, now, draws) ==
            if m.Err? then Err(m.error)
            else if !(LedgerReadable(ledger) && LedgerAccepted(s, ledger)) then Err(Corrupt)
            else var job := MakeJob(m.value, q, now);
                 if job.Err? then Err(job.error)
                 else var k := Winner(s, ledger, slug, m.value, job.value, draws, 0);
                      if k.Err? then Err(k.error) else Ok((m.value, job.value, draws(k.value)))
  {
    hide ValidState, LedgerReadable, LedgerAccepted, MakeJob, Winner, Load;
  }

  /** In every reachable Ledger-mode state a request is signed exactly when the issuer is there, the
      request is admissible, its lifetime is a whole number of seconds, and one of the first eight
      draws is new to the ledger. */
  lemma SignsExactly(a: Store, name: string, q: Request, draws: Draws)
    requires StoreInv(a) && a.document.Some? && a.document.value.spec.mode == Ledger
    requires a.document.value.revision > 0 && a.now >= 1_000_000_000
    ensures var s := a.document.value;
            var slug := SlugOf(name);
            Signed(a.document, a.issued, name, q, a.now, draws).Ok? <==>
              && slug in s.issuers && s.issuers[slug].definition.name == name
              && var i := s.issuers[slug];
                 && i.activeVersion in i.versions
                 && Admissible(i.definition, i.versions[i.activeVersion].certificate, q, a.now)
                 && q.lifetime % 1_000_000_000 == 0
                 && exists k :: 0 <= k < 8 && NewDraw(a.issued, slug, i.activeVersion, draws(k))
  {
    hide Inv, ValidState, Admissible, Winner, MakeJob, Load, LedgerReadable, LedgerAccepted, NewDraw, Taken, RecordOf;
    var s := a.document.value;
    var slug := SlugOf(name);
    LoadExactly(s, slug, name);
    SignedParts(s, a.issued, name, q, a.now, draws);
    if slug in s.issuers && s.issuers[slug].definition.name == name {
      var m := Load(s, slug, name).value;
      KeptReadable(a);
      JobExactly(m, q, a.now);
      if MakeJob(m, q, a.now).Ok? {
        SigningSucceeds(s, a.issued, name, q, a.now, draws);
        VersionNumber(s, slug);
        var job := MakeJob(m, q, a.now).value;
        forall k | 0 <= k < 8
          ensures Taken(a.issued, RecordOf(slug, m, job, draws(k))) <==> !NewDraw(a.issued, slug, m.version.version, draws(k))
        {
          TakenExactly(a.issued, slug, m, job, draws(k));
        }
      }
    }
  }

  lemma VersionNumber(s: AuthorityState, slug: Slug)
    requires ValidState(s) && slug in s.issuers
    ensures var i := s.issuers[slug];
            i.activeVersion in i.versions && i.versions[i.activeVersion].version == i.activeVersion
            && i.versions[i.activeVersion].key == Some(i.versions[i.activeVersion].certificate.publicKey)
  {
    assert ValidIssuer(s, slug);
    assert ValidVersion(s, slug, s.issuers[slug].activeVersion);
  }

  lemma KeptReadable(a: Store)
    requires StoreInv(a) && a.document.Some?
    ensures LedgerReadable(a.issued) && LedgerAccepted(a.document.value, a.issued)
  {
    Safety.KeptAccepted(a.document.value, a.issued, a.now);
    forall i | 0 <= i < |a.issued|
      ensures ValidRecord(a.issued[i])
    {
      assert Kept(a.document.value, a.issued[i], a.now);
    }
  }

  /** What is signed is the request, with the first new draw, by the active version of the issuer; the
      ledger gets the record of exactly this leaf. */
  lemma SignsContents(a: Store, name: string, q: Request, draws: Draws)
    requires StoreInv(a) && a.document.Some? && a.document.value.spec.mode == Ledger
    requires a.document.value.revision > 0 && a.now >= 1_000_000_000
    requires Signed(a.document, a.issued, name, q, a.now, draws).Ok?
    ensures var s := a.document.value;
            var slug := SlugOf(name);
            var (m, job, d) := Signed(a.document, a.issued, name, q, a.now, draws).value;
            && slug in s.issuers && m.version.key.Some?
            && var i := s.issuers[slug];
               && i.activeVersion in i.versions && m.version == i.versions[i.activeVersion]
               && (exists k :: 0 <= k < 8 && d == draws(k) && NewDraw(a.issued, slug, i.activeVersion, d)
                     && forall j :: 0 <= j < k ==> !NewDraw(a.issued, slug, i.activeVersion, draws(j)))
               && var c := LeafOf(m, job, d);
                  && LeafFor(c, q, i.versions[i.activeVersion].certificate, a.now, d)
                  && RecordFor(RecordOf(slug, m, job, d), c, q, slug, i.activeVersion, s.revision, a.now)
  {
    hide Inv, ValidState, Winner, MakeJob, Load, LedgerReadable, LedgerAccepted, NewDraw, Taken, RecordOf, LeafOf, LeafFor, RecordFor, CheckAppend;
    var s := a.document.value;
    var slug := SlugOf(name);
    LoadExactly(s, slug, name);
    SignedParts(s, a.issued, name, q, a.now, draws);
    VersionNumber(s, slug);
    KeptReadable(a);
    var m := Load(s, slug, name).value;
    var job := MakeJob(m, q, a.now).value;
    SigningSucceeds(s, a.issued, name, q, a.now, draws);
    AppendableDraws(s, slug, name, q, a.now, draws);
    FirstFreeWins(s, a.issued, slug, m, job, draws, 0);
    var k := Winner(s, a.issued, slug, m, job, draws, 0).value;
    forall j: nat
      ensures Taken(a.issued, RecordOf(slug, m, job, draws(j))) <==> !NewDraw(a.issued, slug, m.version.version, draws(j))
    {
      TakenExactly(a.issued, slug, m, job, draws(j));
    }
    LeafExactly(m, q, a.now, slug, draws(k));
  }

  lemma AppendableDraws(s: AuthorityState, slug: Slug, name: string, q: Request, now: Instant, draws: Draws)
    requires Inv(s) && ValidState(s) && s.revision > 0 && now >= SECOND && q.lifetime % SECOND == 0
    requires slug in s.issuers && s.issuers[slug].definition.name == name
    requires Load(s, slug, name).Ok? && MakeJob(Load(s, slug, name).value, q, now).Ok? && Load(s, slug, name).value.version.key.Some?
    ensures AllAppendable(s, slug, Load(s, slug, name).value, MakeJob(Load(s, slug, name).value, q, now).value, draws)
  {
    hide Inv, ValidState, MakeJob, Load, CheckAppend;
    forall k
      ensures CheckAppend(s, RecordOf(slug, Load(s, slug, name).value, MakeJob(Load(s, slug, name).value, q, now).value, draws(k))).Ok?
    {
      CurrentRecordAccepted(s, slug, q, now, draws(k).serial, draws(k).raw);
    }
  }

  /** Without a ledger the first draw is used and nothing but the request decides. */
  lemma SignsWithoutLedger(m: Loaded, q: Request, now: Instant, d: Draw)
    requires Sound(m)
    ensures MakeJob(m, q, now).Ok? <==> Admissible(m.definition, m.version.certificate, q, now)
    ensures MakeJob(m, q, now).Ok? ==>
            && LeafFor(LeafOf(m, MakeJob(m, q, now).value, d), q, m.version.certificate, now, d)
            && IssuedBundle(m, LeafOf(m, MakeJob(m, q, now).value, d)).certs
               == [LeafOf(m, MakeJob(m, q, now).value, d), m.version.certificate, m.rootCertificate]
  {
    hide Admissible, LeafFor, LeafOf, MakeJob;
    JobExactly(m, q, now);
    if MakeJob(m, q, now).Ok? {
      LeafExactly(m, q, now, "", d);
    }
  }
}
