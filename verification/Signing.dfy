/** What an issuer loads, checks and signs (certs/issuer.go), as values. */
module Signing {
  import opened Wrappers
  import opened Certificates
  import opened Policy
  import opened Authority
  import opened AuthorityInvariant

  /** The fields that reload refreshes. */
  datatype Loaded = Loaded(
    revision: nat,
    definition: IssuerDefinition,
    version: IssuerVersion,
    rootCertificate: Certificate,
    mode: IssuanceMode)

  /** reload, for an issuer manager of the given name. */
  function Load(s: AuthorityState, slug: Slug, name: string): Result<Loaded>
    requires ValidState(s)
  {
    if slug !in s.issuers || s.issuers[slug].definition.name != name then Err(NotFound)
    else
      assert ValidIssuer(s, slug);
      var v := s.issuers[slug].versions[s.issuers[slug].activeVersion];
      assert ValidVersion(s, slug, s.issuers[slug].activeVersion);
      if v.key.None? || v.key.value != v.certificate.publicKey then Err(Corrupt)
      else Ok(Loaded(s.revision, s.issuers[slug].definition, v, s.roots[v.rootGeneration].certificate, s.spec.mode))
  }

  /** A signing request: what the CSR says and what the options turn it into. */
  datatype Request = Request(
    csrSubject: Identity,
    csrSANs: SANs,
    subject: Identity,
    sans: SANs,
    profile: Profile,
    lifetime: int,
    publicKey: nat)

  /** A request that passed every check, with its validity fixed. */
  datatype Job = Job(subject: Identity, sans: SANs, profile: Profile, publicKey: nat, issuedAt: Instant, notAfter: Instant)

  predicate Fits(notAfter: Instant, issuer: Certificate) {
    notAfter + CLOCK_SKEW <= issuer.notAfter
  }

  /** The checks of SignCSR between loading and the signing loop. */
  function MakeJob(m: Loaded, q: Request, now: Instant): Result<Job> {
    if !RequestAllowed(m.definition, q.csrSubject, q.csrSANs) then Err(Forbidden)
    else if !RequestAllowed(m.definition, q.subject, q.sans) then Err(Forbidden)
    else if q.profile !in m.definition.allowedProfiles then Err(Forbidden)
    else if q.lifetime <= 0 || q.lifetime > MAXIMUM_LEAF_VALIDITY then Err(Validation)
    else
      var issuedAt := WholeSeconds(now);
      var notAfter := issuedAt + q.lifetime;
      if !Fits(notAfter, m.version.certificate) then Err(Validation)
      else Ok(Job(q.subject, q.sans, q.profile, q.publicKey, issuedAt, notAfter))
  }

  function MakeLeaf(m: Loaded, job: Job, serial: nat, raw: nat): Certificate
    requires m.version.key.Some?
  {
    Certificate(raw, serial, job.subject, m.version.certificate.subject, job.publicKey, m.version.key.value,
                job.issuedAt - CLOCK_SKEW, WholeSeconds(job.notAfter), false, true, -1, {DigitalSignature}, {job.profile}, job.sans)
  }

  function MakeRecord(slug: Slug, m: Loaded, job: Job, leaf: Certificate): LedgerRecord {
    LedgerRecord(m.revision, leaf.raw, slug, m.version.version, leaf.serial, leaf,
                 job.subject, job.sans, job.profile, job.issuedAt, job.notAfter)
  }

  /** What the signing loop relies on at the top of every attempt. */
  predicate JobHolds(m: Loaded, job: Job, now: Instant) {
    && Permits(m.definition, job.subject, job.sans, job.profile)
    && Fits(job.notAfter, m.version.certificate)
    && job.issuedAt <= now
    && job.issuedAt < job.notAfter <= job.issuedAt + MAXIMUM_LEAF_VALIDITY
  }

  lemma MadeJobHolds(m: Loaded, q: Request, now: Instant)
    requires MakeJob(m, q, now).Ok?
    ensures JobHolds(m, MakeJob(m, q, now).value, now)
  {
    WholeSecondsBounds(now);
  }

  /** Loaded material whose certificate and key belong together. */
  predicate Sound(m: Loaded) {
    && m.version.key == Some(m.version.certificate.publicKey)
    && CACapable(m.version.certificate)
    && m.version.version >= 1
    && m.version.certificate.notAfter + CLOCK_SKEW <= m.rootCertificate.notAfter
    && SignedBy(m.version.certificate, m.rootCertificate)
    && Chained(m.version.certificate, m.rootCertificate)
    && m.rootCertificate.subject == m.rootCertificate.issuer
    && m.rootCertificate.isCA
    && SignedBy(m.rootCertificate, m.rootCertificate)
  }

  /** Loading from a reachable document always yields sound material. */
  lemma LoadSound(s: AuthorityState, slug: Slug)
    requires Inv(s) && ValidState(s) && slug in s.issuers
    ensures Load(s, slug, s.issuers[slug].definition.name).Ok?
    ensures Sound(Load(s, slug, s.issuers[slug].definition.name).value)
  {
    assert IssuerInv(s, slug);
    assert VersionInv(s, slug, s.issuers[slug].activeVersion);
    assert RootInv(s, s.issuers[slug].versions[s.issuers[slug].activeVersion].rootGeneration);
  }

  /** Counted from a whole second, an end is a whole second exactly when the lifetime is one. */
  lemma FractionIsDropped(now: Instant, notAfter: Instant, lifetime: int)
    requires now >= SECOND && notAfter == WholeSeconds(now) + lifetime
    ensures WholeSeconds(notAfter) == notAfter <==> lifetime % SECOND == 0
    ensures WholeSeconds(now) > 0
  {
    WholeSecondsBounds(now);
    var t := WholeSeconds(now) / SECOND;
    assert notAfter == t * SECOND + lifetime;
    assert notAfter % SECOND == lifetime % SECOND;
  }

  /** A record made from current material is refused by the append check exactly when the requested
      lifetime is not a whole number of seconds: the certificate drops the fraction, the record
      keeps it. */
  lemma CurrentRecordAccepted(s: AuthorityState, slug: Slug, q: Request, now: Instant, serial: nat, raw: nat)
    requires Inv(s) && ValidState(s) && slug in s.issuers && s.revision > 0 && now >= SECOND
    requires MakeJob(Load(s, slug, s.issuers[slug].definition.name).value, q, now).Ok?
    ensures var m := Load(s, slug, s.issuers[slug].definition.name).value;
            var job := MakeJob(m, q, now).value;
            m.version.key.Some?
            && (CheckAppend(s, MakeRecord(slug, m, job, MakeLeaf(m, job, serial, raw))).Ok? <==> q.lifetime % SECOND == 0)
  {
    LoadSound(s, slug);
    assert IssuerInv(s, slug);
    FractionIsDropped(now, MakeJob(Load(s, slug, s.issuers[slug].definition.name).value, q, now).value.notAfter, q.lifetime);
    hide Inv, ValidState, Sound, WholeSeconds, RequestAllowed, Fits;
  }
}
