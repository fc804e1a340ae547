/** The persisted authority document, its checks, and what each mutation computes. */
module Authority {
  import opened Wrappers
  import opened Certificates
  import opened Policy
  import Text

  const BACKEND := "file"
  const FORMAT_VERSION := 1
  const DEFAULT_ROTATE_BEFORE: nat := 1_728_000_000_000_000

  datatype IssuanceMode = NoLedger | Ledger

  datatype AuthoritySpec = AuthoritySpec(
    id: string,
    formatVersion: int,
    name: string,
    identity: Identity,
    rootValidity: nat,
    mode: IssuanceMode,
    backend: string)

  datatype RootRecord = RootRecord(
    generation: int,
    certificate: Certificate,
    key: Option<nat>,
    fingerprint: nat,
    retiredTrustUntil: Instant)

  datatype IssuerVersion = IssuerVersion(
    version: int,
    rootGeneration: int,
    certificate: Certificate,
    key: Option<nat>,
    fingerprint: nat)

  datatype IssuerRecord = IssuerRecord(
    definition: IssuerDefinition,
    activeVersion: int,
    versions: map<int, IssuerVersion>)

  datatype PendingKind = PendingRoot | PendingIssuer

  datatype Pending = Pending(
    kind: PendingKind,
    expectedRevision: nat,
    rootGeneration: int,
    issuers: map<Slug, int>,
    createdAt: Instant)

  datatype AuthorityState = AuthorityState(
    spec: AuthoritySpec,
    revision: nat,
    activeRoot: int,
    roots: map<int, RootRecord>,
    issuers: map<Slug, IssuerRecord>,
    pending: Option<Pending>)

  const NO_IDENTITY := Identity("", "", "", "", "", "")

  /** The zero authorityState that update hands to a mutation when no document exists. */
  const EMPTY_STATE := AuthorityState(
    AuthoritySpec("", 0, "", NO_IDENTITY, 0, NoLedger, ""), 0, 0, map[], map[], None)

  // ----- names -----

  function RootName(spec: AuthoritySpec, generation: int): Identity {
    spec.identity.(commonName := spec.name + " G" + Text.Itoa(generation) + " Root CA")
  }

  function IssuerName(spec: AuthoritySpec, generation: int, name: string, version: int): Identity {
    spec.identity.(commonName :=
      spec.name + " G" + Text.Itoa(generation) + " " + name + " Issuer V" + Text.Itoa(version))
  }

  // ----- validateState -----

  predicate PendingIs(s: AuthorityState, kind: PendingKind) {
    s.pending.Some? && s.pending.value.kind == kind
  }

  predicate RootNeedsKey(s: AuthorityState, generation: int) {
    generation == s.activeRoot || (PendingIs(s, PendingRoot) && generation == s.pending.value.rootGeneration)
  }

  /** The manifest's entry for an issuer; a Go map gives 0 for one that it does not name. */
  function PendingEntry(p: Pending, slug: Slug): int {
    if slug in p.issuers then p.issuers[slug] else 0
  }

  predicate PendingVersion(s: AuthorityState, slug: Slug, version: int) {
    s.pending.Some? && PendingEntry(s.pending.value, slug) == version
  }

  predicate VersionNeedsKey(s: AuthorityState, slug: Slug, version: int)
    requires slug in s.issuers
  {
    version == s.issuers[slug].activeVersion || PendingVersion(s, slug, version)
  }

  predicate ValidSpec(spec: AuthoritySpec) {
    spec.id != "" && spec.formatVersion == FORMAT_VERSION && spec.name != ""
  }

  /** The common name is the generation's, and identityFromCAName, which leaves the common name
      empty, gives the stored identity. */
  predicate SubjectMatches(spec: AuthoritySpec, generation: int, subject: Identity) {
    subject.commonName == RootName(spec, generation).commonName && subject.(commonName := "") == spec.identity
  }

  predicate ValidRoot(s: AuthorityState, generation: int)
    requires generation in s.roots
  {
    var r := s.roots[generation];
    var c := r.certificate;
    && r.generation == generation
    && c.isCA && c.basicConstraintsValid && c.maxPathLen == 1
    && CertSign in c.usage && CRLSign in c.usage
    && SignedBy(c, c)
    && c.raw == r.fingerprint
    && (r.key.Some? <==> RootNeedsKey(s, generation))
    && SubjectMatches(s.spec, generation, c.subject)
  }

  predicate ValidVersion(s: AuthorityState, slug: Slug, version: int)
    requires slug in s.issuers && version in s.issuers[slug].versions
  {
    var v := s.issuers[slug].versions[version];
    var c := v.certificate;
    && v.version == version
    && v.rootGeneration in s.roots
    && SignedBy(c, s.roots[v.rootGeneration].certificate)
    && c.isCA && c.basicConstraintsValid && c.maxPathLen == 0 && CertSign in c.usage
    && c.subject.commonName == IssuerName(s.spec, v.rootGeneration, s.issuers[slug].definition.name, version).commonName
    && c.raw == v.fingerprint
    && c.notAfter + CLOCK_SKEW <= s.roots[v.rootGeneration].certificate.notAfter
    && (v.key.Some? <==> VersionNeedsKey(s, slug, version))
  }

  predicate ValidIssuer(s: AuthorityState, slug: Slug)
    requires slug in s.issuers
  {
    var i := s.issuers[slug];
    && i.definition.slug == slug
    && i.activeVersion >= 1
    && i.activeVersion in i.versions
    && ValidDefinition(i.definition)
    && (forall version :: version in i.versions ==> ValidVersion(s, slug, version))
    && i.versions[i.activeVersion].rootGeneration == s.activeRoot
    && i.versions[i.activeVersion].key == Some(i.versions[i.activeVersion].certificate.publicKey)
  }

  predicate ValidPending(s: AuthorityState) {
    s.pending.Some? ==>
      var p := s.pending.value;
      && p.expectedRevision <= s.revision
      && (p.kind == PendingRoot ==> p.rootGeneration in s.roots && |p.issuers| == |s.issuers|)
      && (forall slug :: slug in p.issuers ==> slug in s.issuers && p.issuers[slug] in s.issuers[slug].versions)
  }

  /** validateState returns nil. */
  predicate ValidState(s: AuthorityState) {
    && ValidSpec(s.spec)
    && s.activeRoot >= 1 && s.activeRoot in s.roots
    && (forall generation :: generation in s.roots ==> ValidRoot(s, generation))
    && (forall slug :: slug in s.issuers ==> ValidIssuer(s, slug))
    && ValidPending(s)
  }

  // ----- the errors of validateState -----

  function RootError(s: AuthorityState, generation: int): (e: Option<Error>)
    requires generation in s.roots
    ensures e.None? <==> ValidRoot(s, generation)
    ensures e.Some? ==> e.value in {Corrupt, Drift}
  {
    var r := s.roots[generation];
    var c := r.certificate;
    if r.generation != generation then Some(Corrupt)
    else if !(c.isCA && c.basicConstraintsValid && c.maxPathLen == 1 && CertSign in c.usage && CRLSign in c.usage && SignedBy(c, c))
    then Some(Corrupt)
    else if c.raw != r.fingerprint then Some(Drift)
    else if !(r.key.Some? <==> RootNeedsKey(s, generation)) then Some(Corrupt)
    else if !SubjectMatches(s.spec, generation, c.subject) then Some(Drift)
    else None
  }

  function VersionError(s: AuthorityState, slug: Slug, version: int): (e: Option<Error>)
    requires slug in s.issuers && version in s.issuers[slug].versions
    ensures e.None? <==> ValidVersion(s, slug, version)
    ensures e.Some? ==> e.value in {Corrupt, Drift}
  {
    var v := s.issuers[slug].versions[version];
    var c := v.certificate;
    if v.version != version || v.rootGeneration !in s.roots then Some(Corrupt)
    else if !(SignedBy(c, s.roots[v.rootGeneration].certificate)
              && c.isCA && c.basicConstraintsValid && c.maxPathLen == 0 && CertSign in c.usage) then Some(Corrupt)
    else if c.subject.commonName != IssuerName(s.spec, v.rootGeneration, s.issuers[slug].definition.name, version).commonName
    then Some(Drift)
    else if c.raw != v.fingerprint then Some(Drift)
    else if c.notAfter + CLOCK_SKEW > s.roots[v.rootGeneration].certificate.notAfter then Some(Corrupt)
    else if !(v.key.Some? <==> VersionNeedsKey(s, slug, version)) then Some(Corrupt)
    else None
  }

  predicate KnownIssuer(s: AuthorityState, slug: Slug)
    requires slug in s.issuers
  {
    var i := s.issuers[slug];
    i.definition.slug == slug && i.activeVersion >= 1 && i.activeVersion in i.versions && ValidDefinition(i.definition)
  }

  predicate ActiveFits(s: AuthorityState, slug: Slug)
    requires slug in s.issuers && s.issuers[slug].activeVersion in s.issuers[slug].versions
  {
    var v := s.issuers[slug].versions[s.issuers[slug].activeVersion];
    v.rootGeneration == s.activeRoot && v.key == Some(v.certificate.publicKey)
  }

  /** The errors that the checks of one issuer can end with, whatever order its versions come in. */
  function IssuerErrors(s: AuthorityState, slug: Slug): set<Error>
    requires slug in s.issuers
  {
    if !KnownIssuer(s, slug) then {Corrupt}
    else
      var ofVersions := set v | v in s.issuers[slug].versions && VersionError(s, slug, v).Some? :: VersionError(s, slug, v).value;
      if ofVersions != {} then ofVersions
      else if !ActiveFits(s, slug) then {Corrupt}
      else {}
  }

  function RootErrors(s: AuthorityState): set<Error> {
    set g | g in s.roots && RootError(s, g).Some? :: RootError(s, g).value
  }

  function AllIssuerErrors(s: AuthorityState): set<Error> {
    set slug, e | slug in s.issuers && e in IssuerErrors(s, slug) :: e
  }

  /** The errors that validateState can return: those of the first loop that finds one, in whatever
      order Go walks the maps. Empty when the document passes. */
  function StateErrors(s: AuthorityState): set<Error> {
    if s.spec.id == "" then {Corrupt}
    else if s.spec.formatVersion != FORMAT_VERSION then {Unavailable}
    else if s.spec.name == "" || s.activeRoot < 1 || s.activeRoot !in s.roots then {Corrupt}
    else if RootErrors(s) != {} then RootErrors(s)
    else if AllIssuerErrors(s) != {} then AllIssuerErrors(s)
    else if !ValidPending(s) then {Corrupt}
    else {}
  }

  /** The one that the model reports. */
  function StateError(s: AuthorityState): (e: Error)
    ensures e in {Corrupt, Drift, Unavailable}
  {
    var errors := StateErrors(s);
    if Drift in errors && Corrupt !in errors then Drift else if Unavailable in errors then Unavailable else Corrupt
  }

  /** load: a missing file, a document that fails its validation, or the document. */
  function ReadDocument(document: Option<AuthorityState>): Result<AuthorityState> {
    if document.None? then Err(NotFound)
    else if !ValidState(document.value) then Err(StateError(document.value))
    else Ok(document.value)
  }

  // ----- inputs of the authority operations -----

  /** What the random source and the key generator hand out for one certificate. */
  datatype Material = Material(raw: nat, serial: nat, key: nat)

  datatype Purpose = ForRoot | ForIssuer(slug: Slug)

  type Supply = Purpose -> Material

  /** Whether the manager can unlock a root key: no secret, a wrong one, the right one. */
  datatype Secret = Missing | Wrong | Right

  datatype ManagerConfig = ManagerConfig(
    authorityId: string,
    authorityName: Option<string>,
    identity: Option<Identity>,
    mode: Option<IssuanceMode>,
    rootValidity: Option<nat>,
    issuers: seq<IssuerDefinition>)

  /** What NewAuthorityManager has checked before any operation can be called. */
  predicate ValidConfig(cfg: ManagerConfig) {
    && cfg.authorityId != ""
    && (cfg.authorityName.Some? ==> cfg.authorityName.value != "")
    && (cfg.rootValidity.Some? ==> cfg.rootValidity.value > 0)
    && (forall i :: 0 <= i < |cfg.issuers| ==> ValidDefinition(cfg.issuers[i]))
    && (forall i, j :: 0 <= i < j < |cfg.issuers| ==> cfg.issuers[i].slug != cfg.issuers[j].slug)
  }

  /** The configured identity names no common name, which no CA certificate could carry. */
  predicate PlainIdentity(cfg: ManagerConfig) {
    cfg.identity.Some? ==> cfg.identity.value.commonName == ""
  }

  datatype EnsureOptions = EnsureOptions(rootRotateBefore: Option<nat>, issuerRotateBefore: map<string, nat>)

  // ----- building blocks -----

  function MakeRoot(spec: AuthoritySpec, generation: int, now: Instant, material: Material): RootRecord {
    var name := RootName(spec, generation);
    var c := Certificate(material.raw, material.serial, name, name, material.key, material.key, WholeSeconds(now) - CLOCK_SKEW,
                         WholeSeconds(now + spec.rootValidity), true, true, 1, {CertSign, CRLSign}, {}, NO_SANS);
    RootRecord(generation, c, Some(material.key), material.raw, 0)
  }

  function MakeIssuer(spec: AuthoritySpec, generation: int, version: int, d: IssuerDefinition,
                      root: Certificate, rootKey: nat, now: Instant, material: Material): (r: Result<IssuerVersion>)
    ensures r.Err? ==> r.error == Validation
  {
    var notAfter := now + d.validity;
    if notAfter + CLOCK_SKEW > root.notAfter then Err(Validation)
    else
      var c := Certificate(material.raw, material.serial, IssuerName(spec, generation, d.name, version), root.subject,
                           material.key, rootKey, WholeSeconds(now) - CLOCK_SKEW, WholeSeconds(notAfter),
                           true, true, 0, {CertSign, CRLSign}, {}, NO_SANS);
      Ok(IssuerVersion(version, generation, c, Some(material.key), material.raw))
  }

  predicate Matches<T(==)>(expected: Option<T>, actual: T) {
    expected.None? || expected.value == actual
  }

  /** Identities are compared as fmt.Sprint writes them. */
  predicate IdentityMatches(expected: Option<Identity>, actual: Identity) {
    expected.None? || IdentityText(expected.value) == IdentityText(actual)
  }

  function AssertSpec(s: AuthorityState, cfg: ManagerConfig): Result<()> {
    if s.spec.backend != BACKEND then Err(Drift)
    else if !Matches(cfg.authorityName, s.spec.name) || !IdentityMatches(cfg.identity, s.spec.identity)
         || !Matches(cfg.mode, s.spec.mode) || !Matches(cfg.rootValidity, s.spec.rootValidity) then Err(Drift)
    else Ok(())
  }

  /** activeRootSigner: the signing key of the active root. */
  function ActiveRootSigner(s: AuthorityState, secret: Secret): Result<nat>
    requires s.activeRoot in s.roots
  {
    var r := s.roots[s.activeRoot];
    if secret == Missing then Err(NotFound)
    else if secret == Wrong || r.key.None? then Err(Validation)
    else if r.key.value != r.certificate.publicKey then Err(Corrupt)
    else Ok(r.key.value)
  }

  function NextGeneration(roots: map<int, RootRecord>, g: int): int
    decreases |roots|
  {
    if g in roots then
      assert |roots - {g}| < |roots| by {
        assert (roots - {g}).Keys == roots.Keys - {g};
        assert |roots.Keys - {g}| == |roots.Keys| - 1;
      }
      NextGeneration(roots - {g}, g + 1)
    else g
  }

  predicate RotationDue(before: Option<nat>, notAfter: Instant, now: Instant) {
    before == Some(0) || notAfter <= now + (if before.Some? then before.value else DEFAULT_ROTATE_BEFORE)
  }

  predicate IssuerDue(s: AuthorityState, opts: EnsureOptions, slug: Slug, now: Instant)
    requires slug in s.issuers && s.issuers[slug].activeVersion in s.issuers[slug].versions
  {
    var i := s.issuers[slug];
    var before := if i.definition.name in opts.issuerRotateBefore
                  then Some(opts.issuerRotateBefore[i.definition.name]) else None;
    RotationDue(before, i.versions[i.activeVersion].certificate.notAfter, now)
  }

  // ----- the mutations -----

  /** The first versions of the configured issuers, each signed by the given root. */
  function FirstIssuers(s: AuthorityState, defs: seq<IssuerDefinition>, rootKey: nat, supply: Supply,
          now: Instant): (r: Result<AuthorityState>)
    requires s.activeRoot in s.roots
    ensures r.Ok? ==> r.value == s.(issuers := r.value.issuers)
  {
    if defs == [] then Ok(s)
    else
      var before :- FirstIssuers(s, defs[..|defs| - 1], rootKey, supply, now);
      var d := defs[|defs| - 1];
      var version :- MakeIssuer(s.spec, s.activeRoot, 1, d, s.roots[s.activeRoot].certificate, rootKey, now, supply(ForIssuer(d.slug)));
      Ok(before.(issuers := before.issuers[d.slug := IssuerRecord(d, 1, map[1 := version])]))
  }

  function Provision(cfg: ManagerConfig, supply: Supply, now: Instant): Result<AuthorityState> {
    if cfg.authorityName.None? then Err(Validation)
    else
      var spec := AuthoritySpec(
        cfg.authorityId, FORMAT_VERSION, cfg.authorityName.value,
        if cfg.identity.Some? then cfg.identity.value else NO_IDENTITY,
        if cfg.rootValidity.Some? then cfg.rootValidity.value else 10 * MAXIMUM_LEAF_VALIDITY,
        if cfg.mode.Some? then cfg.mode.value else NoLedger,
        BACKEND);
      var root := MakeRoot(spec, 1, now, supply(ForRoot));
      FirstIssuers(AuthorityState(spec, 0, 1, map[1 := root], map[], None), cfg.issuers, supply(ForRoot).key, supply, now)
  }

  /** Adds every configured issuer the document does not know; a known one must not differ. */
  function AddIssuers(s: AuthorityState, defs: seq<IssuerDefinition>, secret: Secret, supply: Supply,
          now: Instant): (r: Result<AuthorityState>)
    requires s.activeRoot in s.roots
    ensures r.Ok? ==> r.value == s.(issuers := r.value.issuers)
  {
    if defs == [] then Ok(s)
    else
      var before :- AddIssuers(s, defs[..|defs| - 1], secret, supply, now);
      AddIssuer(before, defs[|defs| - 1], secret, supply, now)
  }

  function AddIssuer(s: AuthorityState, d: IssuerDefinition, secret: Secret, supply: Supply,
          now: Instant): Result<AuthorityState>
    requires s.activeRoot in s.roots
  {
    if d.slug in s.issuers then
      if s.issuers[d.slug].definition != d then Err(Drift) else Ok(s)
    else if exists k :: k in s.issuers && s.issuers[k].definition.slug == d.slug && s.issuers[k].definition.name != d.name then Err(Conflict)
    else
      var key :- ActiveRootSigner(s, secret);
      var version :- MakeIssuer(s.spec, s.activeRoot, 1, d, s.roots[s.activeRoot].certificate, key, now, supply(ForIssuer(d.slug)));
      Ok(s.(issuers := s.issuers[d.slug := IssuerRecord(d, 1, map[1 := version])]))
  }

  /** The next version of one issuer under the given root. */
  function Successor(s: AuthorityState, slug: Slug, generation: int, root: Certificate, rootKey: nat,
          supply: Supply, now: Instant): Result<IssuerVersion>
    requires slug in s.issuers
  {
    var i := s.issuers[slug];
    MakeIssuer(s.spec, generation, i.activeVersion + 1, i.definition, root, rootKey, now, supply(ForIssuer(slug)))
  }

  function Staged(i: IssuerRecord, v: IssuerVersion): IssuerRecord {
    i.(versions := i.versions[i.activeVersion + 1 := v])
  }

  /** The issuers once those in due have their successors. */
  function StagedMap(s: AuthorityState, due: set<Slug>, generation: int, root: Certificate, rootKey: nat,
          supply: Supply, now: Instant): map<Slug, IssuerRecord>
    requires due <= s.issuers.Keys
    requires forall slug :: slug in due ==> Successor(s, slug, generation, root, rootKey, supply, now).Ok?
  {
    map slug | slug in s.issuers ::
      if slug in due then Staged(s.issuers[slug], Successor(s, slug, generation, root, rootKey, supply, now).value)
      else s.issuers[slug]
  }

  /** Stages a successor for every issuer in due; the map order is irrelevant because each entry
      is computed from the same state and every failure is the same validity error. */
  function StageIssuers(s: AuthorityState, due: set<Slug>, generation: int, root: Certificate, rootKey: nat,
          supply: Supply, now: Instant): Result<AuthorityState>
    requires due <= s.issuers.Keys
  {
    if exists slug :: slug in due && Successor(s, slug, generation, root, rootKey, supply, now).Err? then Err(Validation)
    else Ok(s.(issuers := StagedMap(s, due, generation, root, rootKey, supply, now)))
  }

  function Manifest(s: AuthorityState, kind: PendingKind, generation: int, due: set<Slug>, now: Instant): Pending
    requires due <= s.issuers.Keys
  {
    Pending(kind, s.revision, generation, map slug | slug in due :: s.issuers[slug].activeVersion + 1, now)
  }

  function PrepareRoot(s: AuthorityState, supply: Supply, now: Instant): Result<AuthorityState> {
    var g := NextGeneration(s.roots, s.activeRoot + 1);
    var r := MakeRoot(s.spec, g, now, supply(ForRoot));
    var staged :- StageIssuers(s.(roots := s.roots[g := r]), s.issuers.Keys, g, r.certificate, supply(ForRoot).key, supply, now);
    Ok(staged.(pending := Some(Manifest(s, PendingRoot, g, s.issuers.Keys, now))))
  }

  function PrepareIssuers(s: AuthorityState, due: set<Slug>, secret: Secret, supply: Supply,
          now: Instant): Result<AuthorityState>
    requires s.activeRoot in s.roots && due <= s.issuers.Keys
  {
    var key :- ActiveRootSigner(s, secret);
    var staged :- StageIssuers(s, due, s.activeRoot, s.roots[s.activeRoot].certificate, key, supply, now);
    Ok(staged.(pending := Some(Manifest(s, PendingIssuer, 0, due, now))))
  }

  /** The part of Ensure that follows the adding of issuers. */
  function Rotate(before: AuthorityState, s: AuthorityState, opts: EnsureOptions, secret: Secret, supply: Supply,
          now: Instant): Result<AuthorityState>
    requires s.activeRoot in s.roots
    requires forall slug :: slug in s.issuers ==> s.issuers[slug].activeVersion in s.issuers[slug].versions
  {
    if RotationDue(opts.rootRotateBefore, s.roots[s.activeRoot].certificate.notAfter, now) then PrepareRoot(s, supply, now)
    else
      var due := set slug | slug in s.issuers && IssuerDue(s, opts, slug, now);
      if due != {} then PrepareIssuers(s, due, secret, supply, now)
      else if s == before then Err(NoMutation)
      else Ok(s)
  }

  // ----- ledger records -----

  datatype LedgerRecord = LedgerRecord(
    authorityRevision: nat,
    fingerprint: nat,
    issuer: Slug,
    issuerVersion: int,
    serial: nat,
    certificate: Certificate,
    subject: Identity,
    sans: SANs,
    profile: Profile,
    issuedAt: Instant,
    expiresAt: Instant)

  /** validateLedgerRecord returns nil. */
  predicate ValidRecord(r: LedgerRecord) {
    && r.authorityRevision != 0 && r.issuer != "" && r.issuerVersion >= 1
    && r.certificate.raw == r.fingerprint
    && r.certificate.serial == r.serial
    && r.issuedAt > 0 && r.expiresAt > 0
    && r.certificate.notAfter == r.expiresAt
    && r.certificate.notBefore + CLOCK_SKEW == r.issuedAt
    && r.certificate.subject == r.subject
    && r.certificate.sans == r.sans
    && r.certificate.usage == {DigitalSignature}
    && r.certificate.profile == {r.profile}
  }

  /** validateLedgerAuthority: may this record be appended against this document? */
  function CheckAppend(s: AuthorityState, r: LedgerRecord): Result<()> {
    if s.revision != r.authorityRevision then Err(Conflict)
    else if r.issuer !in s.issuers || s.issuers[r.issuer].activeVersion != r.issuerVersion then Err(Conflict)
    else if !ValidRecord(r) then Err(Corrupt)
    else Ok(())
  }

  /** readLedger returns nil: every stored record is valid by itself. */
  predicate LedgerReadable(ledger: seq<LedgerRecord>) {
    forall i :: 0 <= i < |ledger| ==> ValidRecord(ledger[i])
  }

  predicate RecordAccepted(s: AuthorityState, r: LedgerRecord) {
    && r.authorityRevision <= s.revision
    && r.issuer in s.issuers
    && r.issuerVersion in s.issuers[r.issuer].versions
    && SignedBy(r.certificate, s.issuers[r.issuer].versions[r.issuerVersion].certificate)
  }

  /** validateLedgerRecords returns nil. */
  predicate LedgerAccepted(s: AuthorityState, ledger: seq<LedgerRecord>) {
    forall i :: 0 <= i < |ledger| ==> RecordAccepted(s, ledger[i])
  }

  /** The two duplicate tests of appendLedgerRecord. */
  predicate Clashes(x: LedgerRecord, r: LedgerRecord) {
    || (x.issuer == r.issuer && x.issuerVersion == r.issuerVersion && x.serial == r.serial)
    || x.fingerprint == r.fingerprint
  }

  predicate UnderRoot(s: AuthorityState, r: LedgerRecord, generation: int) {
    && r.issuer in s.issuers
    && r.issuerVersion in s.issuers[r.issuer].versions
    && s.issuers[r.issuer].versions[r.issuerVersion].rootGeneration == generation
  }

  /** The latest clockSkew-extended expiry among the records under a root; 0 when there is none. */
  function LedgerDeadline(s: AuthorityState, ledger: seq<LedgerRecord>, generation: int): Instant {
    if ledger == [] then 0
    else
      var before := LedgerDeadline(s, ledger[..|ledger| - 1], generation);
      var r := ledger[|ledger| - 1];
      if UnderRoot(s, r, generation) && r.expiresAt + CLOCK_SKEW > before then r.expiresAt + CLOCK_SKEW else before
  }

  function TrustDeadline(s: AuthorityState, ledger: seq<LedgerRecord>, generation: int, now: Instant): Instant {
    if s.spec.mode == NoLedger then now + MAXIMUM_LEAF_VALIDITY + CLOCK_SKEW
    else
      var d := LedgerDeadline(s, ledger, generation);
      if d == 0 then now else d
  }

  // ----- promotion, discard, prune -----

  predicate KeyMatches(key: Option<nat>, c: Certificate) {
    key == Some(c.publicKey)
  }

  /** The checks PromotePending makes before it changes anything. */
  function CheckPromotion(s: AuthorityState, cfg: ManagerConfig, secret: Secret): Result<Pending>
    requires s == EMPTY_STATE || ValidState(s)
  {
    var _ :- AssertSpec(s, cfg);
    if s.pending.None? then Err(NotFound)
    else
      var p := s.pending.value;
      if p.kind == PendingRoot && secret == Missing then Err(NotFound)
      else if p.kind == PendingRoot && (secret == Wrong || s.roots[p.rootGeneration].key.None?) then Err(Validation)
      else if p.kind == PendingRoot && !KeyMatches(s.roots[p.rootGeneration].key, s.roots[p.rootGeneration].certificate) then Err(Corrupt)
      else if exists slug :: slug in p.issuers
           && !KeyMatches(s.issuers[slug].versions[p.issuers[slug]].key, s.issuers[slug].versions[p.issuers[slug]].certificate) then Err(Corrupt)
      else Ok(p)
  }

  /** One issuer after its pending version v became active and the old key was dropped. */
  function Activated(i: IssuerRecord, v: int): IssuerRecord {
    i.(activeVersion := v,
       versions := map k | k in i.versions :: if k == i.activeVersion then i.versions[k].(key := None) else i.versions[k])
  }

  function Promoted(s: AuthorityState, p: Pending, deadline: Instant): AuthorityState
    requires p.kind == PendingRoot ==> s.activeRoot in s.roots
  {
    var issuers := map slug | slug in s.issuers ::
      if slug in p.issuers then Activated(s.issuers[slug], p.issuers[slug]) else s.issuers[slug];
    if p.kind == PendingRoot then
      var retired := s.roots[s.activeRoot].(key := None, retiredTrustUntil := deadline);
      s.(activeRoot := p.rootGeneration, roots := s.roots[s.activeRoot := retired], issuers := issuers, pending := None)
    else s.(issuers := issuers, pending := None)
  }

  function Promote(s: AuthorityState, cfg: ManagerConfig, secret: Secret, ledger: seq<LedgerRecord>,
          now: Instant): Result<AuthorityState>
    requires s == EMPTY_STATE || ValidState(s)
  {
    var p :- CheckPromotion(s, cfg, secret);
    if p.kind == PendingRoot && s.spec.mode == Ledger && !LedgerReadable(ledger) then Err(Corrupt)
    else Ok(Promoted(s, p, TrustDeadline(s, ledger, s.activeRoot, now)))
  }

  function Discarded(s: AuthorityState, p: Pending): AuthorityState {
    var issuers := map slug | slug in s.issuers ::
      if slug in p.issuers then s.issuers[slug].(versions := s.issuers[slug].versions - {p.issuers[slug]}) else s.issuers[slug];
    s.(roots := if p.rootGeneration > 0 then s.roots - {p.rootGeneration} else s.roots, issuers := issuers, pending := None)
  }

  function Discard(s: AuthorityState, cfg: ManagerConfig): Result<AuthorityState> {
    var _ :- AssertSpec(s, cfg);
    if s.pending.None? then Err(NotFound) else Ok(Discarded(s, s.pending.value))
  }

  function Prune(s: AuthorityState, generation: int, fingerprint: nat, now: Instant): Result<AuthorityState> {
    if generation < 1 then Err(Validation)
    else if generation == s.activeRoot || (s.pending.Some? && generation == s.pending.value.rootGeneration) then Err(Conflict)
    else if generation !in s.roots then Err(NotFound)
    else if s.roots[generation].fingerprint != fingerprint then Err(Drift)
    else if s.roots[generation].retiredTrustUntil > now then Err(Conflict)
    else Ok(s.(roots := s.roots[generation := s.roots[generation].(retiredTrustUntil := 0)]))
  }

  // ----- Ensure and the dispatch that update performs -----

  function Ensure(s: AuthorityState, cfg: ManagerConfig, opts: EnsureOptions, secret: Secret, supply: Supply,
          now: Instant): Result<AuthorityState>
    requires s == EMPTY_STATE || ValidState(s)
  {
    if s.spec.id == "" then Provision(cfg, supply, now)
    else
      var _ :- AssertSpec(s, cfg);
      if s.pending.Some? then Err(Conflict)
      else
        var _ :- ActiveRootSigner(s, secret);
        var added :- AddIssuers(s, cfg.issuers, secret, supply, now);
        AddIssuersKeepsShape(s, cfg.issuers, secret, supply, now);
        Rotate(s, added, opts, secret, supply, now)
  }

  lemma {:induction false} AddIssuersKeepsShape(s: AuthorityState, defs: seq<IssuerDefinition>, secret: Secret,
          supply: Supply, now: Instant)
    requires s.activeRoot in s.roots
    requires AddIssuers(s, defs, secret, supply, now).Ok?
    requires forall slug :: slug in s.issuers ==> s.issuers[slug].activeVersion in s.issuers[slug].versions
    ensures var t := AddIssuers(s, defs, secret, supply, now).value;
            && t == s.(issuers := t.issuers)
            && s.issuers.Keys <= t.issuers.Keys
            && (forall slug :: slug in s.issuers ==> t.issuers[slug] == s.issuers[slug])
            && (forall slug :: slug in t.issuers ==> t.issuers[slug].activeVersion in t.issuers[slug].versions)
  {
    if defs == [] {
    } else {
      AddIssuersKeepsShape(s, defs[..|defs| - 1], secret, supply, now);
    }
  }

  datatype Command =
    | EnsureCommand(opts: EnsureOptions, secret: Secret, supply: Supply)
    | PromoteCommand(secret: Secret)
    | DiscardCommand
    | PruneCommand(generation: int, fingerprint: nat)

  /** The mutate closure each operation passes to update. */
  function Mutate(s: AuthorityState, cfg: ManagerConfig, cmd: Command, ledger: seq<LedgerRecord>,
          now: Instant): Result<AuthorityState>
    requires s == EMPTY_STATE || ValidState(s)
  {
    match cmd
    case EnsureCommand(opts, secret, supply) => Ensure(s, cfg, opts, secret, supply, now)
    case PromoteCommand(secret) => Promote(s, cfg, secret, ledger, now)
    case DiscardCommand => Discard(s, cfg)
    case PruneCommand(generation, fingerprint) => Prune(s, generation, fingerprint, now)
  }

  /** The end of update: a mutation must leave an identified authority, the revision grows, and
      the result is validated again before it is written. */
  function Commit(s: AuthorityState, mutated: Result<AuthorityState>): Result<AuthorityState> {
    var t :- mutated;
    if t.spec.id == "" then Err(Corrupt)
    else
      var bumped := if t.revision <= s.revision then t.(revision := s.revision + 1) else t;
      if ValidState(bumped) then Ok(bumped) else Err(StateError(bumped))
  }

  function Base(document: Option<AuthorityState>): AuthorityState {
    if document.Some? then document.value else EMPTY_STATE
  }

  /** FileStore.update. Err(NoMutation) writes nothing and is success for the caller. */
  function Update(document: Option<AuthorityState>, cfg: ManagerConfig, cmd: Command, ledger: seq<LedgerRecord>,
          now: Instant): Result<AuthorityState>
    requires document.Some? ==> ValidState(document.value)
  {
    var s := Base(document);
    if document.Some? && s.spec.mode == Ledger && !(LedgerReadable(ledger) && LedgerAccepted(s, ledger)) then Err(Corrupt)
    else Commit(s, Mutate(s, cfg, cmd, ledger, now))
  }
}
