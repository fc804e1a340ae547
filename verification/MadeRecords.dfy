/** What new CA records hold, field by field (certs/authority.go, makeRoot and makeIssuer). */
module MadeRecords {
  import opened Wrappers
  import opened Certificates
  import opened Policy
  import opened Authority
  import Text

  /** A root record as makeRoot leaves it. */
  predicate NewRoot(r: RootRecord, spec: AuthoritySpec, generation: int, now: Instant) {
    var c := r.certificate;
    var end := now + spec.rootValidity;
    && r.generation == generation && r.retiredTrustUntil == 0
    && r.key == Some(c.publicKey) && r.fingerprint == c.raw
    && c.subject == Identity(spec.identity.organization, spec.identity.organizationalUnit, spec.identity.country,
                             spec.identity.province, spec.identity.locality, spec.name + " G" + Text.Itoa(generation) + " Root CA")
    && c.issuer == c.subject && c.signedBy == c.publicKey
    && c.notBefore == now - now % 1_000_000_000 - 300_000_000_000
    && c.notAfter == end - end % 1_000_000_000
    && c.isCA && c.basicConstraintsValid && c.maxPathLen == 1
    && c.usage == {CertSign, CRLSign} && c.profile == {} && c.sans == SANs([], [], [], [])
  }

  /** An issuer version as makeIssuer leaves it, signed by the given root. */
  predicate NewVersion(v: IssuerVersion, spec: AuthoritySpec, generation: int, d: IssuerDefinition, version: int,
                       root: Certificate, now: Instant) {
    var c := v.certificate;
    var end := now + d.validity;
    && v.version == version && v.rootGeneration == generation
    && v.key == Some(c.publicKey) && v.fingerprint == c.raw
    && c.subject == Identity(spec.identity.organization, spec.identity.organizationalUnit, spec.identity.country,
                             spec.identity.province, spec.identity.locality,
                             spec.name + " G" + Text.Itoa(generation) + " " + d.name + " Issuer V" + Text.Itoa(version))
    && c.issuer == root.subject && c.signedBy == root.publicKey
    && c.notBefore == now - now % 1_000_000_000 - 300_000_000_000
    && c.notAfter == end - end % 1_000_000_000
    && c.isCA && c.basicConstraintsValid && c.maxPathLen == 0
    && c.usage == {CertSign, CRLSign} && c.profile == {} && c.sans == SANs([], [], [], [])
  }

  /** The validity ends at least five minutes before the root does. */
  predicate FitsUnder(d: IssuerDefinition, root: Certificate, now: Instant) {
    now + d.validity + 300_000_000_000 <= root.notAfter
  }

  /** An issuer as provisioning and Ensure create it: version 1 alone, active, under the active root. */
  predicate NewIssuer(i: IssuerRecord, spec: AuthoritySpec, generation: int, d: IssuerDefinition, root: Certificate, now: Instant) {
    && i.definition == d && i.activeVersion == 1 && i.versions.Keys == {1}
    && NewVersion(i.versions[1], spec, generation, d, 1, root, now)
  }

  lemma RootIsNew(spec: AuthoritySpec, generation: int, now: Instant, m: Material)
    ensures NewRoot(MakeRoot(spec, generation, now, m), spec, generation, now)
    ensures MakeRoot(spec, generation, now, m).certificate.publicKey == m.key
  {
  }

  lemma VersionIsNew(spec: AuthoritySpec, generation: int, version: int, d: IssuerDefinition, root: Certificate, now: Instant,
          m: Material)
    ensures var r := MakeIssuer(spec, generation, version, d, root, root.publicKey, now, m);
            && (r.Ok? <==> FitsUnder(d, root, now))
            && (r.Err? ==> r.error == Validation)
            && (r.Ok? ==> NewVersion(r.value, spec, generation, d, version, root, now))
  {
  }
}
