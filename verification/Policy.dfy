/** Issuer definitions and the request policy they impose (certs/models.go, certs/issuer.go). */
module Policy {
  import opened Certificates
  import Text

  /** A network as the interval of addresses it contains. */
  datatype IPNet = IPNet(v4: bool, first: nat, last: nat)

  datatype SANPolicy = SANPolicy(
    dnsSuffixes: seq<string>,
    ipRanges: seq<IPNet>,
    uriPrefixes: seq<string>,
    emailDomains: seq<string>)

  type Slug = string

  datatype IssuerDefinition = IssuerDefinition(
    name: string,
    slug: Slug,
    validity: nat,
    allowedProfiles: seq<Profile>,
    subjectOwner: string,
    requiredSubject: Identity,
    sanPolicy: SANPolicy)

  function SlugOf(name: string): Slug {
    Text.ToLower(seq(|name|, i requires 0 <= i < |name| => if name[i] == ' ' then '-' else name[i]))
  }

  /** What validateDefinition leaves unchanged. */
  predicate ValidDefinition(d: IssuerDefinition) {
    && d.name != ""
    && d.slug == SlugOf(d.name)
    && d.validity > 0
    && |d.allowedProfiles| > 0
    && forall i, j :: 0 <= i < j < |d.allowedProfiles| ==> d.allowedProfiles[i] != d.allowedProfiles[j]
  }

  predicate MatchesDNSSuffix(name: string, suffixes: seq<string>) {
    var n := Text.ToLower(Text.TrimSuffixDot(name));
    exists i :: 0 <= i < |suffixes| && DomainOf(n, Text.ToLower(BareSuffix(suffixes[i])))
  }

  /** A suffix without the white space around it and without one dot at either end. */
  function BareSuffix(suffix: string): string {
    Text.TrimPrefixDot(Text.TrimSuffixDot(Text.TrimSpace(suffix)))
  }

  predicate DomainOf(name: string, domain: string) {
    name == domain || Text.HasSuffix(name, "." + domain)
  }

  predicate InSomeRange(ip: IP, ranges: seq<IPNet>) {
    exists i :: 0 <= i < |ranges| && ranges[i].v4 == ip.v4 && ranges[i].first <= ip.address <= ranges[i].last
  }

  predicate HasSomePrefix(uri: string, prefixes: seq<string>) {
    exists i :: 0 <= i < |prefixes| && prefixes[i] <= uri
  }

  predicate InSomeDomain(email: string, domains: seq<string>) {
    exists i :: 0 <= i < |domains| && Text.ToLower(Text.AfterLastAt(email)) == Text.ToLower(domains[i])
  }

  predicate FieldAllows(required: string, actual: string) {
    required == "" || required == actual
  }

  predicate SubjectAllowed(d: IssuerDefinition, subject: Identity) {
    && FieldAllows(d.subjectOwner, subject.organization)
    && FieldAllows(d.requiredSubject.organization, subject.organization)
    && FieldAllows(d.requiredSubject.organizationalUnit, subject.organizationalUnit)
    && FieldAllows(d.requiredSubject.country, subject.country)
    && FieldAllows(d.requiredSubject.province, subject.province)
    && FieldAllows(d.requiredSubject.locality, subject.locality)
    && FieldAllows(d.requiredSubject.commonName, subject.commonName)
  }

  predicate SANsAllowed(p: SANPolicy, sans: SANs) {
    && (p.dnsSuffixes == [] || forall i :: 0 <= i < |sans.dnsNames| ==> MatchesDNSSuffix(sans.dnsNames[i], p.dnsSuffixes))
    && (p.ipRanges == [] || forall i :: 0 <= i < |sans.ipAddresses| ==> InSomeRange(sans.ipAddresses[i], p.ipRanges))
    && (p.uriPrefixes == [] || forall i :: 0 <= i < |sans.uris| ==> HasSomePrefix(sans.uris[i], p.uriPrefixes))
    && (p.emailDomains == [] || forall i :: 0 <= i < |sans.emailAddresses| ==> InSomeDomain(sans.emailAddresses[i], p.emailDomains))
  }

  /** validateRequest returns nil. */
  predicate RequestAllowed(d: IssuerDefinition, subject: Identity, sans: SANs) {
    SubjectAllowed(d, subject) && SANsAllowed(d.sanPolicy, sans)
  }

  /** The whole policy a leaf is held to: the request rules and the profile list. */
  predicate Permits(d: IssuerDefinition, subject: Identity, sans: SANs, profile: Profile) {
    RequestAllowed(d, subject, sans) && profile in d.allowedProfiles
  }
}
