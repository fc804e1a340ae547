/** Certificates as records: signatures are idealised, DER bytes are an opaque identity. */
module Certificates {
  import opened Wrappers

  /** Nanoseconds since Go's zero time.Time, so that the zero time is 0. */
  type Instant = nat

  const SECOND: nat := 1_000_000_000
  const CLOCK_SKEW: nat := 300_000_000_000
  const MAXIMUM_LEAF_VALIDITY: nat := 31_536_000_000_000_000

  /** X.509 encodes whole seconds. */
  function WholeSeconds(t: Instant): Instant {
    t - t % SECOND
  }

  lemma WholeSecondsBounds(t: Instant)
    ensures WholeSeconds(t) <= t < WholeSeconds(t) + SECOND
    ensures WholeSeconds(t) % SECOND == 0
  {
    var q, r := t / SECOND, t % SECOND;
    assert t == q * SECOND + r;
    assert WholeSeconds(t) == q * SECOND;
  }

  /** The six attributes that Identity and the names built from it carry. */
  datatype Identity = Identity(
    organization: string,
    organizationalUnit: string,
    country: string,
    province: string,
    locality: string,
    commonName: string)

  /** How fmt.Sprint writes an identity, without the braces. */
  function IdentityText(i: Identity): string {
    i.organization + " " + i.organizationalUnit + " " + i.country + " " + i.province + " " + i.locality + " " + i.commonName
  }

  datatype Usage = DigitalSignature | CertSign | CRLSign

  datatype Profile = TLSClient | TLSServer | TLSClientServer

  datatype IP = IP(v4: bool, address: nat)

  datatype SANs = SANs(dnsNames: seq<string>, ipAddresses: seq<IP>, uris: seq<string>, emailAddresses: seq<string>)

  const NO_SANS := SANs([], [], [], [])

  /** raw identifies the DER bytes and is ordered as bytes.Compare orders them; it also plays
      the part of the fingerprint, which is an injective function of those bytes. signedBy is
      the public key under which the signature verifies. maxPathLen is -1 when absent. */
  datatype Certificate = Certificate(
    raw: nat,
    serial: nat,
    subject: Identity,
    issuer: Identity,
    publicKey: nat,
    signedBy: nat,
    notBefore: int,
    notAfter: Instant,
    isCA: bool,
    basicConstraintsValid: bool,
    maxPathLen: int,
    usage: set<Usage>,
    profile: set<Profile>,
    sans: SANs)

  predicate CACapable(c: Certificate) {
    c.isCA && c.basicConstraintsValid && CertSign in c.usage
  }

  /** x509's CheckSignatureFrom on version 3 certificates. */
  predicate SignedBy(child: Certificate, parent: Certificate) {
    CACapable(parent) && child.signedBy == parent.publicKey
  }

  predicate DistinctRaw(certs: seq<Certificate>) {
    forall i, j :: 0 <= i < j < |certs| ==> certs[i].raw != certs[j].raw
  }

  lemma MultisetPreservesDistinct(a: seq<Certificate>, b: seq<Certificate>)
    requires multiset(a) == multiset(b) && DistinctRaw(a)
    ensures DistinctRaw(b)
  {
    PermutationNoRepeats(a, b);
    SameMembers(a, b);
    forall i, j | 0 <= i < j < |b|
      ensures b[i].raw != b[j].raw
    {
      assert b[i] in a && b[j] in a;
    }
  }
}
