/** What an issuer's policy allows, said of labels, characters and addresses (certs/issuer.go,
    validateRequest and matchesDNSSuffix). */
module PolicyMeaning {
  import opened Certificates
  import opened Policy
  import opened DottedKeys
  import Text

  // ----- case folding -----

  function Upper(c: char): char {
    if 'a' <= c <= 'z' then c - 'a' + 'A' else c
  }

  /** Equal up to the case of ASCII letters. */
  predicate SameLetters(a: string, b: string) {
    |a| == |b| && forall k :: 0 <= k < |a| ==> Upper(a[k]) == Upper(b[k])
  }

  lemma LowerExactly(a: string, b: string)
    ensures Text.ToLower(a) == Text.ToLower(b) <==> SameLetters(a, b)
  {
    var x, y := Text.ToLower(a), Text.ToLower(b);
    if x == y {
      forall k | 0 <= k < |a|
        ensures Upper(a[k]) == Upper(b[k])
      {
        assert x[k] == y[k];
      }
    }
    if SameLetters(a, b) {
      forall k | 0 <= k < |a|
        ensures x[k] == y[k]
      {
        assert Upper(a[k]) == Upper(b[k]);
      }
    }
  }

  // ----- labels -----

  function LowerAll(p: Path): (q: Path)
    ensures |q| == |p| && forall k :: 0 <= k < |p| ==> q[k] == Text.ToLower(p[k])
  {
    seq(|p|, k requires 0 <= k < |p| => Text.ToLower(p[k]))
  }

  lemma {:induction false} LowerFirstDot(s: string)
    ensures FirstDot(Text.ToLower(s)) == FirstDot(s)
  {
    if s == "" || s[0] == '.' {
    } else {
      assert Text.ToLower(s)[1..] == Text.ToLower(s[1..]);
      LowerFirstDot(s[1..]);
    }
  }

  /** Folding the case of a name folds its labels. */
  lemma {:induction false} LowerSplit(s: string)
    ensures Split(Text.ToLower(s)) == LowerAll(Split(s))
    decreases |s|
  {
    hide Split, FirstDot;
    LowerFirstDot(s);
    var i := FirstDot(s);
    var low := Text.ToLower(s);
    if i < |s| {
      assert low[..i] == Text.ToLower(s[..i]) && low[i + 1..] == Text.ToLower(s[i + 1..]);
      SplitCons(s);
      SplitCons(low);
      LowerSplit(s[i + 1..]);
    } else {
      assert s[..i] == s && low[..i] == low;
      SplitFirst(s, "");
      SplitFirst(low, "");
    }
  }

  predicate EndsWith(have: Path, want: Path) {
    |want| <= |have| && have[|have| - |want|..] == want
  }

  lemma {:induction false} SplitAppend(a: string, b: string)
    ensures Split(a + "." + b) == Split(a) + Split(b)
    decreases |a|
  {
    hide Join, Split;
    JoinSplit(a);
    JoinSplit(b);
    JoinAppend(Split(a), Split(b));
    SplitJoin(Split(a) + Split(b));
  }

  /** A name is a domain or ends with a dot and the domain exactly when its labels end with those of
      the domain: the boundary is one between labels. */
  lemma DomainExactly(name: string, domain: string)
    ensures DomainOf(name, domain) <==> EndsWith(Split(name), Split(domain))
  {
    hide Join, Split;
    if Text.HasSuffix(name, "." + domain) {
      var front := name[..|name| - |domain| - 1];
      assert name == front + ("." + domain);
      assert name == front + "." + domain;
      SplitAppend(front, domain);
    }
    if EndsWith(Split(name), Split(domain)) {
      JoinSplit(name);
      JoinSplit(domain);
      var front := Split(name)[..|Split(name)| - |Split(domain)|];
      assert Split(name) == front + Split(domain);
      if front == [] {
        assert Split(name) == Split(domain);
      } else {
        JoinAppend(front, Split(domain));
        assert name == Join(front) + ("." + domain);
      }
    }
  }

  /** The labels of a name end with those of a suffix, up to case. */
  predicate UnderSuffix(labels: Path, suffix: Path) {
    |suffix| <= |labels| && forall k :: 0 <= k < |suffix| ==> SameLetters(labels[|labels| - |suffix| + k], suffix[k])
  }

  lemma UnderExactly(labels: Path, suffix: Path)
    ensures EndsWith(LowerAll(labels), LowerAll(suffix)) <==> UnderSuffix(labels, suffix)
  {
    hide Text.ToLower, SameLetters;
    var have, want := LowerAll(labels), LowerAll(suffix);
    if |want| <= |have| {
      forall k | 0 <= k < |want|
        ensures have[|have| - |want|..][k] == want[k] <==> SameLetters(labels[|labels| - |suffix| + k], suffix[k])
      {
        LowerExactly(labels[|labels| - |suffix| + k], suffix[k]);
      }
    }
  }

  /** A DNS name is allowed exactly when its labels end with those of one of the suffixes. */
  lemma DNSExactly(name: string, suffixes: seq<string>)
    ensures MatchesDNSSuffix(name, suffixes) <==>
            exists i :: 0 <= i < |suffixes| && UnderSuffix(Split(Text.TrimSuffixDot(name)), Split(BareSuffix(suffixes[i])))
  {
    hide Split, UnderSuffix, DomainOf, Text.ToLower;
    var bare := Text.TrimSuffixDot(name);
    forall i | 0 <= i < |suffixes|
      ensures DomainOf(Text.ToLower(bare), Text.ToLower(BareSuffix(suffixes[i]))) <==> UnderSuffix(Split(bare), Split(BareSuffix(suffixes[i])))
    {
      var suffix := BareSuffix(suffixes[i]);
      DomainExactly(Text.ToLower(bare), Text.ToLower(suffix));
      LowerSplit(bare);
      LowerSplit(suffix);
      UnderExactly(Split(bare), Split(suffix));
    }
  }

  // ----- what is cut off before -----

  /** The white space of Unicode. */
  predicate White(c: char) {
    var n := c as int;
    9 <= n <= 13 || n == 32 || n in {0x85, 0xA0, 0x1680, 0x2028, 0x2029, 0x202F, 0x205F, 0x3000} || 0x2000 <= n <= 0x200A
  }

  predicate AllWhite(s: string) {
    forall k :: 0 <= k < |s| ==> White(s[k])
  }

  predicate Tight(s: string) {
    s != "" && !White(s[0]) && !White(s[|s| - 1])
  }

  lemma WhiteExactly(c: char)
    ensures Text.IsSpace(c) <==> White(c)
  {
  }

  lemma {:induction false} TrimsFront(a: string, s: string)
    requires AllWhite(a)
    ensures Text.TrimSpace(a + s) == Text.TrimSpace(s)
  {
    if a == "" {
      assert a + s == s;
    } else {
      var all := a + s;
      assert White(a[0]);
      WhiteExactly(a[0]);
      hide White, Text.IsSpace;
      assert all[0] == a[0];
      assert all[1..] == a[1..] + s;
      TrimsFront(a[1..], s);
    }
  }

  lemma {:induction false} TrimsBack(s: string, b: string)
    requires AllWhite(b) && Tight(s)
    ensures Text.TrimSpace(s + b) == s
    decreases |b|
  {
    var all := s + b;
    WhiteExactly(s[0]);
    WhiteExactly(all[|all| - 1]);
    assert all[0] == s[0];
    if b == "" {
      assert all == s;
    } else {
      assert all[|all| - 1] == b[|b| - 1] && White(b[|b| - 1]);
      hide White, Text.IsSpace;
      assert all[..|all| - 1] == s + b[..|b| - 1];
      TrimsBack(s, b[..|b| - 1]);
    }
  }

  /** White space around a suffix does not count, nor does one dot at either end. */
  lemma BareExactly(a: string, front: string, domain: string, back: string, b: string)
    requires AllWhite(a) && AllWhite(b) && front in {"", "."} && back in {"", "."}
    requires Tight(domain) && domain[0] != '.' && domain[|domain| - 1] != '.'
    ensures BareSuffix(a + (front + domain + back) + b) == domain
  {
    var s := front + domain + back;
    hide Text.TrimSpace, Text.IsSpace;
    assert Tight(s);
    assert a + s + b == a + (s + b);
    TrimsFront(a, s + b);
    TrimsBack(s, b);
    assert Text.TrimSuffixDot(s) == front + domain;
    assert Text.TrimPrefixDot(front + domain) == domain;
  }

  /** A name counts the same with and without a dot at its end. */
  lemma FinalDot(name: string)
    ensures Text.TrimSuffixDot(name + ".") == name
    ensures name == "" || name[|name| - 1] != '.' ==> Text.TrimSuffixDot(name) == name
  {
    assert (name + ".")[..|name|] == name;
  }

  /** The domain of an address is what follows its last at-sign. */
  lemma {:induction false} AfterAt(local: string, domain: string)
    requires '@' !in domain
    ensures Text.AfterLastAt(local + "@" + domain) == domain
    ensures Text.AfterLastAt(domain) == domain
    decreases |domain|
  {
    var s := local + "@" + domain;
    assert s[|local|] == '@';
    if domain != "" {
      var init := domain[..|domain| - 1];
      assert s[..|s| - 1] == local + "@" + init;
      AfterAt(local, init);
    }
  }

  lemma EmailExactly(local: string, domain: string, domains: seq<string>)
    requires '@' !in domain
    ensures InSomeDomain(local + "@" + domain, domains) <==> exists i :: 0 <= i < |domains| && SameLetters(domain, domains[i])
  {
    hide SameLetters, Text.ToLower;
    AfterAt(local, domain);
    forall i | 0 <= i < |domains|
      ensures Text.ToLower(domain) == Text.ToLower(domains[i]) <==> SameLetters(domain, domains[i])
    {
      LowerExactly(domain, domains[i]);
    }
  }

  // ----- the whole policy -----

  /** Every attribute that the definition requires is the subject's. */
  predicate SubjectObeys(d: IssuerDefinition, n: Identity) {
    && (d.subjectOwner != "" ==> n.organization == d.subjectOwner)
    && (d.requiredSubject.organization != "" ==> n.organization == d.requiredSubject.organization)
    && (d.requiredSubject.organizationalUnit != "" ==> n.organizationalUnit == d.requiredSubject.organizationalUnit)
    && (d.requiredSubject.country != "" ==> n.country == d.requiredSubject.country)
    && (d.requiredSubject.province != "" ==> n.province == d.requiredSubject.province)
    && (d.requiredSubject.locality != "" ==> n.locality == d.requiredSubject.locality)
    && (d.requiredSubject.commonName != "" ==> n.commonName == d.requiredSubject.commonName)
  }

  predicate NameObeys(name: string, suffixes: seq<string>) {
    exists i :: 0 <= i < |suffixes| && UnderSuffix(Split(Text.TrimSuffixDot(name)), Split(BareSuffix(suffixes[i])))
  }

  predicate AddressObeys(ip: IP, ranges: seq<IPNet>) {
    exists i :: 0 <= i < |ranges| && ranges[i].v4 == ip.v4 && ranges[i].first <= ip.address && ip.address <= ranges[i].last
  }

  predicate URIObeys(uri: string, prefixes: seq<string>) {
    exists i :: 0 <= i < |prefixes| && |prefixes[i]| <= |uri| && uri[..|prefixes[i]|] == prefixes[i]
  }

  predicate EmailObeys(email: string, domains: seq<string>) {
    exists i :: 0 <= i < |domains| && SameLetters(Text.AfterLastAt(email), domains[i])
  }

  /** Each kind of alternative name is free where no rule is given for it, and otherwise every one of
      them meets one of the rules. */
  predicate SANsObey(p: SANPolicy, sans: SANs) {
    && (|p.dnsSuffixes| > 0 ==> forall k :: 0 <= k < |sans.dnsNames| ==> NameObeys(sans.dnsNames[k], p.dnsSuffixes))
    && (|p.ipRanges| > 0 ==> forall k :: 0 <= k < |sans.ipAddresses| ==> AddressObeys(sans.ipAddresses[k], p.ipRanges))
    && (|p.uriPrefixes| > 0 ==> forall k :: 0 <= k < |sans.uris| ==> URIObeys(sans.uris[k], p.uriPrefixes))
    && (|p.emailDomains| > 0 ==> forall k :: 0 <= k < |sans.emailAddresses| ==> EmailObeys(sans.emailAddresses[k], p.emailDomains))
  }

  lemma SubjectExactly(d: IssuerDefinition, n: Identity)
    ensures SubjectAllowed(d, n) <==> SubjectObeys(d, n)
  {
  }

  lemma SANsExactly(p: SANPolicy, sans: SANs)
    ensures SANsAllowed(p, sans) <==> SANsObey(p, sans)
  {
    forall k | 0 <= k < |sans.dnsNames|
      ensures MatchesDNSSuffix(sans.dnsNames[k], p.dnsSuffixes) <==> NameObeys(sans.dnsNames[k], p.dnsSuffixes)
    {
      DNSExactly(sans.dnsNames[k], p.dnsSuffixes);
      hide MatchesDNSSuffix, UnderSuffix, Split;
    }
    forall k | 0 <= k < |sans.uris|
      ensures HasSomePrefix(sans.uris[k], p.uriPrefixes) <==> URIObeys(sans.uris[k], p.uriPrefixes)
    {
    }
    forall k | 0 <= k < |sans.emailAddresses|
      ensures InSomeDomain(sans.emailAddresses[k], p.emailDomains) <==> EmailObeys(sans.emailAddresses[k], p.emailDomains)
    {
      forall i | 0 <= i < |p.emailDomains|
        ensures Text.ToLower(Text.AfterLastAt(sans.emailAddresses[k])) == Text.ToLower(p.emailDomains[i])
                <==> SameLetters(Text.AfterLastAt(sans.emailAddresses[k]), p.emailDomains[i])
      {
        LowerExactly(Text.AfterLastAt(sans.emailAddresses[k]), p.emailDomains[i]);
      }
      hide SameLetters, Text.ToLower, Text.AfterLastAt;
    }
    hide MatchesDNSSuffix, NameObeys, HasSomePrefix, URIObeys, InSomeDomain, EmailObeys;
  }

  /** The checks on a request allow exactly what obeys the policy. */
  lemma PolicyExactly(d: IssuerDefinition, subject: Identity, sans: SANs, profile: Profile)
    ensures RequestAllowed(d, subject, sans) <==> SubjectObeys(d, subject) && SANsObey(d.sanPolicy, sans)
    ensures Permits(d, subject, sans, profile) <==>
            && SubjectObeys(d, subject) && SANsObey(d.sanPolicy, sans)
            && exists i :: 0 <= i < |d.allowedProfiles| && d.allowedProfiles[i] == profile
  {
    SubjectExactly(d, subject);
    SANsExactly(d.sanPolicy, sans);
    hide SubjectAllowed, SubjectObeys, SANsAllowed, SANsObey;
  }
}
