/** validateState as the source runs it (certs/validate.go), and which error it ends with. */
module Validation {
  import opened Wrappers
  import opened Certificates
  import opened Policy
  import opened Authority

  // ----- no error is validity -----

  lemma IssuerErrorsMeaning(s: AuthorityState, slug: Slug)
    requires slug in s.issuers
    ensures IssuerErrors(s, slug) == {} <==> ValidIssuer(s, slug)
  {
    hide VersionError, ValidVersion, ValidDefinition;
    var i := s.issuers[slug];
    if KnownIssuer(s, slug) {
      var ofVersions := set v | v in i.versions && VersionError(s, slug, v).Some? :: VersionError(s, slug, v).value;
      forall v | v in i.versions
        ensures VersionError(s, slug, v).Some? ==> VersionError(s, slug, v).value in ofVersions
      {
      }
    }
  }

  /** validateState has an error to return exactly when the document is not valid. */
  lemma StateErrorsMeaning(s: AuthorityState)
    ensures StateErrors(s) == {} <==> ValidState(s)
    ensures !ValidState(s) ==> StateError(s) in StateErrors(s)
    ensures StateErrors(s) <= {Corrupt, Drift, Unavailable}
  {
    hide RootError, ValidRoot, IssuerErrors, ValidIssuer, ValidPending;
    forall g | g in s.roots
      ensures RootError(s, g).Some? ==> RootError(s, g).value in RootErrors(s)
    {
    }
    forall slug | slug in s.issuers
      ensures IssuerErrors(s, slug) == {} <==> ValidIssuer(s, slug)
      ensures IssuerErrors(s, slug) <= AllIssuerErrors(s)
      ensures IssuerErrors(s, slug) <= {Corrupt, Drift}
    {
      IssuerErrorsMeaning(s, slug);
      IssuerErrorsKnown(s, slug);
    }
    assert RootErrors(s) <= {Corrupt, Drift};
    assert AllIssuerErrors(s) <= {Corrupt, Drift};
    if AllIssuerErrors(s) != {} {
      var e :| e in AllIssuerErrors(s);
      var slug :| slug in s.issuers && e in IssuerErrors(s, slug);
    }
    if RootErrors(s) != {} {
      var e :| e in RootErrors(s);
      var g :| g in s.roots && RootError(s, g) == Some(e);
    }
    if !ValidState(s) {
      Picked(StateErrors(s));
    }
  }

  lemma IssuerErrorsKnown(s: AuthorityState, slug: Slug)
    requires slug in s.issuers
    ensures IssuerErrors(s, slug) <= {Corrupt, Drift}
  {
    hide KnownIssuer, ActiveFits;
  }

  lemma Picked(errors: set<Error>)
    requires errors != {} && errors <= {Corrupt, Drift, Unavailable}
    ensures (if Drift in errors && Corrupt !in errors then Drift else if Unavailable in errors then Unavailable else Corrupt) in errors
  {
    var e :| e in errors;
  }

  // ----- the loops -----

  method CheckVersions(s: AuthorityState, slug: Slug) returns (e: Option<Error>)
    requires slug in s.issuers
    ensures e.None? <==> forall v :: v in s.issuers[slug].versions ==> VersionError(s, slug, v).None?
    ensures e.Some? ==> exists v :: v in s.issuers[slug].versions && VersionError(s, slug, v) == e
  {
    hide VersionError;
    var versions := s.issuers[slug].versions;
    var todo := versions.Keys;
    while todo != {}
      invariant todo <= versions.Keys
      invariant forall v :: v in versions.Keys - todo ==> VersionError(s, slug, v).None?
      decreases |todo|
    {
      ghost var some := SomeMember(todo);
      var v :| v in todo;
      todo := todo - {v};
      e := VersionError(s, slug, v);
      if e.Some? {
        return e;
      }
    }
    return None;
  }

  method CheckIssuer(s: AuthorityState, slug: Slug) returns (e: Option<Error>)
    requires slug in s.issuers
    ensures e.None? <==> IssuerErrors(s, slug) == {}
    ensures e.Some? ==> e.value in IssuerErrors(s, slug)
  {
    hide VersionError, ValidDefinition;
    if !KnownIssuer(s, slug) {
      return Some(Corrupt);
    }
    e := CheckVersions(s, slug);
    if e.Some? {
      ghost var v :| v in s.issuers[slug].versions && VersionError(s, slug, v) == e;
      assert e.value in IssuerErrors(s, slug);
      return e;
    }
    if !ActiveFits(s, slug) {
      return Some(Corrupt);
    }
  }

  method CheckRoots(s: AuthorityState) returns (e: Option<Error>)
    ensures e.None? <==> RootErrors(s) == {}
    ensures e.Some? ==> e.value in RootErrors(s)
  {
    hide RootError;
    var todo := s.roots.Keys;
    while todo != {}
      invariant todo <= s.roots.Keys
      invariant forall g :: g in s.roots.Keys - todo ==> RootError(s, g).None?
      decreases |todo|
    {
      ghost var some := SomeMember(todo);
      var g :| g in todo;
      todo := todo - {g};
      e := RootError(s, g);
      if e.Some? {
        assert e.value in RootErrors(s);
        return e;
      }
    }
    return None;
  }

  method CheckIssuers(s: AuthorityState) returns (e: Option<Error>)
    ensures e.None? <==> AllIssuerErrors(s) == {}
    ensures e.Some? ==> e.value in AllIssuerErrors(s)
  {
    hide IssuerErrors;
    var todo := s.issuers.Keys;
    while todo != {}
      invariant todo <= s.issuers.Keys
      invariant forall slug :: slug in s.issuers.Keys - todo ==> IssuerErrors(s, slug) == {}
      decreases |todo|
    {
      ghost var some := SomeMember(todo);
      var slug :| slug in todo;
      todo := todo - {slug};
      e := CheckIssuer(s, slug);
      if e.Some? {
        assert e.value in AllIssuerErrors(s);
        return e;
      }
    }
    return None;
  }

  /** Whatever order Go walks the maps in, validateState accepts exactly the valid documents and
      otherwise returns one of the errors that the document has. */
  method ValidateState(s: AuthorityState) returns (r: Result<()>)
    ensures r.Ok? <==> ValidState(s)
    ensures r.Err? ==> r.error in StateErrors(s)
  {
    StateErrorsMeaning(s);
    hide RootErrors, AllIssuerErrors, ValidState, ValidPending;
    if s.spec.id == "" {
      return Err(Corrupt);
    }
    if s.spec.formatVersion != FORMAT_VERSION {
      return Err(Unavailable);
    }
    if s.spec.name == "" || s.activeRoot < 1 || s.activeRoot !in s.roots {
      return Err(Corrupt);
    }
    var e := CheckRoots(s);
    if e.Some? {
      return Err(e.value);
    }
    e := CheckIssuers(s);
    if e.Some? {
      return Err(e.value);
    }
    if !ValidPending(s) {
      return Err(Corrupt);
    }
    return Ok(());
  }
}
