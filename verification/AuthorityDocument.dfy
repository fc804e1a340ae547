/** The working copy of the document that update hands to a mutation, changed in place. Every method
    ends in the state its specification function in Authority computes. */
module AuthorityDocument {
  import opened Wrappers
  import opened Certificates
  import opened Policy
  import opened Authority
  import opened LedgerPaging

  /** The outcome of an in-place mutation against the one specified for it; after a failure the
      working copy is thrown away, so nothing is said about it. */
  predicate Meets(outcome: Result<()>, now: AuthorityState, spec: Result<AuthorityState>) {
    && (outcome.Ok? <==> spec.Ok?)
    && (outcome.Ok? ==> now == spec.value)
    && (outcome.Err? ==> outcome.error == spec.error)
  }

  class Document {
    var spec: AuthoritySpec
    var revision: nat
    var activeRoot: int
    var roots: map<int, RootRecord>
    var issuers: map<Slug, IssuerRecord>
    var pending: Option<Pending>

    function View(): AuthorityState
      reads this
    {
      AuthorityState(spec, revision, activeRoot, roots, issuers, pending)
    }

    constructor (s: AuthorityState)
      ensures View() == s
    {
      spec := s.spec;
      revision := s.revision;
      activeRoot := s.activeRoot;
      roots := s.roots;
      issuers := s.issuers;
      pending := s.pending;
    }

    method SetRevision(r: nat)
      modifies this`revision
      ensures View() == old(View()).(revision := r)
    {
      revision := r;
    }

    // ----- Ensure -----

    method Provision(cfg: ManagerConfig, supply: Supply, now: Instant) returns (r: Result<()>)
      requires View() == EMPTY_STATE
      modifies this
      ensures Meets(r, View(), Authority.Provision(cfg, supply, now))
    {
      hide MakeRoot, MakeIssuer, FirstIssuers;
      if cfg.authorityName.None? {
        return Err(Validation);
      }
      spec := AuthoritySpec(
        cfg.authorityId, FORMAT_VERSION, cfg.authorityName.value,
        if cfg.identity.Some? then cfg.identity.value else NO_IDENTITY,
        if cfg.rootValidity.Some? then cfg.rootValidity.value else 10 * MAXIMUM_LEAF_VALIDITY,
        if cfg.mode.Some? then cfg.mode.value else NoLedger,
        BACKEND);
      roots := map[];
      issuers := map[];
      activeRoot := 1;
      roots := roots[1 := MakeRoot(spec, 1, now, supply(ForRoot))];
      r := ProvisionIssuers(cfg.issuers, supply(ForRoot).key, supply, now);
    }

    /** The loop over the configured issuers of a new authority. */
    method ProvisionIssuers(defs: seq<IssuerDefinition>, key: nat, supply: Supply, now: Instant) returns (r: Result<()>)
      requires activeRoot in roots
      modifies this`issuers
      ensures Meets(r, View(), FirstIssuers(old(View()), defs, key, supply, now))
    {
      hide MakeIssuer, FirstIssuers;
      ghost var bare := View();
      NoFirstIssuers(bare, defs, key, supply, now);
      var k := 0;
      while k < |defs|
        invariant 0 <= k <= |defs|
        invariant FirstIssuers(bare, defs[..k], key, supply, now) == Ok(View())
      {
        var d := defs[k];
        FirstIssuersNext(bare, defs, k, key, supply, now);
        var v := MakeIssuer(spec, activeRoot, 1, d, roots[activeRoot].certificate, key, now, supply(ForIssuer(d.slug)));
        if v.Err? {
          FirstIssuersStops(bare, defs, k + 1, key, supply, now);
          return Err(v.error);
        }
        issuers := issuers[d.slug := IssuerRecord(d, 1, map[1 := v.value])];
        k := k + 1;
      }
      assert defs[..k] == defs;
      return Ok(());
    }

    /** One configured issuer: a known one must agree, an unknown one is created. */
    method AddOneIssuer(d: IssuerDefinition, secret: Secret, supply: Supply, now: Instant)
      returns (r: Result<()>, added: bool)
      requires activeRoot in roots
      modifies this`issuers
      ensures Meets(r, View(), AddIssuer(old(View()), d, secret, supply, now))
      ensures r.Ok? ==> (added <==> d.slug !in old(issuers)) && issuers.Keys == old(issuers).Keys + {d.slug}
      ensures r.Ok? && !added ==> issuers == old(issuers)
    {
      hide MakeIssuer, ActiveRootSigner;
      added := false;
      if d.slug in issuers {
        if issuers[d.slug].definition != d {
          return Err(Drift), added;
        }
        return Ok(()), added;
      }
      if exists name :: name in issuers && issuers[name].definition.slug == d.slug && issuers[name].definition.name != d.name {
        return Err(Conflict), added;
      }
      var key := ActiveRootSigner(View(), secret);
      if key.Err? {
        return Err(key.error), added;
      }
      var v := MakeIssuer(spec, activeRoot, 1, d, roots[activeRoot].certificate, key.value, now, supply(ForIssuer(d.slug)));
      if v.Err? {
        return Err(v.error), added;
      }
      issuers := issuers[d.slug := IssuerRecord(d, 1, map[1 := v.value])];
      return Ok(()), true;
    }

    /** The loop of Ensure over the configured issuers; changed says whether one was added. */
    method AddIssuers(defs: seq<IssuerDefinition>, secret: Secret, supply: Supply, now: Instant)
      returns (r: Result<()>, changed: bool)
      requires activeRoot in roots
      modifies this`issuers
      ensures Meets(r, View(), Authority.AddIssuers(old(View()), defs, secret, supply, now))
      ensures r.Ok? ==> (changed <==> View() != old(View()))
    {
      hide AddIssuer;
      ghost var start := View();
      changed := false;
      var k := 0;
      while k < |defs|
        invariant 0 <= k <= |defs|
        invariant Authority.AddIssuers(start, defs[..k], secret, supply, now) == Ok(View())
        invariant start.issuers.Keys <= issuers.Keys
        invariant changed <==> issuers.Keys != start.issuers.Keys
        invariant !changed ==> issuers == start.issuers
      {
        assert defs[..k + 1][..k] == defs[..k];
        var added;
        r, added := AddOneIssuer(defs[k], secret, supply, now);
        if r.Err? {
          AddIssuersStops(start, defs, k + 1, secret, supply, now);
          return;
        }
        if added {
          changed := true;
        }
        k := k + 1;
      }
      assert defs[..k] == defs;
      r := Ok(());
    }

    method StageOne(slug: Slug, generation: int, root: Certificate, rootKey: nat, supply: Supply, now: Instant,
            ghost start: AuthorityState)
      returns (record: Result<IssuerVersion>)
      requires slug in issuers && slug in start.issuers && issuers[slug] == start.issuers[slug] && spec == start.spec
      modifies this`issuers
      ensures record == Successor(start, slug, generation, root, rootKey, supply, now)
      ensures record.Err? ==> record.error == Validation && issuers == old(issuers)
      ensures record.Ok? ==> issuers == old(issuers)[slug := Staged(start.issuers[slug], record.value)]
      ensures record.Ok? ==> record.value.version == start.issuers[slug].activeVersion + 1
    {
      var i := issuers[slug];
      var v := i.activeVersion + 1;
      record := MakeIssuer(spec, generation, v, i.definition, root, rootKey, now, supply(ForIssuer(slug)));
      if record.Ok? {
        issuers := issuers[slug := i.(versions := i.versions[v := record.value])];
      }
    }

    method StageNext(slug: Slug, noted: map<Slug, int>, generation: int, root: Certificate, rootKey: nat,
            supply: Supply, now: Instant,
                     ghost start: AuthorityState, ghost done: set<Slug>)
      returns (r: Result<()>, manifest: map<Slug, int>)
      requires slug in start.issuers && slug !in done
      requires Staging(start, done, View(), noted, generation, root, rootKey, supply, now)
      modifies this`issuers
      ensures r.Err? ==> r.error == Validation && Successor(start, slug, generation, root, rootKey, supply, now).Err?
      ensures r.Ok? ==> Staging(start, done + {slug}, View(), manifest, generation, root, rootKey, supply, now)
    {
      hide Staging, Successor;
      manifest := noted;
      ghost var before := View();
      StagingKeeps(start, done, before, noted, slug, generation, root, rootKey, supply, now);
      var record := StageOne(slug, generation, root, rootKey, supply, now, start);
      if record.Err? {
        return Err(record.error), manifest;
      }
      StagingStep(start, done, before, noted, slug, record.value, generation, root, rootKey, supply, now);
      manifest := noted[slug := record.value.version];
      r := Ok(());
    }

    /** The loops of prepareRoot and prepareIssuers that stage a successor for each due issuer, in
        whatever order the map yields them, and note it in the manifest. */
    method StageIssuers(due: set<Slug>, generation: int, root: Certificate, rootKey: nat, supply: Supply, now: Instant)
      returns (r: Result<()>, manifest: map<Slug, int>)
      requires due <= issuers.Keys
      modifies this`issuers
      ensures Meets(r, View(), Authority.StageIssuers(old(View()), due, generation, root, rootKey, supply, now))
      ensures r.Ok? ==> manifest == map slug | slug in due :: old(issuers[slug]).activeVersion + 1
    {
      hide Staging, MakeIssuer, StagedMap, Successor;
      ghost var start := View();
      manifest := map[];
      var todo := due;
      ghost var done: set<Slug> := {};
      StagingBegins(start, generation, root, rootKey, supply, now);
      while todo != {}
        invariant todo !! done && todo + done == due
        invariant Staging(start, done, View(), manifest, generation, root, rootKey, supply, now)
        decreases |todo|
      {
        ghost var some := SomeMember(todo);
        var slug :| slug in todo;
        r, manifest := StageNext(slug, manifest, generation, root, rootKey, supply, now, start, done);
        if r.Err? {
          assert slug in due;
          return;
        }
        todo, done := todo - {slug}, done + {slug};
      }
      assert done == due;
      StagingEnds(start, due, View(), manifest, generation, root, rootKey, supply, now);
      return Ok(()), manifest;
    }

    method PrepareRoot(supply: Supply, now: Instant) returns (r: Result<()>)
      modifies this
      ensures Meets(r, View(), Authority.PrepareRoot(old(View()), supply, now))
    {
      ghost var start := View();
      var g := activeRoot + 1;
      ghost var rest := roots;
      while g in roots
        invariant NextGeneration(rest, g) == NextGeneration(roots, activeRoot + 1)
        invariant activeRoot + 1 <= g
        invariant rest == map h | h in roots && !(activeRoot + 1 <= h < g) :: roots[h]
        decreases |rest|
      {
        assert g in rest;
        ghost var smaller := rest - {g};
        assert smaller.Keys == rest.Keys - {g};
        assert |smaller| == |rest| - 1 by {
          assert |rest.Keys - {g}| == |rest.Keys| - 1;
        }
        rest := smaller;
        g := g + 1;
      }
      assert NextGeneration(rest, g) == g;
      var root := MakeRoot(spec, g, now, supply(ForRoot));
      roots := roots[g := root];
      var expected := revision;
      var manifest: map<Slug, int>;
      r, manifest := StageIssuers(issuers.Keys, g, root.certificate, supply(ForRoot).key, supply, now);
      if r.Ok? {
        pending := Some(Pending(PendingRoot, expected, g, manifest, now));
      }
    }

    method PrepareIssuers(due: set<Slug>, secret: Secret, supply: Supply, now: Instant) returns (r: Result<()>)
      requires activeRoot in roots && due <= issuers.Keys
      modifies this
      ensures Meets(r, View(), Authority.PrepareIssuers(old(View()), due, secret, supply, now))
    {
      var key := ActiveRootSigner(View(), secret);
      if key.Err? {
        return Err(key.error);
      }
      var expected := revision;
      var manifest: map<Slug, int>;
      r, manifest := StageIssuers(due, activeRoot, roots[activeRoot].certificate, key.value, supply, now);
      if r.Ok? {
        pending := Some(Pending(PendingIssuer, expected, 0, manifest, now));
      }
    }

    method IsDue(opts: EnsureOptions, slug: Slug, now: Instant) returns (due: bool)
      requires slug in issuers && issuers[slug].activeVersion in issuers[slug].versions
      ensures due == IssuerDue(View(), opts, slug, now)
    {
      var i := issuers[slug];
      var before, explicit := DEFAULT_ROTATE_BEFORE, false;
      if i.definition.name in opts.issuerRotateBefore {
        before, explicit := opts.issuerRotateBefore[i.definition.name], true;
      }
      due := (explicit && before == 0) || !(i.versions[i.activeVersion].certificate.notAfter > now + before);
    }

    method DueIssuers(opts: EnsureOptions, now: Instant) returns (due: set<Slug>)
      requires forall slug :: slug in issuers ==> issuers[slug].activeVersion in issuers[slug].versions
      ensures due == set slug | slug in issuers && IssuerDue(View(), opts, slug, now)
    {
      hide IssuerDue;
      due := {};
      var todo := issuers.Keys;
      while todo != {}
        invariant todo <= issuers.Keys
        invariant due == set slug | slug in issuers && slug !in todo && IssuerDue(View(), opts, slug, now)
        decreases |todo|
      {
        ghost var some := SomeMember(todo);
        var slug :| slug in todo;
        var yes := IsDue(opts, slug, now);
        if yes {
          due := due + {slug};
        }
        todo := todo - {slug};
      }
    }

    method Ensure(cfg: ManagerConfig, opts: EnsureOptions, secret: Secret, supply: Supply, now: Instant)
      returns (r: Result<()>)
      requires View() == EMPTY_STATE || ValidState(View())
      modifies this
      ensures Meets(r, View(), Authority.Ensure(old(View()), cfg, opts, secret, supply, now))
    {
      hide ValidRoot, ValidVersion, ValidPending, Authority.Provision, Authority.AddIssuers, Authority.PrepareRoot, Authority.PrepareIssuers;
      ghost var start := View();
      if spec.id == "" {
        r := Provision(cfg, supply, now);
        return;
      }
      var asserted := AssertSpec(View(), cfg);
      if asserted.Err? {
        return Err(asserted.error);
      }
      if pending.Some? {
        return Err(Conflict);
      }
      var signer := ActiveRootSigner(View(), secret);
      if signer.Err? {
        return Err(signer.error);
      }
      var changed;
      r, changed := AddIssuers(cfg.issuers, secret, supply, now);
      if r.Err? {
        return;
      }
      AddIssuersKeepsShape(start, cfg.issuers, secret, supply, now);
      var rootBefore := if opts.rootRotateBefore.Some? then opts.rootRotateBefore.value else DEFAULT_ROTATE_BEFORE;
      if (opts.rootRotateBefore.Some? && rootBefore == 0) || !(roots[activeRoot].certificate.notAfter > now + rootBefore) {
        r := PrepareRoot(supply, now);
        return;
      }
      var due := DueIssuers(opts, now);
      if due != {} {
        r := PrepareIssuers(due, secret, supply, now);
        return;
      }
      if !changed {
        return Err(NoMutation);
      }
      return Ok(());
    }

    // ----- promotion -----

    /** ledgerTrustDeadline: page after page, the latest extended expiry under a generation. */
    method LedgerTrustDeadline(ledger: seq<LedgerRecord>, generation: int) returns (r: Result<Instant>)
      ensures r == if LedgerReadable(ledger) then Ok(LedgerDeadline(View(), ledger, generation)) else Err(Corrupt)
    {
      hide ValidRecord;
      var deadline: Instant := 0;
      var cursor := 0;
      var last := false;
      assert ledger[..0] == [];
      while !last
        invariant cursor <= |ledger|
        invariant last ==> LedgerReadable(ledger)
        invariant deadline == LedgerDeadline(View(), ledger[..cursor], generation)
        invariant last ==> cursor == |ledger|
        decreases |ledger| - cursor, !last
      {
        var read := NextPage(ledger, cursor);
        if read.Err? {
          return Err(read.error);
        }
        var page := read.value;
        var k := 0;
        ghost var before := deadline;
        while k < |page.records|
          invariant 0 <= k <= |page.records|
          invariant deadline == ScanDeadline(View(), page.records[..k], generation, before)
        {
          var x := page.records[k];
          assert page.records[..k + 1][..k] == page.records[..k];
          if x.issuer in issuers {
            var i := issuers[x.issuer];
            if x.issuerVersion in i.versions && i.versions[x.issuerVersion].rootGeneration == generation
               && x.expiresAt + CLOCK_SKEW > deadline {
              deadline := x.expiresAt + CLOCK_SKEW;
            }
          }
          k := k + 1;
        }
        assert page.records[..k] == page.records;
        ScanAppend(View(), ledger[..cursor], page.records, generation);
        if page.next.None? {
          last := true;
          cursor := |ledger|;
        } else {
          cursor := page.next.value;
        }
      }
      assert ledger[..cursor] == ledger;
      return Ok(deadline);
    }

    method NextPage(ledger: seq<LedgerRecord>, cursor: nat) returns (r: Result<Page>)
      requires cursor <= |ledger|
      ensures r == ListLedger(ledger, cursor, PAGE_SIZE)
      ensures if LedgerReadable(ledger) then r.Ok? else r == Err(Corrupt)
      ensures r.Ok? ==>
              var page := r.value;
              && ledger[..cursor] + page.records == ledger[..cursor + |page.records|]
              && (page.next.Some? ==> page.next.value == cursor + |page.records| && cursor < page.next.value < |ledger|)
              && (page.next.None? ==> cursor + |page.records| == |ledger|)
    {
      PageExtends(ledger, cursor, PAGE_SIZE);
      r := ListLedger(ledger, cursor, PAGE_SIZE);
    }

    method PromotePending(cfg: ManagerConfig, secret: Secret, ledger: seq<LedgerRecord>, now: Instant)
      returns (r: Result<()>)
      requires View() == EMPTY_STATE || ValidState(View())
      modifies this
      ensures Meets(r, View(), Promote(old(View()), cfg, secret, ledger, now))
    {
      hide CheckPromotion, ValidRoot, ValidIssuer, LedgerDeadline, LedgerReadable, Activated;
      CheckedPending(View(), cfg, secret);
      var checked := CheckPending(cfg, secret);
      if checked.Err? {
        return Err(checked.error);
      }
      var p := checked.value;
      if p.kind == PendingRoot {
        var previous := activeRoot;
        var deadline := now + MAXIMUM_LEAF_VALIDITY + CLOCK_SKEW;
        if spec.mode == Ledger {
          var latest := LedgerTrustDeadline(ledger, previous);
          if latest.Err? {
            return Err(latest.error);
          }
          deadline := if latest.value == 0 then now else latest.value;
        }
        activeRoot := p.rootGeneration;
        roots := roots[previous := roots[previous].(key := None, retiredTrustUntil := deadline)];
      }
      Activate(p);
      pending := None;
      return Ok(());
    }

    /** Every check that precedes the change, in the order of the source. */
    method CheckPending(cfg: ManagerConfig, secret: Secret) returns (r: Result<Pending>)
      requires View() == EMPTY_STATE || ValidState(View())
      ensures r == CheckPromotion(View(), cfg, secret)
    {
      hide ValidRoot, ValidVersion, ValidIssuer;
      var asserted := AssertSpec(View(), cfg);
      if asserted.Err? {
        return Err(asserted.error);
      }
      if pending.None? {
        return Err(NotFound);
      }
      var p := pending.value;
      if p.kind == PendingRoot {
        var root := roots[p.rootGeneration];
        if secret == Missing {
          return Err(NotFound);
        }
        if secret == Wrong || root.key.None? {
          return Err(Validation);
        }
        if root.key.value != root.certificate.publicKey {
          return Err(Corrupt);
        }
      }
      var matching := PendingKeysMatch(p);
      if !matching {
        return Err(Corrupt);
      }
      return Ok(p);
    }

    method PendingKeysMatch(p: Pending) returns (ok: bool)
      requires forall slug :: slug in p.issuers ==> slug in issuers && p.issuers[slug] in issuers[slug].versions
      ensures ok <==> forall slug :: slug in p.issuers ==>
        KeyMatches(issuers[slug].versions[p.issuers[slug]].key, issuers[slug].versions[p.issuers[slug]].certificate)
    {
      var todo := p.issuers.Keys;
      while todo != {}
        invariant todo <= p.issuers.Keys
        invariant forall slug :: slug in p.issuers && slug !in todo ==>
          KeyMatches(issuers[slug].versions[p.issuers[slug]].key, issuers[slug].versions[p.issuers[slug]].certificate)
        decreases |todo|
      {
        ghost var some := SomeMember(todo);
        var slug :| slug in todo;
        var record := issuers[slug].versions[p.issuers[slug]];
        if record.key != Some(record.certificate.publicKey) {
          return false;
        }
        todo := todo - {slug};
      }
      return true;
    }

    /** The loop that makes each pending version active and drops the key it replaces. */
    method Activate(p: Pending)
      requires p.issuers.Keys <= issuers.Keys
      modifies this`issuers
      ensures issuers == map slug | slug in old(issuers) ::
        if slug in p.issuers then Activated(old(issuers)[slug], p.issuers[slug]) else old(issuers)[slug]
    {
      ghost var start := issuers;
      var todo := p.issuers.Keys;
      while todo != {}
        invariant todo <= p.issuers.Keys
        invariant issuers == map slug | slug in start ::
          if slug in p.issuers && slug !in todo then Activated(start[slug], p.issuers[slug]) else start[slug]
        decreases |todo|
      {
        ghost var some := SomeMember(todo);
        var slug :| slug in todo;
        var i := issuers[slug];
        var replaced := i.activeVersion;
        i := i.(activeVersion := p.issuers[slug]);
        if replaced in i.versions {
          i := i.(versions := i.versions[replaced := i.versions[replaced].(key := None)]);
        }
        assert i == Activated(start[slug], p.issuers[slug]);
        issuers := issuers[slug := i];
        todo := todo - {slug};
      }
    }

    // ----- discard and prune -----

    method DiscardPending(cfg: ManagerConfig) returns (r: Result<()>)
      requires View() == EMPTY_STATE || ValidState(View())
      modifies this
      ensures Meets(r, View(), Discard(old(View()), cfg))
    {
      hide ValidRoot, ValidIssuer;
      var asserted := AssertSpec(View(), cfg);
      if asserted.Err? {
        return Err(asserted.error);
      }
      if pending.None? {
        return Err(NotFound);
      }
      var p := pending.value;
      if p.rootGeneration > 0 {
        roots := roots - {p.rootGeneration};
      }
      DropVersions(p);
      pending := None;
      return Ok(());
    }

    /** The loop that deletes every staged version. */
    method DropVersions(p: Pending)
      requires p.issuers.Keys <= issuers.Keys
      modifies this`issuers
      ensures issuers == map slug | slug in old(issuers) ::
        if slug in p.issuers then old(issuers)[slug].(versions := old(issuers)[slug].versions - {p.issuers[slug]}) else old(issuers)[slug]
    {
      ghost var start := issuers;
      var todo := p.issuers.Keys;
      while todo != {}
        invariant todo <= p.issuers.Keys <= start.Keys
        invariant issuers == map slug | slug in start ::
          if slug in p.issuers && slug !in todo then start[slug].(versions := start[slug].versions - {p.issuers[slug]}) else start[slug]
        decreases |todo|
      {
        ghost var some := SomeMember(todo);
        var slug :| slug in todo;
        issuers := issuers[slug := issuers[slug].(versions := issuers[slug].versions - {p.issuers[slug]})];
        todo := todo - {slug};
      }
    }

    method PruneRoot(generation: int, fingerprint: nat, now: Instant) returns (r: Result<()>)
      modifies this`roots
      ensures Meets(r, View(), Prune(old(View()), generation, fingerprint, now))
    {
      if generation < 1 {
        return Err(Validation);
      }
      if generation == activeRoot || (pending.Some? && generation == pending.value.rootGeneration) {
        return Err(Conflict);
      }
      if generation !in roots {
        return Err(NotFound);
      }
      var root := roots[generation];
      if root.fingerprint != fingerprint {
        return Err(Drift);
      }
      if root.retiredTrustUntil > now {
        return Err(Conflict);
      }
      roots := roots[generation := root.(retiredTrustUntil := 0)];
      return Ok(());
    }

    /** The mutation that belongs to a command. */
    method Mutate(cfg: ManagerConfig, cmd: Command, ledger: seq<LedgerRecord>, now: Instant) returns (r: Result<()>)
      requires View() == EMPTY_STATE || ValidState(View())
      modifies this
      ensures Meets(r, View(), Authority.Mutate(old(View()), cfg, cmd, ledger, now))
    {
      hide ValidState, Authority.Ensure, Promote, Discard, Prune;
      match cmd
      case EnsureCommand(opts, secret, supply) => r := Ensure(cfg, opts, secret, supply, now);
      case PromoteCommand(secret) => r := PromotePending(cfg, secret, ledger, now);
      case DiscardCommand => r := DiscardPending(cfg);
      case PruneCommand(generation, fingerprint) => r := PruneRoot(generation, fingerprint, now);
    }
  }

  /** How far the staging loop has come once it has handled the issuers in done. */
  predicate Staging(start: AuthorityState, done: set<Slug>, s: AuthorityState, manifest: map<Slug, int>,
                    generation: int, root: Certificate, rootKey: nat, supply: Supply, now: Instant) {
    && done <= start.issuers.Keys
    && (forall x :: x in done ==> Successor(start, x, generation, root, rootKey, supply, now).Ok?)
    && s == start.(issuers := StagedMap(start, done, generation, root, rootKey, supply, now))
    && manifest.Keys == done
    && (forall slug :: slug in manifest ==> manifest[slug] == start.issuers[slug].activeVersion + 1)
  }

  lemma StagingBegins(s: AuthorityState, generation: int, root: Certificate, rootKey: nat, supply: Supply, now: Instant)
    ensures Staging(s, {}, s, map[], generation, root, rootKey, supply, now)
  {
    assert StagedMap(s, {}, generation, root, rootKey, supply, now) == s.issuers;
  }

  lemma StagingKeeps(start: AuthorityState, done: set<Slug>, s: AuthorityState, manifest: map<Slug, int>, slug: Slug,
                     generation: int, root: Certificate, rootKey: nat, supply: Supply, now: Instant)
    requires Staging(start, done, s, manifest, generation, root, rootKey, supply, now) && slug in start.issuers && slug !in done
    ensures slug in s.issuers && s.issuers[slug] == start.issuers[slug] && s.spec == start.spec
  {
  }

  lemma StagingStep(start: AuthorityState, done: set<Slug>, s: AuthorityState, manifest: map<Slug, int>, slug: Slug,
          v: IssuerVersion,
                    generation: int, root: Certificate, rootKey: nat, supply: Supply, now: Instant)
    requires Staging(start, done, s, manifest, generation, root, rootKey, supply, now) && slug in start.issuers && slug !in done
    requires Successor(start, slug, generation, root, rootKey, supply, now) == Ok(v)
    requires v.version == start.issuers[slug].activeVersion + 1
    ensures Staging(start, done + {slug}, s.(issuers := s.issuers[slug := Staged(start.issuers[slug], v)]), manifest[slug := v.version],
                    generation, root, rootKey, supply, now)
  {
    hide Successor;
  }

  lemma StagingEnds(start: AuthorityState, due: set<Slug>, s: AuthorityState, manifest: map<Slug, int>,
                    generation: int, root: Certificate, rootKey: nat, supply: Supply, now: Instant)
    requires Staging(start, due, s, manifest, generation, root, rootKey, supply, now)
    ensures due <= start.issuers.Keys && Authority.StageIssuers(start, due, generation, root, rootKey, supply, now) == Ok(s)
    ensures manifest == map slug | slug in due :: start.issuers[slug].activeVersion + 1
  {
    hide Successor;
  }

  /** What a passed check says about the state it was made on. */
  lemma CheckedPending(s: AuthorityState, cfg: ManagerConfig, secret: Secret)
    requires s == EMPTY_STATE || ValidState(s)
    ensures CheckPromotion(s, cfg, secret).Ok? ==>
      s.pending == Some(CheckPromotion(s, cfg, secret).value) && s.activeRoot in s.roots && s.pending.value.issuers.Keys <= s.issuers.Keys
  {
  }

  // ----- an early error is the error of the whole loop -----

  lemma NoFirstIssuers(s: AuthorityState, defs: seq<IssuerDefinition>, rootKey: nat, supply: Supply, now: Instant)
    requires s.activeRoot in s.roots
    ensures FirstIssuers(s, defs[..0], rootKey, supply, now) == Ok(s)
  {
  }

  /** One more issuer of the list. */
  lemma FirstIssuersNext(s: AuthorityState, defs: seq<IssuerDefinition>, k: nat, rootKey: nat, supply: Supply, now: Instant)
    requires s.activeRoot in s.roots && k < |defs| && FirstIssuers(s, defs[..k], rootKey, supply, now).Ok?
    ensures var before := FirstIssuers(s, defs[..k], rootKey, supply, now).value;
            var d := defs[k];
            var v := MakeIssuer(s.spec, s.activeRoot, 1, d, s.roots[s.activeRoot].certificate, rootKey, now, supply(ForIssuer(d.slug)));
            FirstIssuers(s, defs[..k + 1], rootKey, supply, now)
              == if v.Err? then Err(v.error) else Ok(before.(issuers := before.issuers[d.slug := IssuerRecord(d, 1, map[1 := v.value])]))
  {
    hide MakeIssuer;
    assert defs[..k + 1][..k] == defs[..k];
  }

  lemma {:induction false} FirstIssuersStops(s: AuthorityState, defs: seq<IssuerDefinition>, k: nat, rootKey: nat,
          supply: Supply, now: Instant)
    requires s.activeRoot in s.roots && k <= |defs| && FirstIssuers(s, defs[..k], rootKey, supply, now).Err?
    ensures FirstIssuers(s, defs, rootKey, supply, now) == FirstIssuers(s, defs[..k], rootKey, supply, now)
    decreases |defs|
  {
    if k < |defs| {
      var init := defs[..|defs| - 1];
      assert init[..k] == defs[..k];
      FirstIssuersStops(s, init, k, rootKey, supply, now);
    } else {
      assert defs[..k] == defs;
    }
  }

  lemma {:induction false} AddIssuersStops(s: AuthorityState, defs: seq<IssuerDefinition>, k: nat, secret: Secret,
          supply: Supply, now: Instant)
    requires s.activeRoot in s.roots && k <= |defs| && Authority.AddIssuers(s, defs[..k], secret, supply, now).Err?
    ensures Authority.AddIssuers(s, defs, secret, supply, now) == Authority.AddIssuers(s, defs[..k], secret, supply, now)
    decreases |defs|
  {
    if k < |defs| {
      var init := defs[..|defs| - 1];
      assert init[..k] == defs[..k];
      AddIssuersStops(s, init, k, secret, supply, now);
    } else {
      assert defs[..k] == defs;
    }
  }
}
