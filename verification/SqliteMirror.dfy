/** The relational mirror of the authority document in SQLite (certs/sqlite_store.go): filling the
    tables and checking them against the document. A table is a map from its primary key. */
module SqliteMirror {
  import opened Wrappers
  import opened Certificates
  import opened Policy
  import opened Authority
  import Text

  datatype SpecRow = SpecRow(formatVersion: int, specification: AuthoritySpec)

  datatype RootRow = RootRow(certificate: Certificate, fingerprint: nat, retiredTrustUntil: Instant)

  datatype DefinitionRow = DefinitionRow(displayName: string, definition: IssuerDefinition)

  datatype VersionRow = VersionRow(rootGeneration: int, certificate: Certificate, fingerprint: nat)

  datatype TopologyRow = TopologyRow(revision: nat, activeRoot: int, pending: Option<Pending>)

  datatype KeyId = KeyId(kind: string, id: string)

  datatype VersionId = VersionId(slug: Slug, version: int)

  const SINGLETON := 1

  datatype Tables = Tables(
    authorities: map<string, SpecRow>,
    roots: map<int, RootRow>,
    definitions: map<Slug, DefinitionRow>,
    versions: map<VersionId, VersionRow>,
    topology: map<int, TopologyRow>,
    keys: map<KeyId, nat>)

  // ----- what the tables should hold -----

  /** The records that own a private key. */
  datatype Owner = RootOwner(generation: int) | VersionOwner(id: VersionId)

  function IdOf(o: Owner): KeyId {
    match o
    case RootOwner(g) => KeyId("root", Text.Itoa(g))
    case VersionOwner(v) => KeyId("issuer", v.slug + ":" + Text.Itoa(v.version))
  }

  lemma LastColon(slug: string, version: int, s: string)
    requires s == slug + ":" + Text.Itoa(version)
    ensures |slug| < |s| && s[|slug|] == ':' && s[..|slug|] == slug && s[|slug| + 1..] == Text.Itoa(version)
    ensures forall i :: |slug| < i < |s| ==> s[i] != ':'
  {
    Text.ItoaHasNoColon(version);
    assert forall i :: |slug| < i < |s| ==> s[i] in Text.Itoa(version);
  }

  /** A colon may occur in a slug but not in a version, so the last one tells them apart. */
  lemma SlugVersionInjective(a: string, m: int, b: string, n: int)
    requires a + ":" + Text.Itoa(m) == b + ":" + Text.Itoa(n)
    ensures a == b && m == n
  {
    LastColon(a, m, a + ":" + Text.Itoa(m));
    LastColon(b, n, b + ":" + Text.Itoa(n));
    Text.ItoaInjective(m, n);
  }

  lemma IdsInjective(o: Owner, p: Owner)
    requires IdOf(o) == IdOf(p)
    ensures o == p
  {
    assert "root"[0] != "issuer"[0];
    if o.RootOwner? && p.RootOwner? {
      Text.ItoaInjective(o.generation, p.generation);
    } else if o.VersionOwner? && p.VersionOwner? {
      SlugVersionInjective(o.id.slug, o.id.version, p.id.slug, p.id.version);
    }
  }

  function VersionIds(s: AuthorityState): set<VersionId> {
    set slug, v | slug in s.issuers && v in s.issuers[slug].versions :: VersionId(slug, v)
  }

  predicate HasVersion(s: AuthorityState, id: VersionId) {
    id.slug in s.issuers && id.version in s.issuers[id.slug].versions
  }

  function VersionAt(s: AuthorityState, id: VersionId): IssuerVersion
    requires HasVersion(s, id)
  {
    s.issuers[id.slug].versions[id.version]
  }

  predicate Owns(s: AuthorityState, o: Owner) {
    match o
    case RootOwner(g) => g in s.roots && s.roots[g].key.Some?
    case VersionOwner(id) => HasVersion(s, id) && VersionAt(s, id).key.Some?
  }

  function KeyOf(s: AuthorityState, o: Owner): nat
    requires Owns(s, o)
  {
    match o
    case RootOwner(g) => s.roots[g].key.value
    case VersionOwner(id) => VersionAt(s, id).key.value
  }

  function Owners(s: AuthorityState): (r: set<Owner>)
    ensures forall o :: o in r <==> Owns(s, o)
  {
    (set g | g in s.roots && s.roots[g].key.Some? :: RootOwner(g))
    + (set id | id in VersionIds(s) && VersionAt(s, id).key.Some? :: VersionOwner(id))
  }

  function RowOfRoot(r: RootRecord): RootRow {
    RootRow(r.certificate, r.fingerprint, r.retiredTrustUntil)
  }

  function RowOfDefinition(d: IssuerDefinition): DefinitionRow {
    DefinitionRow(d.name, d)
  }

  function RowOfVersion(v: IssuerVersion): VersionRow {
    VersionRow(v.rootGeneration, v.certificate, v.fingerprint)
  }

  function RowOfSpec(s: AuthorityState): SpecRow {
    SpecRow(s.spec.formatVersion, s.spec)
  }

  function RowOfTopology(s: AuthorityState): TopologyRow {
    TopologyRow(s.revision, s.activeRoot, s.pending)
  }

  function RootTable(s: AuthorityState): map<int, RootRow> {
    map g | g in s.roots :: RowOfRoot(s.roots[g])
  }

  function DefinitionTable(s: AuthorityState): map<Slug, DefinitionRow> {
    map slug | slug in s.issuers :: RowOfDefinition(s.issuers[slug].definition)
  }

  function VersionTable(s: AuthorityState): map<VersionId, VersionRow> {
    map id | id in VersionIds(s) :: RowOfVersion(VersionAt(s, id))
  }

  function KeyTable(s: AuthorityState): map<KeyId, nat> {
    assert forall o, p :: IdOf(o) == IdOf(p) ==> o == p by {
      forall o, p | IdOf(o) == IdOf(p)
        ensures o == p
      {
        IdsInjective(o, p);
      }
    }
    map o | o in Owners(s) :: IdOf(o) := KeyOf(s, o)
  }

  /** The rows the document asks for. */
  function Projection(s: AuthorityState): Tables {
    Tables(map[s.spec.id := RowOfSpec(s)], RootTable(s), DefinitionTable(s), VersionTable(s),
           map[SINGLETON := RowOfTopology(s)], KeyTable(s))
  }

  /** The tables pass against the document, whatever else authority_records holds. */
  predicate Agrees(t: Tables, s: AuthorityState, first: string) {
    && first == s.spec.id && first in t.authorities && t.authorities[first] == RowOfSpec(s)
    && SINGLETON in t.topology && t.topology[SINGLETON] == RowOfTopology(s)
    && t.roots == RootTable(s)
    && t.definitions == DefinitionTable(s)
    && t.versions == VersionTable(s)
    && t.keys == KeyTable(s)
  }

  // ----- what the checks see -----

  /** A table whose size is right and in which every expected row is found holds nothing else. */
  lemma {:induction false} CountAndLookups<K, V>(table: map<K, V>, expected: map<K, V>)
    requires |table| == |expected|
    requires forall k :: k in expected ==> k in table && table[k] == expected[k]
    ensures table == expected
  {
    assert |table.Keys| == |table| && |expected.Keys| == |expected|;
    assert expected.Keys <= table.Keys;
    SubsetOfSameSize(expected.Keys, table.Keys);
  }

  lemma {:induction false} SubsetOfSameSize<K>(a: set<K>, b: set<K>)
    requires a <= b && |a| == |b|
    ensures a == b
  {
    assert |b - a| == |b| - |a|;
  }

  lemma SizesOfTables(s: AuthorityState)
    ensures |VersionTable(s)| == |VersionIds(s)|
    ensures |DefinitionTable(s)| == |s.issuers|
  {
    assert VersionTable(s).Keys == VersionIds(s);
    assert |VersionTable(s).Keys| == |VersionTable(s)|;
    assert DefinitionTable(s).Keys == s.issuers.Keys;
    assert |DefinitionTable(s).Keys| == |DefinitionTable(s)| && |s.issuers.Keys| == |s.issuers|;
  }

  lemma DefinitionRows(s: AuthorityState)
    ensures DefinitionTable(s).Keys == s.issuers.Keys
    ensures forall slug :: slug in s.issuers ==> DefinitionTable(s)[slug] == RowOfDefinition(s.issuers[slug].definition)
  {
  }

  lemma VersionRows(s: AuthorityState)
    ensures forall id :: id in VersionTable(s) <==> HasVersion(s, id)
    ensures forall id :: HasVersion(s, id) ==> VersionTable(s)[id] == RowOfVersion(VersionAt(s, id))
  {
  }

  lemma KeyTableRows(s: AuthorityState)
    ensures forall o :: Owns(s, o) ==> IdOf(o) in KeyTable(s) && KeyTable(s)[IdOf(o)] == KeyOf(s, o)
    ensures KeyTable(s).Keys == set o | o in Owners(s) :: IdOf(o)
    ensures |KeyTable(s)| == |Owners(s)|
  {
    hide IdOf, Owners, Owns;
    forall o, p | IdOf(o) == IdOf(p)
      ensures o == p
    {
      IdsInjective(o, p);
    }
    forall o | o in Owners(s)
      ensures IdOf(o) in KeyTable(s) && KeyTable(s)[IdOf(o)] == KeyOf(s, o)
    {
    }
    IdsCount(Owners(s));
    assert |KeyTable(s).Keys| == |KeyTable(s)|;
  }

  lemma {:induction false} IdsCount(owners: set<Owner>)
    ensures |set o | o in owners :: IdOf(o)| == |owners|
  {
    var ids := set o | o in owners :: IdOf(o);
    if owners == {} {
      assert ids == {};
    } else {
      var o := SomeMember(owners);
      var rest := owners - {o};
      IdsCount(rest);
      forall p | p in rest
        ensures IdOf(p) != IdOf(o)
      {
        if IdOf(p) == IdOf(o) {
          IdsInjective(p, o);
        }
      }
      assert ids == (set p | p in rest :: IdOf(p)) + {IdOf(o)};
    }
  }

  ghost predicate RootFound(t: Tables, s: AuthorityState, g: int)
    requires g in s.roots
  {
    g in t.roots && t.roots[g] == RowOfRoot(s.roots[g])
  }

  ghost predicate DefinitionFound(t: Tables, s: AuthorityState, slug: Slug)
    requires slug in s.issuers
  {
    slug in t.definitions && t.definitions[slug] == RowOfDefinition(s.issuers[slug].definition)
  }

  ghost predicate VersionFound(t: Tables, s: AuthorityState, id: VersionId)
    requires HasVersion(s, id)
  {
    id in t.versions && t.versions[id] == RowOfVersion(VersionAt(s, id))
  }

  ghost predicate KeyFound(t: Tables, s: AuthorityState, o: Owner)
    requires Owns(s, o)
  {
    IdOf(o) in t.keys && t.keys[IdOf(o)] == KeyOf(s, o)
  }

  /** Equality of a table with its projection is the right count and a hit for every lookup. */
  lemma FoundAndCounted(t: Tables, s: AuthorityState)
    ensures t.definitions == DefinitionTable(s) <==>
            |t.definitions| == |s.issuers| && forall slug :: slug in s.issuers ==> DefinitionFound(t, s, slug)
    ensures t.versions == VersionTable(s) <==>
            |t.versions| == |VersionIds(s)| && forall id :: HasVersion(s, id) ==> VersionFound(t, s, id)
    ensures t.keys == KeyTable(s) <==>
            |t.keys| == |Owners(s)| && forall o :: Owns(s, o) ==> KeyFound(t, s, o)
  {
    DefinitionsCounted(t, s);
    VersionsCounted(t, s);
    KeysCounted(t, s);
  }

  lemma RootsCounted(t: Tables, s: AuthorityState)
    ensures t.roots == RootTable(s) <==>
            |t.roots| == |s.roots| && forall g :: g in s.roots ==> RootFound(t, s, g)
  {
    assert |RootTable(s).Keys| == |RootTable(s)| && RootTable(s).Keys == s.roots.Keys && |s.roots.Keys| == |s.roots|;
    if |t.roots| == |s.roots| && forall g :: g in s.roots ==> RootFound(t, s, g) {
      forall g | g in RootTable(s)
        ensures g in t.roots && t.roots[g] == RootTable(s)[g]
      {
        assert RootFound(t, s, g);
      }
      CountAndLookups(t.roots, RootTable(s));
    }
  }

  lemma DefinitionsCounted(t: Tables, s: AuthorityState)
    ensures t.definitions == DefinitionTable(s) <==>
            |t.definitions| == |s.issuers| && forall slug :: slug in s.issuers ==> DefinitionFound(t, s, slug)
  {
    SizesOfTables(s);
    DefinitionRows(s);
    if |t.definitions| == |s.issuers| && forall slug :: slug in s.issuers ==> DefinitionFound(t, s, slug) {
      CountAndLookups(t.definitions, DefinitionTable(s));
    }
  }

  lemma VersionsCounted(t: Tables, s: AuthorityState)
    ensures t.versions == VersionTable(s) <==>
            |t.versions| == |VersionIds(s)| && forall id :: HasVersion(s, id) ==> VersionFound(t, s, id)
  {
    SizesOfTables(s);
    VersionRows(s);
    hide VersionTable;
    if |t.versions| == |VersionIds(s)| && forall id :: HasVersion(s, id) ==> VersionFound(t, s, id) {
      CountAndLookups(t.versions, VersionTable(s));
    }
  }

  lemma KeysCounted(t: Tables, s: AuthorityState)
    ensures t.keys == KeyTable(s) <==>
            |t.keys| == |Owners(s)| && forall o :: Owns(s, o) ==> KeyFound(t, s, o)
  {
    hide KeyTable, Owns, KeyOf, IdOf;
    KeyTableRows(s);
    if |t.keys| == |Owners(s)| && forall o :: Owns(s, o) ==> KeyFound(t, s, o) {
      forall id | id in KeyTable(s)
        ensures id in t.keys && t.keys[id] == KeyTable(s)[id]
      {
        var o :| o in Owners(s) && IdOf(o) == id;
        assert KeyFound(t, s, o);
      }
      CountAndLookups(t.keys, KeyTable(s));
    }
  }

  // ----- what the errors say -----

  /** Some row that the document asks for is not there. */
  ghost predicate RowMissing(t: Tables, s: AuthorityState) {
    || t.authorities == map[] || SINGLETON !in t.topology
    || (exists g :: g in s.roots && g !in t.roots)
    || (exists slug :: slug in s.issuers && slug !in t.definitions)
    || (exists id :: HasVersion(s, id) && id !in t.versions)
    || (exists o :: Owns(s, o) && IdOf(o) !in t.keys)
  }

  /** Some row is there with another content, or a table has another size. */
  ghost predicate RowDiffers(t: Tables, s: AuthorityState, first: string) {
    || first != s.spec.id || (first in t.authorities && t.authorities[first] != RowOfSpec(s))
    || (SINGLETON in t.topology && t.topology[SINGLETON] != RowOfTopology(s))
    || |t.roots| != |s.roots| || |t.definitions| != |s.issuers| || |t.versions| != |VersionIds(s)| || |t.keys| != |Owners(s)|
    || (exists g :: g in s.roots && g in t.roots && t.roots[g] != RowOfRoot(s.roots[g]))
    || (exists slug :: slug in s.issuers && slug in t.definitions && t.definitions[slug] != RowOfDefinition(s.issuers[slug].definition))
    || (exists id :: HasVersion(s, id) && id in t.versions && t.versions[id] != RowOfVersion(VersionAt(s, id)))
    || (exists o :: Owns(s, o) && IdOf(o) in t.keys && t.keys[IdOf(o)] != KeyOf(s, o))
  }

  /** A missing row is corruption, a different one is drift. */
  ghost predicate Reported(r: Result<()>, t: Tables, s: AuthorityState, first: string) {
    r.Err? ==> (r.error == Corrupt && RowMissing(t, s)) || (r.error == Drift && RowDiffers(t, s, first))
  }

  lemma VersionReported(t: Tables, s: AuthorityState, id: VersionId)
    requires HasVersion(s, id) && !(id in t.versions && t.versions[id] == RowOfVersion(VersionAt(s, id)))
    ensures Reported(Err(if id in t.versions then Drift else Corrupt), t, s, s.spec.id)
  {
  }

  lemma DefinitionReported(t: Tables, s: AuthorityState, slug: Slug)
    requires slug in s.issuers && !(slug in t.definitions && t.definitions[slug] == RowOfDefinition(s.issuers[slug].definition))
    ensures Reported(Err(if slug in t.definitions then Drift else Corrupt), t, s, s.spec.id)
  {
  }

  lemma OkReported(t: Tables, s: AuthorityState)
    ensures Reported(Ok(()), t, s, s.spec.id)
  {
  }

  lemma KeyReported(t: Tables, s: AuthorityState, o: Owner)
    requires Owns(s, o) && !(IdOf(o) in t.keys && t.keys[IdOf(o)] == KeyOf(s, o))
    ensures Reported(Err(if IdOf(o) in t.keys then Drift else Corrupt), t, s, s.spec.id)
  {
    hide Owners;
  }

  // ----- partially filled tables -----

  ghost predicate VersionsFor(s: AuthorityState, done: set<VersionId>, versions: map<VersionId, VersionRow>) {
    && versions.Keys == done
    && forall id :: id in done ==> HasVersion(s, id) && versions[id] == RowOfVersion(VersionAt(s, id))
  }

  ghost predicate KeysFor(s: AuthorityState, done: set<Owner>, keys: map<KeyId, nat>) {
    && (forall id :: id in keys ==> exists o :: o in done && IdOf(o) == id)
    && forall o :: o in done ==> Owns(s, o) && IdOf(o) in keys && keys[IdOf(o)] == KeyOf(s, o)
  }

  lemma AllRoots(s: AuthorityState, roots: map<int, RootRow>)
    requires roots.Keys == s.roots.Keys
    requires forall g :: g in roots ==> roots[g] == RowOfRoot(s.roots[g])
    ensures roots == RootTable(s)
  {
    assert roots.Keys == RootTable(s).Keys;
    forall g | g in roots
      ensures roots[g] == RootTable(s)[g]
    {
      assert g in RootTable(s).Keys;
    }
  }

  lemma AddKey(s: AuthorityState, done: set<Owner>, keys: map<KeyId, nat>, o: Owner)
    requires KeysFor(s, done, keys) && Owns(s, o) && o !in done
    ensures IdOf(o) !in keys && KeysFor(s, done + {o}, keys[IdOf(o) := KeyOf(s, o)])
  {
    hide IdOf, Owns, KeyOf;
    forall p, q | IdOf(p) == IdOf(q)
      ensures p == q
    {
      IdsInjective(p, q);
    }
    var after := keys[IdOf(o) := KeyOf(s, o)];
    forall id | id in after
      ensures exists p :: p in done + {o} && IdOf(p) == id
    {
      assert id == IdOf(o) || id in keys;
      assert o in done + {o};
    }
  }

  lemma AllKeys(s: AuthorityState, keys: map<KeyId, nat>)
    requires KeysFor(s, Owners(s), keys)
    ensures keys == KeyTable(s)
  {
    hide IdOf, Owners, Owns, KeyOf;
    KeyTableRows(s);
    assert forall id :: id in keys <==> id in KeyTable(s);
    forall id | id in keys
      ensures keys[id] == KeyTable(s)[id]
    {
      var o :| o in Owners(s) && IdOf(o) == id;
    }
  }

  class Mirror {
    var authorities: map<string, SpecRow>
    var roots: map<int, RootRow>
    var definitions: map<Slug, DefinitionRow>
    var versions: map<VersionId, VersionRow>
    var topology: map<int, TopologyRow>
    var keys: map<KeyId, nat>

    constructor ()
      ensures Contents() == Tables(map[], map[], map[], map[], map[], map[])
    {
      authorities, roots, definitions, versions, topology, keys := map[], map[], map[], map[], map[], map[];
    }

    function Contents(): Tables
      reads this
    {
      Tables(authorities, roots, definitions, versions, topology, keys)
    }

    // ----- syncSQLiteTables -----

    /** INSERT INTO encrypted_keys: refused when the primary key exists. */
    method InsertKey(id: KeyId, der: nat) returns (ok: bool)
      modifies this`keys
      ensures ok <==> id !in old(keys)
      ensures keys == if ok then old(keys)[id := der] else old(keys)
    {
      ok := id !in keys;
      if ok {
        keys := keys[id := der];
      }
    }

    /** The key of a record that has none in the table yet. */
    method PutKey(s: AuthorityState, o: Owner, der: nat, ghost owners: set<Owner>)
      requires KeysFor(s, owners, keys) && Owns(s, o) && KeyOf(s, o) == der && o !in owners
      modifies this`keys
      ensures KeysFor(s, owners + {o}, keys)
    {
      AddKey(s, owners, keys, o);
      var ok := InsertKey(IdOf(o), der);
      assert ok;
    }

    method InsertRoot(generation: int, row: RootRow) returns (ok: bool)
      modifies this`roots
      ensures ok <==> generation !in old(roots)
      ensures roots == if ok then old(roots)[generation := row] else old(roots)
    {
      ok := generation !in roots;
      if ok {
        roots := roots[generation := row];
      }
    }

    method InsertDefinition(slug: Slug, row: DefinitionRow) returns (ok: bool)
      modifies this`definitions
      ensures ok <==> slug !in old(definitions)
      ensures definitions == if ok then old(definitions)[slug := row] else old(definitions)
    {
      ok := slug !in definitions;
      if ok {
        definitions := definitions[slug := row];
      }
    }

    method InsertVersion(id: VersionId, row: VersionRow) returns (ok: bool)
      modifies this`versions
      ensures ok <==> id !in old(versions)
      ensures versions == if ok then old(versions)[id := row] else old(versions)
    {
      ok := id !in versions;
      if ok {
        versions := versions[id := row];
      }
    }

    method SyncRoots(s: AuthorityState) returns (ok: bool, ghost owners: set<Owner>)
      requires roots == map[] && keys == map[]
      modifies this`roots, this`keys
      ensures ok && roots == RootTable(s)
      ensures KeysFor(s, owners, keys) && forall o :: o in owners <==> Owns(s, o) && o.RootOwner?
    {
      hide KeysFor, RowOfRoot, IdOf, RootTable, Owners;
      NoKeysYet(s);
      var todo := s.roots.Keys;
      owners := {};
      while todo != {}
        invariant todo <= s.roots.Keys
        invariant roots.Keys == s.roots.Keys - todo
        invariant forall g :: g in roots ==> roots[g] == RowOfRoot(s.roots[g])
        invariant KeysFor(s, owners, keys)
        invariant forall o :: o in owners <==> Owns(s, o) && o.RootOwner? && o.generation !in todo
        decreases |todo|
      {
        ghost var some := SomeMember(todo);
        var g :| g in todo;
        todo := todo - {g};
        ok := InsertRoot(g, RowOfRoot(s.roots[g]));
        // Every primary key is new, so no INSERT can fail.
        assert ok;
        if s.roots[g].key.Some? {
          PutKey(s, RootOwner(g), s.roots[g].key.value, owners);
          owners := owners + {RootOwner(g)};
        }
      }
      AllRoots(s, roots);
      ok := true;
    }

    /** The inner loop over the versions of one issuer. */
    method SyncVersions(s: AuthorityState, slug: Slug, ghost ids: set<VersionId>, ghost owners: set<Owner>)
      returns (ok: bool, ghost ids': set<VersionId>, ghost owners': set<Owner>)
      requires slug in s.issuers && VersionsFor(s, ids, versions) && KeysFor(s, owners, keys)
      requires forall id :: id in ids ==> id.slug != slug
      requires forall o :: o in owners && o.VersionOwner? ==> o.id in ids
      modifies this`versions, this`keys
      ensures ok && VersionsFor(s, ids', versions) && KeysFor(s, owners', keys)
      ensures forall id :: id in ids' <==> id in ids || (id.slug == slug && HasVersion(s, id))
      ensures forall o :: o in owners' <==> o in owners || (o.VersionOwner? && o.id.slug == slug && Owns(s, o))
    {
      hide KeysFor;
      var issuer := s.issuers[slug];
      var todo := issuer.versions.Keys;
      ids', owners' := ids, owners;
      while todo != {}
        invariant todo <= issuer.versions.Keys
        invariant VersionsFor(s, ids', versions) && KeysFor(s, owners', keys)
        invariant forall id :: id in ids' <==> id in ids || (id.slug == slug && id.version in issuer.versions.Keys - todo)
        invariant forall o :: o in owners' <==>
                    o in owners || (o.VersionOwner? && o.id.slug == slug && o.id.version in issuer.versions.Keys - todo && Owns(s, o))
        decreases |todo|
      {
        ghost var some := SomeMember(todo);
        var version :| version in todo;
        todo := todo - {version};
        var v := issuer.versions[version];
        var id := VersionId(slug, version);
        ok := InsertVersion(id, RowOfVersion(v));
        assert ok;
        ids' := ids' + {id};
        if v.key.Some? {
          PutKey(s, VersionOwner(id), v.key.value, owners');
          owners' := owners' + {VersionOwner(id)};
        }
      }
      ok := true;
    }

    method SyncIssuers(s: AuthorityState, ghost rootOwners: set<Owner>) returns (ok: bool)
      requires definitions == map[] && versions == map[]
      requires KeysFor(s, rootOwners, keys) && forall o :: o in rootOwners <==> Owns(s, o) && o.RootOwner?
      modifies this`definitions, this`versions, this`keys
      ensures ok && definitions == DefinitionTable(s) && versions == VersionTable(s) && keys == KeyTable(s)
    {
      hide KeysFor, VersionsFor;
      var todo := s.issuers.Keys;
      ghost var ids: set<VersionId> := {};
      ghost var owners := rootOwners;
      assert VersionsFor(s, ids, versions) by {
        NoVersionsYet(s);
      }
      while todo != {}
        invariant todo <= s.issuers.Keys
        invariant definitions == map slug | slug in s.issuers.Keys - todo :: RowOfDefinition(s.issuers[slug].definition)
        invariant VersionsFor(s, ids, versions) && KeysFor(s, owners, keys)
        invariant forall id :: id in ids <==> id.slug !in todo && HasVersion(s, id)
        invariant forall o :: o in owners <==> Owns(s, o) && (o.VersionOwner? ==> o.id.slug !in todo)
        decreases |todo|
      {
        ghost var some := SomeMember(todo);
        var slug :| slug in todo;
        todo := todo - {slug};
        ok := InsertDefinition(slug, RowOfDefinition(s.issuers[slug].definition));
        assert ok;
        ok, ids, owners := SyncVersions(s, slug, ids, owners);
      }
      assert owners == Owners(s);
      AllKeys(s, keys);
      AllVersions(s, ids, versions);
      ok := true;
    }

    /** syncSQLiteTables: whatever the tables held, they end up holding exactly the projection of the
        document, and no INSERT runs into an existing primary key. */
    method Sync(s: AuthorityState) returns (ok: bool)
      modifies this
      ensures ok && Contents() == Projection(s)
    {
      authorities, roots, definitions, versions, topology, keys := map[], map[], map[], map[], map[], map[];
      authorities := authorities[s.spec.id := RowOfSpec(s)];
      ghost var owners;
      ok, owners := SyncRoots(s);
      ok := SyncIssuers(s, owners);
      topology := topology[SINGLETON := RowOfTopology(s)];
    }

    // ----- validateSQLiteParity -----

    /** validateSQLiteKey. */
    method CheckKey(id: KeyId, expected: nat) returns (r: Result<()>)
      ensures r.Ok? <==> id in keys && keys[id] == expected
      ensures r.Err? ==> r.error == if id in keys then Drift else Corrupt
    {
      if id !in keys {
        return Err(Corrupt);
      }
      if keys[id] != expected {
        return Err(Drift);
      }
      return Ok(());
    }

    method CheckRoots(s: AuthorityState) returns (r: Result<()>)
      ensures r.Ok? <==> roots == RootTable(s)
      ensures Reported(r, Contents(), s, s.spec.id)
    {
      hide RootTable, VersionIds, Owners;
      RootsCounted(Contents(), s);
      if |roots| != |s.roots| {
        return Err(Drift);
      }
      var todo := s.roots.Keys;
      while todo != {}
        invariant todo <= s.roots.Keys
        invariant forall g :: g in s.roots && g !in todo ==> RootFound(Contents(), s, g)
        decreases |todo|
      {
        ghost var some := SomeMember(todo);
        var g :| g in todo;
        todo := todo - {g};
        if g !in roots {
          assert !RootFound(Contents(), s, g);
          return Err(Corrupt);
        }
        if roots[g] != RowOfRoot(s.roots[g]) {
          assert !RootFound(Contents(), s, g);
          return Err(Drift);
        }
      }
      return Ok(());
    }

    /** The versions of one issuer and their keys; both counts go on from where they were. */
    method CheckVersions(s: AuthorityState, slug: Slug, versionCount: nat, keyCount: nat, ghost ids: set<VersionId>,
            ghost owners: set<Owner>)
      returns (r: Result<()>, versionCount': nat, keyCount': nat, ghost ids': set<VersionId>, ghost owners': set<Owner>)
      requires slug in s.issuers && versionCount == |ids| && keyCount == |owners|
      requires forall id :: id in ids ==> id.slug != slug
      requires forall o :: o in owners ==> o.VersionOwner? && o.id in ids
      ensures r.Ok? ==> versionCount' == |ids'| && keyCount' == |owners'|
      ensures r.Ok? ==> forall id :: id in ids' <==> id in ids || (id.slug == slug && HasVersion(s, id))
      ensures r.Ok? ==> forall o :: o in owners' <==> o in owners || (o.VersionOwner? && o.id.slug == slug && Owns(s, o))
      ensures r.Ok? <==> forall id: VersionId :: id.slug == slug && HasVersion(s, id) ==> VersionFound(Contents(), s, id) && (Owns(s, VersionOwner(id)) ==> KeyFound(Contents(), s, VersionOwner(id)))
      ensures Reported(r, Contents(), s, s.spec.id)
    {
      hide Reported;
      var issuer := s.issuers[slug];
      var todo := issuer.versions.Keys;
      versionCount', keyCount', ids', owners' := versionCount, keyCount, ids, owners;
      while todo != {}
        invariant todo <= issuer.versions.Keys
        invariant versionCount' == |ids'| && keyCount' == |owners'|
        invariant forall id :: id in ids' <==> id in ids || (id.slug == slug && id.version in issuer.versions.Keys - todo)
        invariant forall o :: o in owners' <==>
                    o in owners || (o.VersionOwner? && o.id.slug == slug && o.id.version in issuer.versions.Keys - todo && Owns(s, o))
        invariant forall id: VersionId :: id.slug == slug && id.version in issuer.versions.Keys - todo ==>
                    VersionFound(Contents(), s, id) && (Owns(s, VersionOwner(id)) ==> KeyFound(Contents(), s, VersionOwner(id)))
        decreases |todo|
      {
        ghost var some := SomeMember(todo);
        var version :| version in todo;
        todo := todo - {version};
        var v := issuer.versions[version];
        var id := VersionId(slug, version);
        assert HasVersion(s, id);
        versionCount' := versionCount' + 1;
        ids' := ids' + {id};
        if !(id in versions && versions[id] == RowOfVersion(v)) {
          VersionReported(Contents(), s, id);
        }
        if id !in versions {
          return Err(Corrupt), versionCount', keyCount', ids', owners';
        }
        if versions[id] != RowOfVersion(v) {
          return Err(Drift), versionCount', keyCount', ids', owners';
        }
        if v.key.Some? {
          keyCount' := keyCount' + 1;
          owners' := owners' + {VersionOwner(id)};
          r := CheckKey(KeyId("issuer", slug + ":" + Text.Itoa(version)), v.key.value);
          if r.Err? {
            KeyReported(Contents(), s, VersionOwner(id));
            return;
          }
        }
      }
      r := Ok(());
      assert Reported(r, Contents(), s, s.spec.id) by {
        OkReported(Contents(), s);
      }
    }

    /** The loop over the issuers. */
    method CheckIssuers(s: AuthorityState) returns (r: Result<()>, versionCount: nat, keyCount: nat)
      ensures r.Ok? <==>
              && (forall slug :: slug in s.issuers ==> DefinitionFound(Contents(), s, slug))
              && (forall id :: HasVersion(s, id) ==> VersionFound(Contents(), s, id))
              && (forall o: Owner :: o.VersionOwner? && Owns(s, o) ==> KeyFound(Contents(), s, o))
      ensures r.Ok? ==> versionCount == |VersionIds(s)| && keyCount == |set o | o in Owners(s) && o.VersionOwner?|
      ensures Reported(r, Contents(), s, s.spec.id)
    {
      hide VersionFound, KeyFound, Reported;
      var todo := s.issuers.Keys;
      versionCount, keyCount := 0, 0;
      ghost var ids: set<VersionId>, owners: set<Owner> := {}, {};
      while todo != {}
        invariant todo <= s.issuers.Keys
        invariant versionCount == |ids| && keyCount == |owners|
        invariant forall id :: id in ids <==> id.slug !in todo && HasVersion(s, id)
        invariant forall o :: o in owners <==> o.VersionOwner? && o.id in ids && Owns(s, o)
        invariant forall slug :: slug in s.issuers.Keys - todo ==> DefinitionFound(Contents(), s, slug)
        invariant forall id :: id in ids ==> VersionFound(Contents(), s, id) && (Owns(s, VersionOwner(id)) ==> KeyFound(Contents(), s, VersionOwner(id)))
        decreases |todo|
      {
        ghost var some := SomeMember(todo);
        var slug :| slug in todo;
        todo := todo - {slug};
        if !(slug in definitions && definitions[slug] == RowOfDefinition(s.issuers[slug].definition)) {
          DefinitionReported(Contents(), s, slug);
        }
        if slug !in definitions {
          return Err(Corrupt), versionCount, keyCount;
        }
        if definitions[slug] != RowOfDefinition(s.issuers[slug].definition) {
          return Err(Drift), versionCount, keyCount;
        }
        r, versionCount, keyCount, ids, owners := CheckVersions(s, slug, versionCount, keyCount, ids, owners);
        if r.Err? {
          return;
        }
      }
      assert ids == VersionIds(s);
      assert owners == set o | o in Owners(s) && o.VersionOwner?;
      r := Ok(());
      OkReported(Contents(), s);
    }

    /** The loop over the root keys; the count goes on from the issuer keys. */
    method CheckRootKeys(s: AuthorityState, keyCount: nat) returns (r: Result<()>, keyCount': nat)
      requires keyCount == |set o | o in Owners(s) && o.VersionOwner?|
      ensures r.Ok? <==> forall o: Owner :: o.RootOwner? && Owns(s, o) ==> KeyFound(Contents(), s, o)
      ensures r.Ok? ==> keyCount' == |Owners(s)|
      ensures Reported(r, Contents(), s, s.spec.id)
    {
      hide Reported;
      var todo := s.roots.Keys;
      keyCount' := keyCount;
      ghost var owners := set o | o in Owners(s) && o.VersionOwner?;
      while todo != {}
        invariant todo <= s.roots.Keys
        invariant keyCount' == |owners|
        invariant forall o :: o in owners <==> Owns(s, o) && (o.RootOwner? ==> o.generation !in todo)
        invariant forall o :: o in owners && o.RootOwner? ==> KeyFound(Contents(), s, o)
        decreases |todo|
      {
        ghost var some := SomeMember(todo);
        var g :| g in todo;
        todo := todo - {g};
        if s.roots[g].key.Some? {
          keyCount' := keyCount' + 1;
          owners := owners + {RootOwner(g)};
          assert Owns(s, RootOwner(g));
          r := CheckKey(KeyId("root", Text.Itoa(g)), s.roots[g].key.value);
          if r.Err? {
            KeyReported(Contents(), s, RootOwner(g));
            return;
          }
        }
      }
      assert owners == Owners(s);
      r := Ok(());
      OkReported(Contents(), s);
    }

    /** validateSQLiteParity. The query for the authority record names no row: first is the one that
        comes back, if there is any. The check passes exactly when that row is the document's and
        every other table equals its projection. */
    method Parity(s: AuthorityState, first: string) returns (r: Result<()>)
      requires authorities != map[] ==> first in authorities
      ensures r.Ok? <==> Agrees(Contents(), s, first)
      ensures Reported(r, Contents(), s, first)
    {
      hide VersionTable, KeyTable, RootTable, DefinitionTable, Owns, Owners, VersionIds, DefinitionFound, VersionFound, KeyFound;
      if authorities == map[] {
        return Err(Corrupt);
      }
      if first != s.spec.id || authorities[first] != RowOfSpec(s) {
        return Err(Drift);
      }
      if SINGLETON !in topology {
        return Err(Corrupt);
      }
      if topology[SINGLETON] != RowOfTopology(s) {
        return Err(Drift);
      }
      r := CheckRoots(s);
      if r.Err? {
        return;
      }
      FoundAndCounted(Contents(), s);
      if |definitions| != |s.issuers| {
        return Err(Drift);
      }
      var versionCount, keyCount;
      r, versionCount, keyCount := CheckIssuers(s);
      if r.Err? {
        return;
      }
      r, keyCount := CheckRootKeys(s, keyCount);
      if r.Err? {
        return;
      }
      if |versions| != versionCount || |keys| != keyCount {
        return Err(Drift);
      }
      return Ok(());
    }
  }

  lemma NoKeysYet(s: AuthorityState)
    ensures KeysFor(s, {}, map[])
  {
  }

  lemma NoVersionsYet(s: AuthorityState)
    ensures VersionsFor(s, {}, map[])
  {
  }

  lemma AllVersions(s: AuthorityState, ids: set<VersionId>, versions: map<VersionId, VersionRow>)
    requires VersionsFor(s, ids, versions) && forall id :: id in ids <==> HasVersion(s, id)
    ensures versions == VersionTable(s)
  {
    assert ids == VersionIds(s);
  }

  // ----- how exact the check is -----

  /** What the schema of the tables guarantees. */
  predicate Schema(t: Tables) {
    t.topology.Keys <= {SINGLETON}
  }

  /** Tables that were just filled from a document pass against it, whatever row comes back. */
  lemma SyncedTablesAgree(s: AuthorityState, first: string)
    requires first in Projection(s).authorities
    ensures Schema(Projection(s)) && Agrees(Projection(s), s, first)
  {
  }

  /** The check is exact except for one table: passing means that the tables are the projection once
      the rows of authority_records other than the one read are left aside. */
  lemma ParityIsExact(t: Tables, s: AuthorityState, first: string)
    requires Schema(t) && first in t.authorities
    ensures Agrees(t, s, first) <==>
            first == s.spec.id && t.(authorities := map[first := t.authorities[first]]) == Projection(s)
    ensures Agrees(t, s, first) ==> (t == Projection(s) <==> |t.authorities| == 1)
  {
    hide RootTable, DefinitionTable, VersionTable, KeyTable;
    assert SINGLETON in t.topology ==> t.topology == map[SINGLETON := t.topology[SINGLETON]];
    assert Agrees(t, s, first) ==> t.topology == Projection(s).topology;
    OneRow(t.authorities, first);
    assert |map[first := t.authorities[first]]| == 1;
  }

  lemma OneRow<K, V>(table: map<K, V>, k: K)
    requires k in table
    ensures |table| == 1 <==> table == map[k := table[k]]
  {
    var one := map[k := table[k]];
    assert |one.Keys| == |one| == 1 by {
      assert one.Keys == {k};
    }
    if |table| == 1 {
      CountAndLookups(table, one);
    }
  }

  /** authority_records is read but not counted: a second row there goes unnoticed. */
  lemma ExtraAuthorityUnnoticed(s: AuthorityState, id: string, row: SpecRow)
    requires id != s.spec.id
    ensures var t := Projection(s).(authorities := Projection(s).authorities[id := row]);
            t != Projection(s) && Agrees(t, s, s.spec.id)
  {
    hide RootTable, DefinitionTable, VersionTable, KeyTable;
    assert id in Projection(s).authorities[id := row] && id !in Projection(s).authorities;
  }

  /** The two roots are the same in everything but the number that their place already gives. */
  predicate SameRoot(x: RootRecord, y: RootRecord) {
    x.certificate == y.certificate && x.fingerprint == y.fingerprint && x.retiredTrustUntil == y.retiredTrustUntil && x.key == y.key
  }

  predicate SameStoredVersion(x: IssuerVersion, y: IssuerVersion) {
    x.rootGeneration == y.rootGeneration && x.certificate == y.certificate && x.fingerprint == y.fingerprint && x.key == y.key
  }

  ghost predicate SameIssuer(x: IssuerRecord, y: IssuerRecord) {
    && x.definition == y.definition
    && x.versions.Keys == y.versions.Keys
    && forall v :: v in x.versions ==> SameStoredVersion(x.versions[v], y.versions[v])
  }

  lemma SameKey(a: AuthorityState, b: AuthorityState, o: Owner)
    requires KeyTable(a) == KeyTable(b)
    ensures Owns(a, o) <==> Owns(b, o)
    ensures Owns(a, o) ==> KeyOf(a, o) == KeyOf(b, o)
  {
    KeyTableRows(a);
    KeyTableRows(b);
    hide KeyTable, KeyOf, IdOf;
    if Owns(a, o) {
      assert IdOf(o) in KeyTable(b);
      var q :| q in Owners(b) && IdOf(q) == IdOf(o);
      IdsInjective(q, o);
    }
    if Owns(b, o) {
      assert IdOf(o) in KeyTable(a);
      var q :| q in Owners(a) && IdOf(q) == IdOf(o);
      IdsInjective(q, o);
    }
  }

  lemma SameRootRows(a: AuthorityState, b: AuthorityState, g: int)
    requires RootTable(a) == RootTable(b) && KeyTable(a) == KeyTable(b) && g in a.roots
    ensures g in b.roots && SameRoot(a.roots[g], b.roots[g])
  {
    SameKey(a, b, RootOwner(g));
    hide KeyTable;
    assert g in RootTable(a) && g in RootTable(b);
    assert RowOfRoot(a.roots[g]) == RootTable(a)[g] == RowOfRoot(b.roots[g]);
  }

  lemma SameVersionRows(a: AuthorityState, b: AuthorityState, id: VersionId)
    requires VersionTable(a) == VersionTable(b) && KeyTable(a) == KeyTable(b) && HasVersion(a, id)
    ensures HasVersion(b, id) && SameStoredVersion(VersionAt(a, id), VersionAt(b, id))
  {
    SameKey(a, b, VersionOwner(id));
    VersionRows(a);
    VersionRows(b);
    hide KeyTable, VersionTable;
    assert RowOfVersion(VersionAt(a, id)) == VersionTable(a)[id] == RowOfVersion(VersionAt(b, id));
  }

  lemma SameIssuerRows(a: AuthorityState, b: AuthorityState, slug: Slug)
    requires DefinitionTable(a) == DefinitionTable(b) && VersionTable(a) == VersionTable(b) && KeyTable(a) == KeyTable(b)
    requires slug in a.issuers
    ensures slug in b.issuers && SameIssuer(a.issuers[slug], b.issuers[slug])
  {
    assert slug in DefinitionTable(a) && slug in DefinitionTable(b);
    assert RowOfDefinition(a.issuers[slug].definition) == DefinitionTable(a)[slug] == RowOfDefinition(b.issuers[slug].definition);
    hide KeyTable, VersionTable, DefinitionTable;
    forall v
      ensures v in a.issuers[slug].versions <==> v in b.issuers[slug].versions
      ensures v in a.issuers[slug].versions ==> SameStoredVersion(a.issuers[slug].versions[v], b.issuers[slug].versions[v])
    {
      var id := VersionId(slug, v);
      if HasVersion(a, id) {
        SameVersionRows(a, b, id);
      }
      if HasVersion(b, id) {
        SameVersionRows(b, a, id);
      }
    }
  }

  /** Two documents that pass against the same tables are the same record by record: nothing that is
      mirrored can differ unnoticed. */
  lemma MirrorDetermines(t: Tables, a: AuthorityState, b: AuthorityState, first: string)
    requires Agrees(t, a, first) && Agrees(t, b, first)
    ensures a.spec == b.spec && a.revision == b.revision && a.activeRoot == b.activeRoot && a.pending == b.pending
    ensures a.roots.Keys == b.roots.Keys && a.issuers.Keys == b.issuers.Keys
    ensures forall g :: g in a.roots ==> SameRoot(a.roots[g], b.roots[g])
    ensures forall slug :: slug in a.issuers ==> SameIssuer(a.issuers[slug], b.issuers[slug])
  {
    hide VersionTable, KeyTable;
    assert t.roots.Keys == a.roots.Keys && t.roots.Keys == b.roots.Keys;
    assert t.definitions.Keys == a.issuers.Keys && t.definitions.Keys == b.issuers.Keys;
    forall g | g in a.roots
      ensures SameRoot(a.roots[g], b.roots[g])
    {
      SameRootRows(a, b, g);
    }
    forall slug | slug in a.issuers
      ensures SameIssuer(a.issuers[slug], b.issuers[slug])
    {
      SameIssuerRows(a, b, slug);
    }
  }

  /** The active version of an issuer has no column of its own, but of a valid document the stored keys
      and the manifest give it away. */
  lemma SameActive(a: AuthorityState, b: AuthorityState, slug: Slug)
    requires ValidState(a) && ValidState(b) && a.pending == b.pending && slug in a.issuers && slug in b.issuers
    requires SameIssuer(a.issuers[slug], b.issuers[slug])
    ensures a.issuers[slug] == b.issuers[slug]
  {
    var x, y := a.issuers[slug], b.issuers[slug];
    assert ValidIssuer(a, slug) && ValidIssuer(b, slug);
    assert ValidVersion(a, slug, x.activeVersion) && ValidVersion(a, slug, y.activeVersion);
    assert ValidVersion(b, slug, x.activeVersion) && ValidVersion(b, slug, y.activeVersion);
    forall v | v in x.versions
      ensures x.versions[v] == y.versions[v]
    {
      assert ValidVersion(a, slug, v) && ValidVersion(b, slug, v);
      assert SameStoredVersion(x.versions[v], y.versions[v]);
    }
    assert x.versions == y.versions;
  }

  /** For valid documents the check is exact: tables filled from one of them pass against another only
      if the two are equal. */
  lemma MirrorIdentifies(s: AuthorityState, b: AuthorityState, first: string)
    requires ValidState(s) && ValidState(b)
    ensures Agrees(Projection(s), b, first) <==> b == s && first == s.spec.id
  {
    hide ValidState, VersionTable, KeyTable, RootTable, DefinitionTable;
    if Agrees(Projection(s), b, first) {
      assert first == s.spec.id;
      assert Agrees(Projection(s), s, first);
      MirrorDetermines(Projection(s), s, b, first);
      forall slug | slug in s.issuers
        ensures s.issuers[slug] == b.issuers[slug]
      {
        SameActive(s, b, slug);
      }
      assert s.issuers == b.issuers;
      forall g | g in s.roots
        ensures s.roots[g] == b.roots[g]
      {
        NumberedRoot(s, g);
        NumberedRoot(b, g);
      }
      assert s.roots == b.roots;
    }
  }

  lemma NumberedRoot(s: AuthorityState, g: int)
    requires ValidState(s) && g in s.roots
    ensures s.roots[g].generation == g
  {
    assert ValidRoot(s, g);
  }
}
