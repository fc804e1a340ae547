/** The configuration snapshot: layered resolution and the transactional Load and Set
    (config/config.go, config/validate.go). Coercion and validation are arbitrary functions. */
module ConfigSnapshot {
  import opened Wrappers

  type Raw = nat
  type Cooked = nat
  type Key = string

  datatype Source = SourceNone | SourceDefault | SourceInitial | SourceFile | SourceEnv | SourceFlag | SourceSet

  const PRECEDENCE: seq<Source> := [SourceSet, SourceFlag, SourceEnv, SourceFile, SourceInitial, SourceDefault]

  datatype Field = Field(key: Key, env: string, flag: string, required: bool, def: Option<Raw>)

  datatype Origin = Origin(source: Source, detail: string)

  datatype Layers = Layers(
    defaults: map<Key, Raw>,
    initial: map<Key, Raw>,
    file: map<Key, Raw>,
    env: map<Key, Raw>,
    flags: map<Key, Raw>,
    set_: map<Key, Raw>)
  {
    function Of(s: Source): map<Key, Raw> {
      match s
      case SourceNone => map[]
      case SourceDefault => defaults
      case SourceInitial => initial
      case SourceFile => file
      case SourceEnv => env
      case SourceFlag => flags
      case SourceSet => set_
    }
  }

  /** What reflection provides for one configuration type: its fields, and the functions that turn
      raw values into typed ones and accept them, each arbitrary. */
  datatype Schema = Schema(
    fields: seq<Field>,
    coerce: (Key, Raw) -> Option<Cooked>,
    fieldAccepted: (Key, Origin, Cooked) -> bool,
    allAccepted: map<Key, Cooked> -> bool)

  predicate DistinctFields(fields: seq<Field>) {
    forall i, j :: 0 <= i < j < |fields| ==> fields[i].key != fields[j].key
  }

  predicate ValidSchema(schema: Schema) {
    DistinctFields(schema.fields)
  }

  function Keys(fields: seq<Field>): set<Key> {
    set f | f in fields :: f.key
  }

  /** A field that no layer provides keeps its zero value and has no entry in values. */
  datatype State = State(
    values: map<Key, Cooked>,
    origins: map<Key, Origin>,
    present: map<Source, set<Key>>,
    layers: Layers,
    path: string,
    fileLoaded: bool)

  /** The errx kinds of the errors. */
  datatype Failure = InvalidKind | ValidationKind | ConflictKind | InternalKind

  datatype Outcome<T> = Done(value: T) | Failed(failure: Failure)

  // ----- precedence -----

  function WinnerFrom(layers: Layers, key: Key, i: nat): Source
    requires i <= |PRECEDENCE|
    decreases |PRECEDENCE| - i
  {
    if i == |PRECEDENCE| then SourceNone
    else if key in layers.Of(PRECEDENCE[i]) then PRECEDENCE[i]
    else WinnerFrom(layers, key, i + 1)
  }

  /** The layer that decides a key. */
  function Winner(layers: Layers, key: Key): Source {
    WinnerFrom(layers, key, 0)
  }

  function Rank(s: Source): nat {
    match s
    case SourceSet => 0
    case SourceFlag => 1
    case SourceEnv => 2
    case SourceFile => 3
    case SourceInitial => 4
    case SourceDefault => 5
    case SourceNone => 6
  }

  lemma {:induction false} FirstFromHere(layers: Layers, key: Key, i: nat)
    requires i <= |PRECEDENCE|
    ensures var w := WinnerFrom(layers, key, i);
            && (w != SourceNone ==> i <= Rank(w) && key in layers.Of(w))
            && forall j :: i <= j < |PRECEDENCE| && j < Rank(w) ==> key !in layers.Of(PRECEDENCE[j])
    decreases |PRECEDENCE| - i
  {
    if i < |PRECEDENCE| {
      assert Rank(PRECEDENCE[i]) == i;
      FirstFromHere(layers, key, i + 1);
    }
  }

  /** The winner is the layer of highest precedence among those that have the key. */
  lemma WinnerIsHighest(layers: Layers, key: Key)
    ensures var w := Winner(layers, key);
            && (w != SourceNone ==> key in layers.Of(w))
            && (forall s :: key in layers.Of(s) ==> Rank(w) <= Rank(s))
            && (w == SourceNone <==> forall s :: key !in layers.Of(s))
  {
    FirstFromHere(layers, key, 0);
    var w := Winner(layers, key);
    hide Winner;
    forall s | key in layers.Of(s)
      ensures Rank(w) <= Rank(s) && s != SourceNone
    {
      assert PRECEDENCE[Rank(s)] == s;
    }
    assert w == SourceNone <==> Rank(w) == 6;
  }

  function DetailOf(f: Field, w: Source, path: string): string {
    match w
    case SourceFile => path
    case SourceEnv => f.env
    case SourceFlag => f.flag
    case _ => ""
  }

  // ----- resolve -----

  function RawOf(layers: Layers, key: Key): Raw
    requires Winner(layers, key) != SourceNone
  {
    WinnerIsHighest(layers, key);
    layers.Of(Winner(layers, key))[key]
  }

  /** Why the first loop of resolve refuses a field. */
  function FieldFailure(schema: Schema, layers: Layers, f: Field): Option<Failure> {
    if Winner(layers, f.key) == SourceNone then
      if f.required then Some(ValidationKind) else None
    else if schema.coerce(f.key, RawOf(layers, f.key)).None? then Some(InvalidKind)
    else None
  }

  function CoerceFailure(schema: Schema, layers: Layers, k: nat): Option<Failure>
    requires k <= |schema.fields|
  {
    if k == 0 then None
    else if CoerceFailure(schema, layers, k - 1).Some? then CoerceFailure(schema, layers, k - 1)
    else FieldFailure(schema, layers, schema.fields[k - 1])
  }

  predicate Resolvable(schema: Schema, layers: Layers, key: Key) {
    Winner(layers, key) != SourceNone && schema.coerce(key, RawOf(layers, key)).Some?
  }

  /** The values and origins once these fields have been resolved. */
  function ValuesOf(schema: Schema, layers: Layers, fields: seq<Field>): map<Key, Cooked> {
    map key | key in Keys(fields) && Resolvable(schema, layers, key) :: schema.coerce(key, RawOf(layers, key)).value
  }

  function OriginsOf(schema: Schema, layers: Layers, path: string, fields: seq<Field>): map<Key, Origin>
    requires DistinctFields(fields)
  {
    map f | f in fields && Resolvable(schema, layers, f.key) ::
      f.key := OriginOf(layers, path, f)
  }

  function OriginOf(layers: Layers, path: string, f: Field): Origin {
    Origin(Winner(layers, f.key), DetailOf(f, Winner(layers, f.key), path))
  }

  /** The validators run after all fields are resolved, and only on fields that have a value. */
  predicate Accepted(schema: Schema, values: map<Key, Cooked>, origins: map<Key, Origin>, fields: seq<Field>)
    requires values.Keys == origins.Keys
  {
    forall i :: 0 <= i < |fields| && fields[i].key in values ==>
      schema.fieldAccepted(fields[i].key, origins[fields[i].key], values[fields[i].key])
  }

  function PresentIn(layers: Layers): map<Source, set<Key>> {
    map s | s in {SourceDefault, SourceInitial, SourceFile, SourceEnv, SourceFlag, SourceSet} :: layers.Of(s).Keys
  }

  lemma SameKeys(schema: Schema, layers: Layers, path: string, fields: seq<Field>)
    requires DistinctFields(fields)
    ensures ValuesOf(schema, layers, fields).Keys == OriginsOf(schema, layers, path, fields).Keys
  {
    var v, o := ValuesOf(schema, layers, fields), OriginsOf(schema, layers, path, fields);
    forall k
      ensures k in v <==> k in o
    {
      if k in v {
        var f :| f in fields && f.key == k;
        assert f.key in o;
      }
    }
  }

  /** The snapshot that resolve publishes, or why it refuses. */
  function Resolved(schema: Schema, layers: Layers, path: string, fileLoaded: bool): Outcome<State>
    requires ValidSchema(schema)
  {
    var fields := schema.fields;
    var values, origins := ValuesOf(schema, layers, fields), OriginsOf(schema, layers, path, fields);
    SameKeys(schema, layers, path, fields);
    if CoerceFailure(schema, layers, |fields|).Some? then Failed(CoerceFailure(schema, layers, |fields|).value)
    else if !Accepted(schema, values, origins, fields) || !schema.allAccepted(values) then Failed(ValidationKind)
    else Done(State(values, origins, PresentIn(layers), layers, path, fileLoaded))
  }

  method FindSource(layers: Layers, key: Key) returns (source: Source)
    ensures source == Winner(layers, key)
  {
    var i := 0;
    while i < |PRECEDENCE|
      invariant 0 <= i <= |PRECEDENCE|
      invariant WinnerFrom(layers, key, i) == Winner(layers, key)
    {
      if key in layers.Of(PRECEDENCE[i]) {
        return PRECEDENCE[i];
      }
      i := i + 1;
    }
    return SourceNone;
  }

  method ResolveFields(schema: Schema, layers: Layers, path: string)
    returns (failure: Option<Failure>, values: map<Key, Cooked>, origins: map<Key, Origin>)
    requires ValidSchema(schema)
    ensures failure == CoerceFailure(schema, layers, |schema.fields|)
    ensures failure.None? ==> values == ValuesOf(schema, layers, schema.fields) && origins == OriginsOf(schema, layers, path, schema.fields)
  {
    values, origins := map[], map[];
    var k := 0;
    while k < |schema.fields|
      invariant 0 <= k <= |schema.fields|
      invariant CoerceFailure(schema, layers, k) == None
      invariant values == ValuesOf(schema, layers, schema.fields[..k]) && origins == OriginsOf(schema, layers, path, schema.fields[..k])
    {
      var f := schema.fields[k];
      var source := FindSource(layers, f.key);
      OneMoreField(schema, layers, path, k);
      if source == SourceNone {
        if f.required {
          FailureStays(schema, layers, k + 1, |schema.fields|);
          return Some(ValidationKind), values, origins;
        }
      } else {
        WinnerIsHighest(layers, f.key);
        var value := schema.coerce(f.key, layers.Of(source)[f.key]);
        if value.None? {
          FailureStays(schema, layers, k + 1, |schema.fields|);
          return Some(InvalidKind), values, origins;
        }
        values := values[f.key := value.value];
        origins := origins[f.key := Origin(source, DetailOf(f, source, path))];
      }
      k := k + 1;
    }
    assert schema.fields[..k] == schema.fields;
    return None, values, origins;
  }

  lemma {:induction false} FailureStays(schema: Schema, layers: Layers, k: nat, n: nat)
    requires k <= n <= |schema.fields| && CoerceFailure(schema, layers, k).Some?
    ensures CoerceFailure(schema, layers, n) == CoerceFailure(schema, layers, k)
    decreases n
  {
    if k < n {
      FailureStays(schema, layers, k, n - 1);
    }
  }

  lemma OneMoreField(schema: Schema, layers: Layers, path: string, k: nat)
    requires ValidSchema(schema) && k < |schema.fields|
    ensures var f, before, after := schema.fields[k], schema.fields[..k], schema.fields[..k + 1];
            if Resolvable(schema, layers, f.key) then
              && ValuesOf(schema, layers, after) == ValuesOf(schema, layers, before)[f.key := schema.coerce(f.key, RawOf(layers, f.key)).value]
              && OriginsOf(schema, layers, path, after) ==
                 OriginsOf(schema, layers, path, before)[f.key := OriginOf(layers, path, f)]
            else
              && ValuesOf(schema, layers, after) == ValuesOf(schema, layers, before)
              && OriginsOf(schema, layers, path, after) == OriginsOf(schema, layers, path, before)
  {
    hide Winner, RawOf, DetailOf;
    var f, before, after := schema.fields[k], schema.fields[..k], schema.fields[..k + 1];
    assert after == before + [f];
    assert forall g :: g in after <==> g in before || g == f;
    assert Keys(after) == Keys(before) + {f.key};
    ValuesGrow(schema, layers, before, after, f);
    OriginsGrow(schema, layers, path, before, after, f);
  }

  lemma ValuesGrow(schema: Schema, layers: Layers, before: seq<Field>, after: seq<Field>, f: Field)
    requires Keys(after) == Keys(before) + {f.key}
    ensures ValuesOf(schema, layers, after) ==
            if Resolvable(schema, layers, f.key) then ValuesOf(schema, layers, before)[f.key := schema.coerce(f.key, RawOf(layers, f.key)).value]
            else ValuesOf(schema, layers, before)
  {
    hide Winner, RawOf, Keys;
  }

  lemma OriginsGrow(schema: Schema, layers: Layers, path: string, before: seq<Field>, after: seq<Field>, f: Field)
    requires DistinctFields(before) && DistinctFields(after) && forall g :: g in after <==> g in before || g == f
    ensures OriginsOf(schema, layers, path, after) ==
            if Resolvable(schema, layers, f.key)
            then OriginsOf(schema, layers, path, before)[f.key := OriginOf(layers, path, f)]
            else OriginsOf(schema, layers, path, before)
  {
    hide Resolvable, OriginOf;
    var a, b := OriginsOf(schema, layers, path, after), OriginsOf(schema, layers, path, before);
    forall g, h | g in after && h in after && g.key == h.key
      ensures g == h
    {
    }
    assert forall k :: k in b ==> k in a && a[k] == b[k];
  }

  method Resolve(schema: Schema, layers: Layers, path: string, fileLoaded: bool) returns (r: Outcome<State>)
    requires ValidSchema(schema)
    ensures r == Resolved(schema, layers, path, fileLoaded)
  {
    hide ValuesOf, OriginsOf, CoerceFailure;
    var failure, values, origins := ResolveFields(schema, layers, path);
    if failure.Some? {
      return Failed(failure.value);
    }
    SameKeys(schema, layers, path, schema.fields);
    var k := 0;
    while k < |schema.fields|
      invariant 0 <= k <= |schema.fields|
      invariant Accepted(schema, values, origins, schema.fields[..k])
    {
      var f := schema.fields[k];
      if f.key in values {
        if !schema.fieldAccepted(f.key, origins[f.key], values[f.key]) {
          return Failed(ValidationKind);
        }
      }
      k := k + 1;
    }
    assert schema.fields[..k] == schema.fields;
    if !schema.allAccepted(values) {
      return Failed(ValidationKind);
    }
    return Done(State(values, origins, PresentIn(layers), layers, path, fileLoaded));
  }

  // ----- what Load collects -----

  datatype FileRead = Unreadable(failure: Failure) | Read(path: string, loaded: bool, layer: map<Key, Raw>)

  /** The outside world as one Load finds it: the file, the environment and the bound flags, each
      flag with its value when it was changed. */
  datatype Inputs = Inputs(initial: seq<(Key, Raw)>, file: FileRead, env: map<string, Raw>, flags: Option<map<string, Option<Raw>>>)

  function InitialLayer(initial: seq<(Key, Raw)>): map<Key, Raw> {
    if initial == [] then map[]
    else InitialLayer(initial[..|initial| - 1])[initial[|initial| - 1].0 := initial[|initial| - 1].1]
  }

  function DefaultLayer(fields: seq<Field>): map<Key, Raw>
    requires DistinctFields(fields)
  {
    map f | f in fields && f.def.Some? :: f.key := f.def.value
  }

  function EnvLayer(fields: seq<Field>, env: map<string, Raw>): map<Key, Raw>
    requires DistinctFields(fields)
  {
    map f | f in fields && f.env != "" && f.env in env :: f.key := env[f.env]
  }

  function FlagLayer(fields: seq<Field>, flags: map<string, Option<Raw>>): map<Key, Raw>
    requires DistinctFields(fields)
  {
    map f | f in fields && f.flag != "" && f.flag in flags && flags[f.flag].Some? :: f.key := flags[f.flag].value
  }

  predicate FlagsBound(fields: seq<Field>, flags: Option<map<string, Option<Raw>>>) {
    flags.Some? ==> forall i :: 0 <= i < |fields| && fields[i].flag != "" ==> fields[i].flag in flags.value
  }

  /** All layers but the one of Set. */
  function Gathered(schema: Schema, inputs: Inputs): Outcome<Layers>
    requires ValidSchema(schema)
  {
    var fields := schema.fields;
    if exists i :: 0 <= i < |inputs.initial| && inputs.initial[i].0 !in Keys(fields) then Failed(InvalidKind)
    else if inputs.file.Unreadable? then Failed(inputs.file.failure)
    else if !(inputs.file.layer.Keys <= Keys(fields)) then Failed(InvalidKind)
    else if !FlagsBound(fields, inputs.flags) then Failed(ConflictKind)
    else Done(Layers(
      DefaultLayer(fields),
      InitialLayer(inputs.initial),
      if inputs.file.loaded then inputs.file.layer else map[],
      EnvLayer(fields, inputs.env),
      if inputs.flags.Some? then FlagLayer(fields, inputs.flags.value) else map[],
      map[]))
  }

  // ----- calls and runs -----

  datatype Snapshot = Snapshot(loaded: bool, set_: map<Key, Raw>, st: State)

  const NO_LAYERS := Layers(map[], map[], map[], map[], map[], map[])
  const ZERO_STATE := State(map[], map[], map[], NO_LAYERS, "", false)
  const FRESH := Snapshot(false, map[], ZERO_STATE)

  /** setup is the failure, if any, of applying the options and building the registry. */
  datatype Call =
    | LoadCall(setup: Option<Failure>, inputs: Inputs)
    | SetCall(setup: Option<Failure>, key: Key, value: Raw)
    | ValidateCall(setup: Option<Failure>)

  /** The snapshot a call publishes, or its failure. */
  function After(schema: Schema, s: Snapshot, call: Call): Outcome<Snapshot>
    requires ValidSchema(schema)
  {
    match call
    case LoadCall(setup, inputs) =>
      if setup.Some? then Failed(setup.value)
      else (match Gathered(schema, inputs)
        case Failed(e) => Failed(e)
        case Done(layers) => Published(s.set_, Resolved(schema, layers.(set_ := s.set_), inputs.file.path, inputs.file.loaded)))
    case SetCall(setup, key, value) =>
      if !s.loaded then Failed(ConflictKind)
      else if setup.Some? then Failed(setup.value)
      else if key !in Keys(schema.fields) then Failed(InvalidKind)
      else
        var set_ := s.set_[key := value];
        Published(set_, Resolved(schema, s.st.layers.(set_ := set_), s.st.path, s.st.fileLoaded))
    case ValidateCall(setup) =>
      if !s.loaded then Failed(ConflictKind)
      else if setup.Some? then Failed(setup.value)
      else (match Resolved(schema, s.st.layers, s.st.path, s.st.fileLoaded)
        case Failed(e) => Failed(e)
        case Done(_) => Done(s))
  }

  function Published(set_: map<Key, Raw>, st: Outcome<State>): Outcome<Snapshot> {
    match st
    case Failed(e) => Failed(e)
    case Done(state) => Done(Snapshot(true, set_, state))
  }

  // ----- the object -----

  class Config {
    const schema: Schema
    var loaded: bool
    var st: State
    var set_: map<Key, Raw>

    constructor (schema: Schema)
      ensures this.schema == schema && View() == FRESH
    {
      this.schema := schema;
      loaded, st, set_ := false, ZERO_STATE, map[];
    }

    function View(): Snapshot
      reads this
    {
      Snapshot(loaded, set_, st)
    }

    /** The loop over environment variables and flags. */
    method Discover(inputs: Inputs) returns (failure: Option<Failure>, env: map<Key, Raw>, flags: map<Key, Raw>)
      requires ValidSchema(schema)
      ensures failure == if FlagsBound(schema.fields, inputs.flags) then None else Some(ConflictKind)
      ensures failure.None? ==> env == EnvLayer(schema.fields, inputs.env)
      ensures failure.None? ==> flags == if inputs.flags.Some? then FlagLayer(schema.fields, inputs.flags.value) else map[]
    {
      hide Discovered;
      env, flags := map[], map[];
      DiscoverStart(schema.fields, inputs);
      var k := 0;
      while k < |schema.fields|
        invariant 0 <= k <= |schema.fields|
        invariant Discovered(schema.fields, k, inputs, env, flags)
      {
        var f := schema.fields[k];
        DiscoverStep(schema.fields, k, inputs, env, flags);
        if f.env != "" && f.env in inputs.env {
          env := env[f.key := inputs.env[f.env]];
        }
        if f.flag != "" && inputs.flags.Some? {
          if f.flag !in inputs.flags.value {
            return Some(ConflictKind), env, flags;
          }
          var changed := inputs.flags.value[f.flag];
          if changed.Some? {
            flags := flags[f.key := changed.value];
          }
        }
        k := k + 1;
      }
      DiscoverEnd(schema.fields, inputs, env, flags);
      return None, env, flags;
    }

    method Load(setup: Option<Failure>, inputs: Inputs) returns (r: Outcome<()>)
      requires ValidSchema(schema)
      modifies this
      ensures View() == Next(schema, old(View()), LoadCall(setup, inputs))
      ensures r == Report(After(schema, old(View()), LoadCall(setup, inputs)))
    {
      hide EnvLayer, FlagLayer, DefaultLayer, FlagsBound, Resolved, Keys;
      if setup.Some? {
        return Failed(setup.value);
      }
      var set_ := this.set_;
      var initial: map<Key, Raw> := map[];
      var k := 0;
      while k < |inputs.initial|
        invariant 0 <= k <= |inputs.initial|
        invariant initial == InitialLayer(inputs.initial[..k])
        invariant forall i :: 0 <= i < k ==> inputs.initial[i].0 in Keys(schema.fields)
      {
        if inputs.initial[k].0 !in Keys(schema.fields) {
          return Failed(InvalidKind);
        }
        assert inputs.initial[..k + 1][..k] == inputs.initial[..k];
        initial := initial[inputs.initial[k].0 := inputs.initial[k].1];
        k := k + 1;
      }
      assert inputs.initial[..k] == inputs.initial;
      if inputs.file.Unreadable? {
        return Failed(inputs.file.failure);
      }
      if !(inputs.file.layer.Keys <= Keys(schema.fields)) {
        return Failed(InvalidKind);
      }
      var failure, env, flags := Discover(inputs);
      if failure.Some? {
        return Failed(failure.value);
      }
      var file := if inputs.file.loaded then inputs.file.layer else map[];
      var layers := Layers(DefaultLayer(schema.fields), initial, file, env, flags, set_);
      var resolved := Resolve(schema, layers, inputs.file.path, inputs.file.loaded);
      if resolved.Failed? {
        return Failed(resolved.failure);
      }
      this.set_, st, loaded := set_, resolved.value, true;
      return Done(());
    }

    method Set(setup: Option<Failure>, key: Key, value: Raw) returns (r: Outcome<()>)
      requires ValidSchema(schema)
      modifies this
      ensures View() == Next(schema, old(View()), SetCall(setup, key, value))
      ensures r == Report(After(schema, old(View()), SetCall(setup, key, value)))
    {
      hide Resolved, Keys;
      if !loaded {
        return Failed(ConflictKind);
      }
      if setup.Some? {
        return Failed(setup.value);
      }
      if key !in Keys(schema.fields) {
        return Failed(InvalidKind);
      }
      var set_ := this.set_[key := value];
      var layers := st.layers.(set_ := set_);
      var resolved := Resolve(schema, layers, st.path, st.fileLoaded);
      if resolved.Failed? {
        return Failed(resolved.failure);
      }
      this.set_, st := set_, resolved.value;
      return Done(());
    }

    method Validate(setup: Option<Failure>) returns (r: Outcome<()>)
      requires ValidSchema(schema)
      ensures r == Report(After(schema, View(), ValidateCall(setup)))
    {
      hide Resolved;
      if !loaded {
        return Failed(ConflictKind);
      }
      if setup.Some? {
        return Failed(setup.value);
      }
      var resolved := Resolve(schema, st.layers, st.path, st.fileLoaded);
      return if resolved.Failed? then Failed(resolved.failure) else Done(());
    }

    method Source(key: Key) returns (source: Source, ok: bool)
      ensures ok <==> key in st.origins
      ensures ok ==> source == st.origins[key].source
    {
      ok := key in st.origins;
      source := if ok then st.origins[key].source else SourceNone;
    }

    method HasSource(key: Key, source: Source) returns (ok: bool)
      ensures ok <==> source in st.present && key in st.present[source]
    {
      ok := source in st.present && key in st.present[source];
    }
  }

  function Report(o: Outcome<Snapshot>): Outcome<()> {
    match o
    case Failed(e) => Failed(e)
    case Done(_) => Done(())
  }

  /** A call that fails changes nothing. */
  function Next(schema: Schema, s: Snapshot, call: Call): Snapshot
    requires ValidSchema(schema)
  {
    match After(schema, s, call)
    case Failed(_) => s
    case Done(t) => t
  }

  /** The two layers after the first k fields. */
  predicate Discovered(fields: seq<Field>, k: nat, inputs: Inputs, env: map<Key, Raw>, flags: map<Key, Raw>)
    requires k <= |fields|
  {
    var some := fields[..k];
    && DistinctFields(some) && FlagsBound(some, inputs.flags)
    && env == EnvLayer(some, inputs.env)
    && flags == if inputs.flags.Some? then FlagLayer(some, inputs.flags.value) else map[]
  }

  lemma DiscoverStart(fields: seq<Field>, inputs: Inputs)
    ensures Discovered(fields, 0, inputs, map[], map[])
  {
    assert fields[..0] == [];
    assert EnvLayer([], inputs.env) == map[];
    if inputs.flags.Some? {
      assert FlagLayer([], inputs.flags.value) == map[];
    }
  }

  lemma DiscoverEnd(fields: seq<Field>, inputs: Inputs, env: map<Key, Raw>, flags: map<Key, Raw>)
    requires DistinctFields(fields) && Discovered(fields, |fields|, inputs, env, flags)
    ensures FlagsBound(fields, inputs.flags) && env == EnvLayer(fields, inputs.env)
    ensures flags == if inputs.flags.Some? then FlagLayer(fields, inputs.flags.value) else map[]
  {
    assert fields[..|fields|] == fields;
  }

  lemma DiscoverStep(fields: seq<Field>, k: nat, inputs: Inputs, env: map<Key, Raw>, flags: map<Key, Raw>)
    requires DistinctFields(fields) && k < |fields| && Discovered(fields, k, inputs, env, flags)
    ensures var f := fields[k];
            if f.flag != "" && inputs.flags.Some? && f.flag !in inputs.flags.value then !FlagsBound(fields, inputs.flags)
            else Discovered(fields, k + 1, inputs,
                            if f.env != "" && f.env in inputs.env then env[f.key := inputs.env[f.env]] else env,
                            if f.flag != "" && inputs.flags.Some? && inputs.flags.value[f.flag].Some? then flags[f.key := inputs.flags.value[f.flag].value] else flags)
  {
    var f := fields[k];
    if !(f.flag != "" && inputs.flags.Some? && f.flag !in inputs.flags.value) {
      PrefixMembers(fields, k);
      EnvGrows(fields[..k], fields[..k + 1], f, inputs.env);
      if inputs.flags.Some? {
        FlagsGrow(fields[..k], fields[..k + 1], f, inputs.flags.value);
      }
      BoundGrows(fields, k, inputs.flags);
    }
  }

  lemma BoundGrows(fields: seq<Field>, k: nat, flags: Option<map<string, Option<Raw>>>)
    requires k < |fields| && FlagsBound(fields[..k], flags)
    requires flags.Some? && fields[k].flag != "" ==> fields[k].flag in flags.value
    ensures FlagsBound(fields[..k + 1], flags)
  {
    var some := fields[..k + 1];
    assert forall i :: 0 <= i < k ==> some[i] == fields[..k][i];
  }

  lemma PrefixMembers(fields: seq<Field>, k: nat)
    requires DistinctFields(fields) && k < |fields|
    ensures DistinctFields(fields[..k]) && DistinctFields(fields[..k + 1])
    ensures forall g :: g in fields[..k + 1] <==> g in fields[..k] || g == fields[k]
  {
    assert fields[..k + 1] == fields[..k] + [fields[k]];
  }

  lemma EnvGrows(before: seq<Field>, after: seq<Field>, f: Field, env: map<string, Raw>)
    requires DistinctFields(before) && DistinctFields(after) && forall g :: g in after <==> g in before || g == f
    ensures EnvLayer(after, env) ==
            if f.env != "" && f.env in env then EnvLayer(before, env)[f.key := env[f.env]] else EnvLayer(before, env)
  {
    var a, b := EnvLayer(after, env), EnvLayer(before, env);
    forall g, h | g in after && h in after && g.key == h.key
      ensures g == h
    {
    }
    assert forall k :: k in b ==> k in a && a[k] == b[k];
  }

  lemma FlagsGrow(before: seq<Field>, after: seq<Field>, f: Field, flags: map<string, Option<Raw>>)
    requires DistinctFields(before) && DistinctFields(after) && forall g :: g in after <==> g in before || g == f
    ensures FlagLayer(after, flags) ==
            if f.flag != "" && f.flag in flags && flags[f.flag].Some? then FlagLayer(before, flags)[f.key := flags[f.flag].value]
            else FlagLayer(before, flags)
  {
    var a, b := FlagLayer(after, flags), FlagLayer(before, flags);
    forall g, h | g in after && h in after && g.key == h.key
      ensures g == h
    {
    }
    assert forall k :: k in b ==> k in a && a[k] == b[k];
  }
}
