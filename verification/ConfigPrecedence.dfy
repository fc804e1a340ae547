/** What a Load publishes, said of the flags, the environment, the file, the initial values and the
    defaults it found (config/config.go, config/validate.go). */
module ConfigPrecedence {
  import opened Wrappers
  import opened ConfigSnapshot
  import opened ConfigRuns

  /** The flag of the field was changed. */
  predicate FlagChanged(f: Field, inputs: Inputs) {
    f.flag != "" && inputs.flags.Some? && f.flag in inputs.flags.value && inputs.flags.value[f.flag].Some?
  }

  predicate EnvPresent(f: Field, inputs: Inputs) {
    f.env != "" && f.env in inputs.env
  }

  predicate InFile(f: Field, inputs: Inputs) {
    inputs.file.Read? && inputs.file.loaded && f.key in inputs.file.layer
  }

  /** The last initial value that was given for the key is the one at i. */
  predicate LastInitial(initial: seq<(Key, Raw)>, key: Key, i: int) {
    0 <= i < |initial| && initial[i].0 == key && forall j :: i < j < |initial| ==> initial[j].0 != key
  }

  /** The published value of the field comes from this raw value and is said to come from there. */
  predicate Holds(schema: Schema, f: Field, st: State, source: Source, detail: string, raw: Raw) {
    && f.key in st.values && schema.coerce(f.key, raw) == Some(st.values[f.key])
    && f.key in st.origins && st.origins[f.key] == Origin(source, detail)
  }

  /** A value that was Set wins; then a changed flag, a present environment variable, the loaded file,
      the last initial value, the default. A field with none of these has no value and is optional. */
  ghost predicate Follows(schema: Schema, inputs: Inputs, set_: map<Key, Raw>, f: Field, st: State) {
    if f.key in set_ then Holds(schema, f, st, SourceSet, "", set_[f.key])
    else if FlagChanged(f, inputs) then Holds(schema, f, st, SourceFlag, f.flag, inputs.flags.value[f.flag].value)
    else if EnvPresent(f, inputs) then Holds(schema, f, st, SourceEnv, f.env, inputs.env[f.env])
    else if InFile(f, inputs) then Holds(schema, f, st, SourceFile, inputs.file.path, inputs.file.layer[f.key])
    else if exists i :: LastInitial(inputs.initial, f.key, i) then
      exists i :: LastInitial(inputs.initial, f.key, i) && Holds(schema, f, st, SourceInitial, "", inputs.initial[i].1)
    else if f.def.Some? then Holds(schema, f, st, SourceDefault, "", f.def.value)
    else f.key !in st.values && f.key !in st.origins && !f.required
  }

  // ----- what each layer holds -----

  lemma {:induction false} InitialHas(initial: seq<(Key, Raw)>, key: Key)
    ensures key in InitialLayer(initial) <==> exists i :: LastInitial(initial, key, i)
    ensures forall i :: LastInitial(initial, key, i) ==> InitialLayer(initial)[key] == initial[i].1
  {
    if initial == [] {
    } else {
      var init, n := initial[..|initial| - 1], |initial| - 1;
      InitialHas(init, key);
      if initial[n].0 == key {
        assert LastInitial(initial, key, n);
      } else {
        forall i: int
          ensures LastInitial(initial, key, i) <==> LastInitial(init, key, i)
          ensures LastInitial(initial, key, i) ==> init[i] == initial[i]
        {
          assert 0 <= i < n ==> init[i] == initial[i];
          assert forall j :: 0 <= j < n ==> init[j] == initial[j];
        }
      }
    }
  }

  lemma SameField(fields: seq<Field>, f: Field, g: Field)
    requires DistinctFields(fields) && f in fields && g in fields && f.key == g.key
    ensures f == g
  {
  }

  lemma DefaultHas(fields: seq<Field>, f: Field)
    requires DistinctFields(fields) && f in fields
    ensures f.key in DefaultLayer(fields) <==> f.def.Some?
    ensures f.def.Some? ==> DefaultLayer(fields)[f.key] == f.def.value
  {
    forall g | g in fields && g.key == f.key
      ensures g == f
    {
      SameField(fields, f, g);
    }
  }

  lemma EnvHas(fields: seq<Field>, f: Field, inputs: Inputs)
    requires DistinctFields(fields) && f in fields
    ensures f.key in EnvLayer(fields, inputs.env) <==> EnvPresent(f, inputs)
    ensures EnvPresent(f, inputs) ==> EnvLayer(fields, inputs.env)[f.key] == inputs.env[f.env]
  {
    forall g | g in fields && g.key == f.key
      ensures g == f
    {
      SameField(fields, f, g);
    }
  }

  lemma FlagHas(fields: seq<Field>, f: Field, inputs: Inputs)
    requires DistinctFields(fields) && f in fields && inputs.flags.Some?
    ensures f.key in FlagLayer(fields, inputs.flags.value) <==> FlagChanged(f, inputs)
    ensures FlagChanged(f, inputs) ==> FlagLayer(fields, inputs.flags.value)[f.key] == inputs.flags.value[f.flag].value
  {
    forall g | g in fields && g.key == f.key
      ensures g == f
    {
      SameField(fields, f, g);
    }
  }

  /** What the six layers hold for one field. */
  ghost predicate LayersAre(layers: Layers, inputs: Inputs, set_: map<Key, Raw>, f: Field) {
    && layers.set_ == set_
    && (f.key in layers.flags <==> FlagChanged(f, inputs))
    && (FlagChanged(f, inputs) ==> layers.flags[f.key] == inputs.flags.value[f.flag].value)
    && (f.key in layers.env <==> EnvPresent(f, inputs))
    && (EnvPresent(f, inputs) ==> layers.env[f.key] == inputs.env[f.env])
    && (f.key in layers.file <==> InFile(f, inputs))
    && (InFile(f, inputs) ==> layers.file[f.key] == inputs.file.layer[f.key])
    && (f.key in layers.initial <==> exists i :: LastInitial(inputs.initial, f.key, i))
    && (forall i :: LastInitial(inputs.initial, f.key, i) ==> layers.initial[f.key] == inputs.initial[i].1)
    && (f.key in layers.defaults <==> f.def.Some?)
    && (f.def.Some? ==> layers.defaults[f.key] == f.def.value)
  }

  lemma GatheredLayers(schema: Schema, inputs: Inputs)
    requires ValidSchema(schema) && Gathered(schema, inputs).Done?
    ensures inputs.file.Read?
    ensures var layers := Gathered(schema, inputs).value;
            && layers.defaults == DefaultLayer(schema.fields)
            && layers.initial == InitialLayer(inputs.initial)
            && layers.file == (if inputs.file.loaded then inputs.file.layer else map[])
            && layers.env == EnvLayer(schema.fields, inputs.env)
            && layers.flags == if inputs.flags.Some? then FlagLayer(schema.fields, inputs.flags.value) else map[]
  {
    hide DefaultLayer, EnvLayer, FlagLayer, InitialLayer, Keys, FlagsBound;
  }

  lemma LayersHave(schema: Schema, inputs: Inputs, set_: map<Key, Raw>, f: Field)
    requires ValidSchema(schema) && f in schema.fields && Gathered(schema, inputs).Done?
    ensures inputs.file.Read?
    ensures LayersAre(Gathered(schema, inputs).value.(set_ := set_), inputs, set_, f)
  {
    hide Gathered, DefaultLayer, EnvLayer, FlagLayer, InitialLayer, LastInitial;
    GatheredLayers(schema, inputs);
    InitialHas(inputs.initial, f.key);
    DefaultHas(schema.fields, f);
    EnvHas(schema.fields, f, inputs);
    if inputs.flags.Some? {
      FlagHas(schema.fields, f, inputs);
    }
  }

  /** The layer that decides a field, read off the inputs. */
  ghost predicate WinnerIs(inputs: Inputs, set_: map<Key, Raw>, f: Field, w: Source, raw: Raw) {
    if f.key in set_ then w == SourceSet && raw == set_[f.key]
    else if FlagChanged(f, inputs) then w == SourceFlag && raw == inputs.flags.value[f.flag].value
    else if EnvPresent(f, inputs) then w == SourceEnv && raw == inputs.env[f.env]
    else if InFile(f, inputs) then w == SourceFile && raw == inputs.file.layer[f.key]
    else if exists i :: LastInitial(inputs.initial, f.key, i) then
      w == SourceInitial && forall i :: LastInitial(inputs.initial, f.key, i) ==> raw == inputs.initial[i].1
    else if f.def.Some? then w == SourceDefault && raw == f.def.value
    else w == SourceNone
  }

  lemma WinnerFollows(layers: Layers, inputs: Inputs, set_: map<Key, Raw>, f: Field)
    requires LayersAre(layers, inputs, set_, f)
    ensures var w := Winner(layers, f.key);
            && (w != SourceNone ==> f.key in layers.Of(w))
            && WinnerIs(inputs, set_, f, w, if w != SourceNone then layers.Of(w)[f.key] else 0)
  {
    WinnerIsHighest(layers, f.key);
    hide Winner, FlagChanged, EnvPresent, InFile, LastInitial;
    assert f.key in layers.set_ <==> f.key in layers.Of(SourceSet);
    assert f.key in layers.flags <==> f.key in layers.Of(SourceFlag);
    assert f.key in layers.env <==> f.key in layers.Of(SourceEnv);
    assert f.key in layers.file <==> f.key in layers.Of(SourceFile);
    assert f.key in layers.initial <==> f.key in layers.Of(SourceInitial);
    assert f.key in layers.defaults <==> f.key in layers.Of(SourceDefault);
  }

  // ----- what Load publishes -----

  /** What Load refuses before it looks at single fields: values for unknown keys, a file that cannot
      be read, bindings to flags that do not exist. */
  predicate Usable(schema: Schema, inputs: Inputs) {
    && (forall i :: 0 <= i < |inputs.initial| ==> exists f :: f in schema.fields && f.key == inputs.initial[i].0)
    && inputs.file.Read?
    && (forall key :: key in inputs.file.layer ==> exists f :: f in schema.fields && f.key == key)
    && (inputs.flags.Some? ==> forall f :: f in schema.fields && f.flag != "" ==> f.flag in inputs.flags.value)
  }

  lemma UsableExactly(schema: Schema, inputs: Inputs)
    requires ValidSchema(schema)
    ensures Gathered(schema, inputs).Done? <==> Usable(schema, inputs)
  {
    forall key
      ensures key in Keys(schema.fields) <==> exists f :: f in schema.fields && f.key == key
    {
    }
    hide DefaultLayer, EnvLayer, FlagLayer, InitialLayer, Keys;
    if inputs.flags.Some? {
      assert FlagsBound(schema.fields, inputs.flags) <==>
             forall f :: f in schema.fields && f.flag != "" ==> f.flag in inputs.flags.value;
    }
  }

  /** A state in which every field follows the inputs, nothing else has a value, and every validator
      accepts. */
  ghost predicate Publishes(schema: Schema, inputs: Inputs, set_: map<Key, Raw>, st: State) {
    && (forall f :: f in schema.fields ==> Follows(schema, inputs, set_, f, st))
    && (forall key :: key in st.values || key in st.origins ==> exists f :: f in schema.fields && f.key == key)
    && (forall f :: f in schema.fields && f.key in st.values && f.key in st.origins ==>
          schema.fieldAccepted(f.key, st.origins[f.key], st.values[f.key]))
    && schema.allAccepted(st.values)
  }

  /** The state shows the deciding layer, or nothing where there is none and none is required. */
  predicate ShowsLayer(schema: Schema, f: Field, path: string, w: Source, raw: Raw, st: State) {
    if w == SourceNone then f.key !in st.values && f.key !in st.origins && !f.required
    else Holds(schema, f, st, w, DetailOf(f, w, path), raw)
  }

  lemma FieldShows(schema: Schema, layers: Layers, path: string, fileLoaded: bool, f: Field)
    requires ValidSchema(schema) && f in schema.fields && Resolved(schema, layers, path, fileLoaded).Done?
    ensures var w := Winner(layers, f.key);
            && (w != SourceNone ==> f.key in layers.Of(w))
            && ShowsLayer(schema, f, path, w, if w != SourceNone then layers.Of(w)[f.key] else 0,
                          Resolved(schema, layers, path, fileLoaded).value)
  {
    ResolvedParts(schema, layers, path, fileLoaded);
    var i :| 0 <= i < |schema.fields| && schema.fields[i] == f;
    NoFailureBefore(schema, layers, |schema.fields|, i);
    WinnerIsHighest(layers, f.key);
    hide Winner, CoerceFailure, Resolved, ValuesOf, OriginsOf, DetailOf, ValidSchema, Keys;
    if Winner(layers, f.key) != SourceNone {
      ValueAt(schema, layers, f);
      OriginAt(schema, layers, path, f);
    } else {
      NothingAt(schema, layers, path, f);
    }
  }

  lemma ShownFollows(schema: Schema, inputs: Inputs, set_: map<Key, Raw>, f: Field, w: Source, raw: Raw, st: State)
    requires inputs.file.Read? && WinnerIs(inputs, set_, f, w, raw)
    ensures ShowsLayer(schema, f, inputs.file.path, w, raw, st) <==> Follows(schema, inputs, set_, f, st)
  {
    hide FlagChanged, EnvPresent, InFile, LastInitial;
  }

  ghost predicate SomePublishes(schema: Schema, inputs: Inputs, set_: map<Key, Raw>) {
    exists st :: Publishes(schema, inputs, set_, st)
  }

  lemma FieldFollows(schema: Schema, inputs: Inputs, set_: map<Key, Raw>, f: Field)
    requires ValidSchema(schema) && f in schema.fields && Gathered(schema, inputs).Done?
    requires inputs.file.Read?
    requires Resolved(schema, Gathered(schema, inputs).value.(set_ := set_), inputs.file.path, inputs.file.loaded).Done?
    ensures Follows(schema, inputs, set_, f, Resolved(schema, Gathered(schema, inputs).value.(set_ := set_), inputs.file.path, inputs.file.loaded).value)
  {
    var layers := Gathered(schema, inputs).value.(set_ := set_);
    LayersHave(schema, inputs, set_, f);
    WinnerFollows(layers, inputs, set_, f);
    FieldShows(schema, layers, inputs.file.path, inputs.file.loaded, f);
    hide Gathered, Resolved, Winner, LayersAre, WinnerIs, ShowsLayer, Follows, ValidSchema;
    var w := Winner(layers, f.key);
    var st := Resolved(schema, layers, inputs.file.path, inputs.file.loaded).value;
    ShownFollows(schema, inputs, set_, f, w, if w != SourceNone then layers.Of(w)[f.key] else 0, st);
  }

  lemma ResolvedPublishes(schema: Schema, inputs: Inputs, set_: map<Key, Raw>)
    requires ValidSchema(schema) && Gathered(schema, inputs).Done? && inputs.file.Read?
    requires Resolved(schema, Gathered(schema, inputs).value.(set_ := set_), inputs.file.path, inputs.file.loaded).Done?
    ensures Publishes(schema, inputs, set_, Resolved(schema, Gathered(schema, inputs).value.(set_ := set_), inputs.file.path, inputs.file.loaded).value)
  {
    hide Follows, Resolved, Gathered, OriginsOf, ValuesOf, CoerceFailure;
    var layers := Gathered(schema, inputs).value.(set_ := set_);
    var path, fileLoaded := inputs.file.path, inputs.file.loaded;
    ResolvedParts(schema, layers, path, fileLoaded);
    ResolvedAccepts(schema, layers, path, fileLoaded);
    ValuesOfFields(schema, layers, path);
    forall f | f in schema.fields
      ensures Follows(schema, inputs, set_, f, Resolved(schema, layers, path, fileLoaded).value)
    {
      FieldFollows(schema, inputs, set_, f);
    }
  }

  // ----- when Load succeeds -----

  lemma {:induction false} AllFine(schema: Schema, layers: Layers, k: nat)
    requires k <= |schema.fields| && forall f :: f in schema.fields ==> FieldFailure(schema, layers, f).None?
    ensures CoerceFailure(schema, layers, k).None?
  {
    hide FieldFailure;
    if k > 0 {
      AllFine(schema, layers, k - 1);
    }
  }

  /** The state shows every field's deciding layer and nothing else. */
  ghost predicate ShowsAll(schema: Schema, layers: Layers, path: string, st: State) {
    && (forall f :: f in schema.fields ==> ShowsWinner(schema, layers, path, f, st))
    && (forall key :: key in st.values || key in st.origins ==> exists f :: f in schema.fields && f.key == key)
  }

  predicate ShowsWinner(schema: Schema, layers: Layers, path: string, f: Field, st: State) {
    var w := Winner(layers, f.key);
    && (w != SourceNone ==> f.key in layers.Of(w))
    && ShowsLayer(schema, f, path, w, if w != SourceNone then layers.Of(w)[f.key] else 0, st)
  }

  lemma ShowsFine(schema: Schema, layers: Layers, path: string, f: Field, st: State)
    requires ShowsWinner(schema, layers, path, f, st)
    ensures FieldFailure(schema, layers, f).None?
    ensures Resolvable(schema, layers, f.key) <==> f.key in st.values
    ensures Resolvable(schema, layers, f.key) <==> f.key in st.origins
    ensures f.key in st.values ==> st.values[f.key] == schema.coerce(f.key, RawOf(layers, f.key)).value
    ensures f.key in st.origins ==> st.origins[f.key] == OriginOf(layers, path, f)
  {
    WinnerIsHighest(layers, f.key);
    hide Winner, DetailOf;
  }

  /** A state that shows every field is the one that resolve computes. */
  lemma ShownIsResolved(schema: Schema, layers: Layers, path: string, st: State)
    requires ValidSchema(schema) && ShowsAll(schema, layers, path, st)
    ensures CoerceFailure(schema, layers, |schema.fields|).None?
    ensures ValuesOf(schema, layers, schema.fields) == st.values && OriginsOf(schema, layers, path, schema.fields) == st.origins
  {
    hide ShowsWinner, FieldFailure, Winner, RawOf, OriginOf, CoerceFailure, Resolvable;
    forall f | f in schema.fields
      ensures FieldFailure(schema, layers, f).None?
    {
      ShowsFine(schema, layers, path, f, st);
    }
    AllFine(schema, layers, |schema.fields|);
    SameValues(schema, layers, path, st);
    SameOrigins(schema, layers, path, st);
  }

  lemma SameValues(schema: Schema, layers: Layers, path: string, st: State)
    requires ValidSchema(schema) && ShowsAll(schema, layers, path, st)
    ensures ValuesOf(schema, layers, schema.fields) == st.values
  {
    hide ShowsWinner, FieldFailure, Winner, RawOf, OriginOf, CoerceFailure;
    forall f | f in schema.fields
      ensures Resolvable(schema, layers, f.key) <==> f.key in st.values
      ensures f.key in st.values ==> st.values[f.key] == schema.coerce(f.key, RawOf(layers, f.key)).value
    {
      ShowsFine(schema, layers, path, f, st);
    }
    var v := ValuesOf(schema, layers, schema.fields);
    forall key
      ensures key in v <==> key in st.values
      ensures key in v ==> v[key] == st.values[key]
    {
      if key in st.values {
        var f :| f in schema.fields && f.key == key;
        assert f.key in Keys(schema.fields);
      }
      if key in v {
        var f :| f in schema.fields && f.key == key;
      }
    }
  }

  lemma SameOrigins(schema: Schema, layers: Layers, path: string, st: State)
    requires ValidSchema(schema) && ShowsAll(schema, layers, path, st)
    ensures OriginsOf(schema, layers, path, schema.fields) == st.origins
  {
    hide ShowsWinner, FieldFailure, Winner, RawOf, OriginOf, CoerceFailure, Resolvable;
    forall f | f in schema.fields
      ensures Resolvable(schema, layers, f.key) <==> f.key in st.origins
      ensures f.key in st.origins ==> st.origins[f.key] == OriginOf(layers, path, f)
    {
      ShowsFine(schema, layers, path, f, st);
    }
    var o := OriginsOf(schema, layers, path, schema.fields);
    forall key
      ensures key in o <==> key in st.origins
      ensures key in o ==> o[key] == st.origins[key]
    {
      if key in st.origins {
        var f :| f in schema.fields && f.key == key;
      }
    }
  }

  lemma PublishesShows(schema: Schema, inputs: Inputs, set_: map<Key, Raw>, st: State)
    requires ValidSchema(schema) && Gathered(schema, inputs).Done? && inputs.file.Read? && Publishes(schema, inputs, set_, st)
    ensures ShowsAll(schema, Gathered(schema, inputs).value.(set_ := set_), inputs.file.path, st)
  {
    hide Follows, Gathered, ShowsWinner;
    var layers := Gathered(schema, inputs).value.(set_ := set_);
    forall f | f in schema.fields
      ensures ShowsWinner(schema, layers, inputs.file.path, f, st)
    {
      FollowsShows(schema, inputs, set_, f, st);
    }
  }

  lemma FollowsShows(schema: Schema, inputs: Inputs, set_: map<Key, Raw>, f: Field, st: State)
    requires ValidSchema(schema) && f in schema.fields && Gathered(schema, inputs).Done? && inputs.file.Read?
    requires Follows(schema, inputs, set_, f, st)
    ensures ShowsWinner(schema, Gathered(schema, inputs).value.(set_ := set_), inputs.file.path, f, st)
  {
    var layers := Gathered(schema, inputs).value.(set_ := set_);
    LayersHave(schema, inputs, set_, f);
    WinnerFollows(layers, inputs, set_, f);
    hide Gathered, Winner, LayersAre, WinnerIs, ShowsLayer, Follows, ValidSchema;
    var w := Winner(layers, f.key);
    ShownFollows(schema, inputs, set_, f, w, if w != SourceNone then layers.Of(w)[f.key] else 0, st);
  }

  lemma ShownIsAccepted(schema: Schema, layers: Layers, path: string, fileLoaded: bool, st: State)
    requires ValidSchema(schema) && ShowsAll(schema, layers, path, st)
    requires forall f :: f in schema.fields && f.key in st.values && f.key in st.origins ==>
               schema.fieldAccepted(f.key, st.origins[f.key], st.values[f.key])
    requires schema.allAccepted(st.values)
    ensures Resolved(schema, layers, path, fileLoaded).Done?
  {
    ShownIsResolved(schema, layers, path, st);
    SameKeys(schema, layers, path, schema.fields);
    hide ShowsAll, ValuesOf, OriginsOf, CoerceFailure;
  }

  lemma AfterLoad(schema: Schema, s: Snapshot, inputs: Inputs)
    requires ValidSchema(schema)
    ensures var r := After(schema, s, LoadCall(None, inputs));
            match Gathered(schema, inputs) {
              case Failed(e) => r == Failed(e)
              case Done(layers) =>
                && inputs.file.Read?
                && var resolved := Resolved(schema, layers.(set_ := s.set_), inputs.file.path, inputs.file.loaded);
                   match resolved {
                     case Failed(e) => r == Failed(e)
                     case Done(st) =>
                       && r == Done(Snapshot(true, s.set_, st))
                       && st.path == inputs.file.path && st.fileLoaded == inputs.file.loaded
                   }
            }
  {
    if Gathered(schema, inputs).Done? {
      GatheredLayers(schema, inputs);
      SetKeepsLayers(schema, Gathered(schema, inputs).value.(set_ := s.set_), inputs.file.path, inputs.file.loaded);
    }
    hide Resolved, Gathered;
  }

  /** Load succeeds exactly when its inputs are usable and some state follows them that all validators
      accept; it then publishes that state, and keeps what was Set. */
  lemma LoadExactly(schema: Schema, s: Snapshot, inputs: Inputs)
    requires ValidSchema(schema)
    ensures var r := After(schema, s, LoadCall(None, inputs));
            && (r.Done? <==> Usable(schema, inputs) && SomePublishes(schema, inputs, s.set_))
            && (r.Done? ==>
                  && r.value.loaded && r.value.set_ == s.set_
                  && r.value.st.path == inputs.file.path && r.value.st.fileLoaded == inputs.file.loaded
                  && Publishes(schema, inputs, s.set_, r.value.st))
  {
    UsableExactly(schema, inputs);
    AfterLoad(schema, s, inputs);
    hide After, Gathered, Resolved, Publishes, Usable;
    if Gathered(schema, inputs).Done? {
      var layers := Gathered(schema, inputs).value.(set_ := s.set_);
      if Resolved(schema, layers, inputs.file.path, inputs.file.loaded).Done? {
        ResolvedPublishes(schema, inputs, s.set_);
      }
      if st :| Publishes(schema, inputs, s.set_, st) {
        PublishedIsAccepted(schema, inputs, s.set_, st);
      }
    }
  }

  lemma PublishedIsAccepted(schema: Schema, inputs: Inputs, set_: map<Key, Raw>, st: State)
    requires ValidSchema(schema) && Gathered(schema, inputs).Done? && inputs.file.Read? && Publishes(schema, inputs, set_, st)
    ensures Resolved(schema, Gathered(schema, inputs).value.(set_ := set_), inputs.file.path, inputs.file.loaded).Done?
  {
    PublishesShows(schema, inputs, set_, st);
    hide Gathered, Resolved, ShowsAll, Follows;
    ShownIsAccepted(schema, Gathered(schema, inputs).value.(set_ := set_), inputs.file.path, inputs.file.loaded, st);
  }

  /** After any calls, once loaded, every field follows what the last successful Load found, under the
      values of the last successful Sets. */
  lemma FollowsAfterRun(schema: Schema, calls: Calls, f: Field)
    requires ValidSchema(schema) && f in schema.fields && Run(schema, calls).loaded
    ensures var s := Run(schema, calls);
            exists l: nat :: LastLoad(schema, calls, l) && Follows(schema, calls[l].inputs, s.set_, f, s.st)
    ensures var s := Run(schema, calls);
            if f.key in s.set_ then exists t: nat :: LastSet(schema, calls, f.key, t) && calls[t].value == s.set_[f.key]
            else NeverSet(schema, calls, f.key)
  {
    RunIsCurrent(schema, calls);
    var s := Run(schema, calls);
    assert KeyKept(schema, calls, f.key, s.set_);
    hide Resolved, Run, Gathered, Follows, SetsKept, LastLoad, LastSet, NeverSet;
    var l: nat :| LoadedBy(schema, calls, s, l);
    var inputs := calls[l].inputs;
    GatheredLayers(schema, inputs);
    FieldFollows(schema, inputs, s.set_, f);
  }

  lemma ValuesOfFields(schema: Schema, layers: Layers, path: string)
    requires ValidSchema(schema)
    ensures forall key :: key in ValuesOf(schema, layers, schema.fields) ==> exists f :: f in schema.fields && f.key == key
    ensures forall key :: key in OriginsOf(schema, layers, path, schema.fields) ==> exists f :: f in schema.fields && f.key == key
  {
    hide Resolvable, OriginOf;
  }

  /** HasSource says of every layer, deciding or not, whether it has the key. */
  lemma PresenceExactly(schema: Schema, s: Snapshot, inputs: Inputs, f: Field)
    requires ValidSchema(schema) && f in schema.fields && After(schema, s, LoadCall(None, inputs)).Done?
    ensures var present := After(schema, s, LoadCall(None, inputs)).value.st.present;
            && present.Keys == {SourceSet, SourceFlag, SourceEnv, SourceFile, SourceInitial, SourceDefault}
            && (f.key in present[SourceSet] <==> f.key in s.set_)
            && (f.key in present[SourceFlag] <==> FlagChanged(f, inputs))
            && (f.key in present[SourceEnv] <==> EnvPresent(f, inputs))
            && (f.key in present[SourceFile] <==> InFile(f, inputs))
            && (f.key in present[SourceInitial] <==> exists i :: LastInitial(inputs.initial, f.key, i))
            && (f.key in present[SourceDefault] <==> f.def.Some?)
  {
    hide After, Resolved, Gathered, LayersAre, PresentIn, FlagChanged, EnvPresent, InFile, LastInitial;
    AfterLoad(schema, s, inputs);
    var layers := Gathered(schema, inputs).value.(set_ := s.set_);
    LayersHave(schema, inputs, s.set_, f);
    ResolvedParts(schema, layers, inputs.file.path, inputs.file.loaded);
    PresentLayers(layers, inputs, s.set_, f);
  }

  lemma PresentLayers(layers: Layers, inputs: Inputs, set_: map<Key, Raw>, f: Field)
    requires LayersAre(layers, inputs, set_, f)
    ensures var present := PresentIn(layers);
            && present.Keys == {SourceSet, SourceFlag, SourceEnv, SourceFile, SourceInitial, SourceDefault}
            && (f.key in present[SourceSet] <==> f.key in set_)
            && (f.key in present[SourceFlag] <==> FlagChanged(f, inputs))
            && (f.key in present[SourceEnv] <==> EnvPresent(f, inputs))
            && (f.key in present[SourceFile] <==> InFile(f, inputs))
            && (f.key in present[SourceInitial] <==> exists i :: LastInitial(inputs.initial, f.key, i))
            && (f.key in present[SourceDefault] <==> f.def.Some?)
  {
    hide FlagChanged, EnvPresent, InFile, LastInitial;
  }

  lemma ResolvedAccepts(schema: Schema, layers: Layers, path: string, fileLoaded: bool)
    requires ValidSchema(schema) && Resolved(schema, layers, path, fileLoaded).Done?
    ensures var st := Resolved(schema, layers, path, fileLoaded).value;
            && schema.allAccepted(st.values)
            && forall f :: f in schema.fields && f.key in st.values && f.key in st.origins ==>
                 schema.fieldAccepted(f.key, st.origins[f.key], st.values[f.key])
  {
    hide ValuesOf, OriginsOf, CoerceFailure;
  }

  // ----- why Load fails -----

  /** The value that decides the field cannot be converted. */
  ghost predicate Unconvertible(schema: Schema, inputs: Inputs, set_: map<Key, Raw>, f: Field) {
    exists w, raw :: w != SourceNone && WinnerIs(inputs, set_, f, w, raw) && schema.coerce(f.key, raw).None?
  }

  /** The field is required and nothing provides it. */
  ghost predicate Absent(inputs: Inputs, set_: map<Key, Raw>, f: Field) {
    && f.required && f.key !in set_ && !FlagChanged(f, inputs) && !EnvPresent(f, inputs) && !InFile(f, inputs)
    && f.def.None? && forall i :: !LastInitial(inputs.initial, f.key, i)
  }

  lemma FieldRefused(schema: Schema, inputs: Inputs, set_: map<Key, Raw>, f: Field)
    requires ValidSchema(schema) && f in schema.fields && Gathered(schema, inputs).Done?
    ensures var failure := FieldFailure(schema, Gathered(schema, inputs).value.(set_ := set_), f);
            && (failure == Some(InvalidKind) <==> Unconvertible(schema, inputs, set_, f))
            && (failure == Some(ValidationKind) <==> Absent(inputs, set_, f))
            && (failure.Some? ==> failure.value in {InvalidKind, ValidationKind})
  {
    var layers := Gathered(schema, inputs).value.(set_ := set_);
    LayersHave(schema, inputs, set_, f);
    WinnerFollows(layers, inputs, set_, f);
    var w := Winner(layers, f.key);
    var raw := if w != SourceNone then layers.Of(w)[f.key] else 0;
    RefusedBy(schema, inputs, set_, f, w, raw);
    hide Gathered, LayersAre, WinnerIs, Unconvertible, Absent, ValidSchema, Winner;
  }

  lemma RefusedBy(schema: Schema, inputs: Inputs, set_: map<Key, Raw>, f: Field, w: Source, raw: Raw)
    requires WinnerIs(inputs, set_, f, w, raw)
    ensures Unconvertible(schema, inputs, set_, f) <==> w != SourceNone && schema.coerce(f.key, raw).None?
    ensures Absent(inputs, set_, f) <==> w == SourceNone && f.required
  {
    hide FlagChanged, EnvPresent, InFile, LastInitial;
    if Unconvertible(schema, inputs, set_, f) {
      var w', raw' :| w' != SourceNone && WinnerIs(inputs, set_, f, w', raw') && schema.coerce(f.key, raw').None?;
      OneWinner(inputs, set_, f, w, raw, w', raw');
    }
  }

  lemma OneWinner(inputs: Inputs, set_: map<Key, Raw>, f: Field, w: Source, raw: Raw, w': Source, raw': Raw)
    requires WinnerIs(inputs, set_, f, w, raw) && WinnerIs(inputs, set_, f, w', raw')
    ensures w == w' && (w != SourceNone ==> raw == raw')
  {
    hide FlagChanged, EnvPresent, InFile, LastInitial;
    if i :| LastInitial(inputs.initial, f.key, i) {
    }
  }

  lemma {:induction false} FirstRefusal(schema: Schema, layers: Layers, k: nat)
    requires k <= |schema.fields|
    ensures forall e :: CoerceFailure(schema, layers, k) == Some(e) <==>
              exists i :: 0 <= i < k && FieldFailure(schema, layers, schema.fields[i]) == Some(e)
                && forall j :: 0 <= j < i ==> FieldFailure(schema, layers, schema.fields[j]).None?
  {
    hide FieldFailure;
    if k > 0 {
      FirstRefusal(schema, layers, k - 1);
      if CoerceFailure(schema, layers, k - 1).None? {
        NoneRefused(schema, layers, k - 1);
      }
    }
  }

  lemma NoneRefused(schema: Schema, layers: Layers, k: nat)
    requires k <= |schema.fields| && CoerceFailure(schema, layers, k).None?
    ensures forall j :: 0 <= j < k ==> FieldFailure(schema, layers, schema.fields[j]).None?
  {
    forall j | 0 <= j < k
      ensures FieldFailure(schema, layers, schema.fields[j]).None?
    {
      NoFailureBefore(schema, layers, k, j);
    }
  }

  ghost predicate FirstBad(schema: Schema, inputs: Inputs, set_: map<Key, Raw>, i: int) {
    && 0 <= i < |schema.fields|
    && forall j :: 0 <= j < i ==>
         !Unconvertible(schema, inputs, set_, schema.fields[j]) && !Absent(inputs, set_, schema.fields[j])
  }

  predicate KnownKey(schema: Schema, key: Key) {
    exists f :: f in schema.fields && f.key == key
  }

  predicate UnknownInitial(schema: Schema, inputs: Inputs) {
    exists i :: 0 <= i < |inputs.initial| && !KnownKey(schema, inputs.initial[i].0)
  }

  predicate UnknownInFile(schema: Schema, inputs: Inputs) {
    inputs.file.Read? && exists key :: key in inputs.file.layer && !KnownKey(schema, key)
  }

  predicate FlagMissing(schema: Schema, inputs: Inputs) {
    inputs.flags.Some? && exists f :: f in schema.fields && f.flag != "" && f.flag !in inputs.flags.value
  }

  /** The failure of a Load: unknown initial keys first, then the file, unknown file keys and missing
      flags; then the first field whose value cannot be converted or that is absent; then the
      validators. */
  lemma LoadFails(schema: Schema, s: Snapshot, inputs: Inputs)
    requires ValidSchema(schema) && After(schema, s, LoadCall(None, inputs)).Failed?
    ensures var e := After(schema, s, LoadCall(None, inputs)).failure;
            if UnknownInitial(schema, inputs) then e == InvalidKind
            else if inputs.file.Unreadable? then e == inputs.file.failure
            else if UnknownInFile(schema, inputs) then e == InvalidKind
            else if FlagMissing(schema, inputs) then e == ConflictKind
            else
              && e in {InvalidKind, ValidationKind}
              && (e == InvalidKind <==>
                    exists i :: FirstBad(schema, inputs, s.set_, i) && Unconvertible(schema, inputs, s.set_, schema.fields[i]))
  {
    AfterLoad(schema, s, inputs);
    UsableExactly(schema, inputs);
    assert Usable(schema, inputs) ==> !UnknownInitial(schema, inputs) && !UnknownInFile(schema, inputs) && !FlagMissing(schema, inputs);
    hide UnknownInitial, UnknownInFile;
    if Gathered(schema, inputs).Failed? {
      GatheredFails(schema, inputs);
    } else {
      ResolvedFails(schema, inputs, s.set_);
      hide After, Gathered, Resolved, Unconvertible, FirstBad;
    }
  }

  lemma GatheredFails(schema: Schema, inputs: Inputs)
    requires ValidSchema(schema) && Gathered(schema, inputs).Failed?
    ensures var e := Gathered(schema, inputs).failure;
            if UnknownInitial(schema, inputs) then e == InvalidKind
            else if inputs.file.Unreadable? then e == inputs.file.failure
            else if UnknownInFile(schema, inputs) then e == InvalidKind
            else e == ConflictKind
  {
    forall key
      ensures key in Keys(schema.fields) <==> KnownKey(schema, key)
    {
    }
    hide DefaultLayer, EnvLayer, FlagLayer, InitialLayer, Keys, FlagsBound, KnownKey;
  }

  lemma ResolvedFails(schema: Schema, inputs: Inputs, set_: map<Key, Raw>)
    requires ValidSchema(schema) && Gathered(schema, inputs).Done? && inputs.file.Read?
    requires Resolved(schema, Gathered(schema, inputs).value.(set_ := set_), inputs.file.path, inputs.file.loaded).Failed?
    ensures var e := Resolved(schema, Gathered(schema, inputs).value.(set_ := set_), inputs.file.path, inputs.file.loaded).failure;
            && e in {InvalidKind, ValidationKind}
            && (e == InvalidKind <==> exists i :: FirstBad(schema, inputs, set_, i) && Unconvertible(schema, inputs, set_, schema.fields[i]))
  {
    hide Gathered, Resolved, FieldFailure, Unconvertible, Absent, CoerceFailure, ValidSchema;
    var layers := Gathered(schema, inputs).value.(set_ := set_);
    var n := |schema.fields|;
    FirstRefusal(schema, layers, n);
    forall i | 0 <= i < n
      ensures var failure := FieldFailure(schema, layers, schema.fields[i]);
              && (failure == Some(InvalidKind) <==> Unconvertible(schema, inputs, set_, schema.fields[i]))
              && (failure == Some(ValidationKind) <==> Absent(inputs, set_, schema.fields[i]))
              && (failure.Some? ==> failure.value in {InvalidKind, ValidationKind})
    {
      FieldRefused(schema, inputs, set_, schema.fields[i]);
    }
    ResolvedError(schema, layers, inputs.file.path, inputs.file.loaded);
    assert (exists i :: FirstBad(schema, inputs, set_, i) && Unconvertible(schema, inputs, set_, schema.fields[i]))
           <==> CoerceFailure(schema, layers, n) == Some(InvalidKind);
  }

  lemma ResolvedError(schema: Schema, layers: Layers, path: string, fileLoaded: bool)
    requires ValidSchema(schema) && Resolved(schema, layers, path, fileLoaded).Failed?
    ensures var c := CoerceFailure(schema, layers, |schema.fields|);
            Resolved(schema, layers, path, fileLoaded).failure == if c.Some? then c.value else ValidationKind
  {
    hide CoerceFailure, ValuesOf, OriginsOf;
  }

  // ----- Set -----

  /** Set, after any calls: it needs a loaded object and a known key, and succeeds exactly when some
      state follows the last Load's inputs with this value Set that all validators accept; it then
      publishes that state. A failed Set changes nothing. */
  lemma SetExactly(schema: Schema, calls: Calls, l: nat, key: Key, value: Raw)
    requires ValidSchema(schema) && Run(schema, calls).loaded && LastLoad(schema, calls, l)
    ensures var s := Run(schema, calls);
            var r := After(schema, s, SetCall(None, key, value));
            && (r.Done? <==>
                  && (exists f :: f in schema.fields && f.key == key)
                  && SomePublishes(schema, calls[l].inputs, s.set_[key := value]))
            && (r.Done? ==>
                  && r.value.loaded && r.value.set_ == s.set_[key := value]
                  && Publishes(schema, calls[l].inputs, s.set_[key := value], r.value.st))
  {
    RunIsCurrent(schema, calls);
    var s := Run(schema, calls);
    hide Resolved, Run, Gathered, Publishes, SetsKept, After, ValidSchema, Loads;
    var m: nat :| LoadedBy(schema, calls, s, m);
    OneLastLoad(schema, calls, l, m);
    var inputs := calls[l].inputs;
    GatheredLayers(schema, inputs);
    var layers := Gathered(schema, inputs).value;
    SetKeepsLayers(schema, layers.(set_ := s.set_), inputs.file.path, inputs.file.loaded);
    AfterSet(schema, s, key, value);
    var set_ := s.set_[key := value];
    assert s.st.layers.(set_ := set_) == layers.(set_ := set_);
    if Resolved(schema, layers.(set_ := set_), inputs.file.path, inputs.file.loaded).Done? {
      ResolvedPublishes(schema, inputs, set_);
    }
    if st :| Publishes(schema, inputs, set_, st) {
      PublishedIsAccepted(schema, inputs, set_, st);
    }
  }

  lemma OneLastLoad(schema: Schema, calls: Calls, l: nat, m: nat)
    requires ValidSchema(schema) && LastLoad(schema, calls, l) && LastLoad(schema, calls, m)
    ensures l == m
  {
    InRange(schema, calls);
    hide Succeeds;
  }

  lemma AfterSet(schema: Schema, s: Snapshot, key: Key, value: Raw)
    requires ValidSchema(schema) && s.loaded
    ensures var r := After(schema, s, SetCall(None, key, value));
            if !(exists f :: f in schema.fields && f.key == key) then r == Failed(InvalidKind)
            else match Resolved(schema, s.st.layers.(set_ := s.set_[key := value]), s.st.path, s.st.fileLoaded)
                 case Failed(e) => r == Failed(e)
                 case Done(st) => r == Done(Snapshot(true, s.set_[key := value], st))
  {
    assert key in Keys(schema.fields) <==> exists f :: f in schema.fields && f.key == key;
    hide Resolved, Keys;
  }

  /** Nothing but a loaded object can be Set or validated, and options that cannot be applied fail
      every call with their own failure. */
  lemma CallsRefused(schema: Schema, s: Snapshot, call: Call)
    requires ValidSchema(schema)
    ensures !call.LoadCall? && !s.loaded ==> After(schema, s, call) == Failed(ConflictKind)
    ensures (call.LoadCall? || s.loaded) && call.setup.Some? ==> After(schema, s, call) == Failed(call.setup.value)
    ensures After(schema, s, call).Failed? ==> Next(schema, s, call) == s
    ensures After(schema, s, call).Done? ==> Next(schema, s, call) == After(schema, s, call).value
  {
    hide Resolved, Gathered;
  }
}
