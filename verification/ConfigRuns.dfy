/** What a configuration holds after any sequence of calls, some of them failing (config/config.go). */
module ConfigRuns {
  import opened Wrappers
  import opened ConfigSnapshot

  type Calls = seq<Call>

  /** The snapshot after the calls, starting from a new object. */
  function Run(schema: Schema, calls: Calls): Snapshot
    requires ValidSchema(schema)
  {
    if calls == [] then FRESH else Next(schema, Run(schema, calls[..|calls| - 1]), calls[|calls| - 1])
  }

  predicate Succeeds(schema: Schema, calls: Calls, i: nat)
    requires ValidSchema(schema)
  {
    i < |calls| && After(schema, Run(schema, calls[..i]), calls[i]).Done?
  }

  predicate Loads(schema: Schema, calls: Calls, i: nat)
    requires ValidSchema(schema)
  {
    Succeeds(schema, calls, i) && calls[i].LoadCall?
  }

  predicate Sets(schema: Schema, calls: Calls, key: Key, i: nat)
    requires ValidSchema(schema)
  {
    Succeeds(schema, calls, i) && calls[i].SetCall? && calls[i].key == key
  }

  ghost predicate LastLoad(schema: Schema, calls: Calls, i: nat)
    requires ValidSchema(schema)
  {
    Loads(schema, calls, i) && forall j :: i < j < |calls| ==> !Loads(schema, calls, j)
  }

  ghost predicate LastSet(schema: Schema, calls: Calls, key: Key, i: nat)
    requires ValidSchema(schema)
  {
    Sets(schema, calls, key, i) && forall j :: i < j < |calls| ==> !Sets(schema, calls, key, j)
  }

  ghost predicate NeverSet(schema: Schema, calls: Calls, key: Key)
    requires ValidSchema(schema)
  {
    forall j :: !Sets(schema, calls, key, j)
  }

  ghost predicate NeverLoads(schema: Schema, calls: Calls)
    requires ValidSchema(schema)
  {
    forall i: nat :: !Loads(schema, calls, i)
  }

  /** The key has the value of its last successful Set, if there is one. */
  ghost predicate KeyKept(schema: Schema, calls: Calls, key: Key, set_: map<Key, Raw>)
    requires ValidSchema(schema)
  {
    if key in set_ then exists i: nat :: LastSet(schema, calls, key, i) && calls[i].value == set_[key]
    else NeverSet(schema, calls, key)
  }

  ghost predicate SetsKept(schema: Schema, calls: Calls, set_: map<Key, Raw>)
    requires ValidSchema(schema)
  {
    forall key :: KeyKept(schema, calls, key, set_)
  }

  /** The snapshot resolves what call i collected, with the given Sets on top. */
  ghost predicate LoadedBy(schema: Schema, calls: Calls, s: Snapshot, i: nat)
    requires ValidSchema(schema)
  {
    && LastLoad(schema, calls, i)
    && var inputs := calls[i].inputs;
       && Gathered(schema, inputs).Done?
       && Resolved(schema, Gathered(schema, inputs).value.(set_ := s.set_), inputs.file.path, inputs.file.loaded) == Done(s.st)
  }

  ghost predicate LoadKept(schema: Schema, calls: Calls, s: Snapshot)
    requires ValidSchema(schema)
  {
    if s.loaded then exists i: nat :: LoadedBy(schema, calls, s, i) else NeverLoads(schema, calls)
  }

  lemma {:induction false} SameSuccess(schema: Schema, calls: Calls, i: nat)
    requires ValidSchema(schema) && i < |calls| - 1
    ensures Succeeds(schema, calls[..|calls| - 1], i) == Succeeds(schema, calls, i) && calls[..|calls| - 1][i] == calls[i]
  {
    assert calls[..|calls| - 1][..i] == calls[..i];
  }

  lemma {:induction false} RunIsCurrent(schema: Schema, calls: Calls)
    requires ValidSchema(schema)
    ensures SetsKept(schema, calls, Run(schema, calls).set_) && LoadKept(schema, calls, Run(schema, calls))
  {
    if calls == [] {
    } else {
      RunIsCurrent(schema, calls[..|calls| - 1]);
      CallKeepsSets(schema, calls);
      CallKeepsLoad(schema, calls);
    }
  }

  /** Adding a call changes nothing about the earlier ones. */
  lemma {:induction false} Earlier(schema: Schema, calls: Calls)
    requires ValidSchema(schema) && calls != []
    ensures forall key, i: nat :: Sets(schema, calls, key, i) ==> i < |calls|
    ensures forall key, i: nat :: Sets(schema, calls[..|calls| - 1], key, i) <==> i < |calls| - 1 && Sets(schema, calls, key, i)
    ensures forall i: nat :: Loads(schema, calls, i) ==> i < |calls|
    ensures forall i: nat :: Loads(schema, calls[..|calls| - 1], i) <==> i < |calls| - 1 && Loads(schema, calls, i)
  {
    InRange(schema, calls);
    InRange(schema, calls[..|calls| - 1]);
    hide Succeeds;
    var before := calls[..|calls| - 1];
    forall key, i: nat
      ensures Sets(schema, before, key, i) <==> i < |before| && Sets(schema, calls, key, i)
    {
      if i < |before| {
        SameSuccess(schema, calls, i);
      }
    }
    forall i: nat
      ensures Loads(schema, before, i) <==> i < |before| && Loads(schema, calls, i)
    {
      if i < |before| {
        SameSuccess(schema, calls, i);
      }
    }
  }

  lemma InRange(schema: Schema, calls: Calls)
    requires ValidSchema(schema)
    ensures forall i: nat :: Succeeds(schema, calls, i) ==> i < |calls|
  {
    hide Run, After;
  }

  lemma {:induction false} CallKeepsSets(schema: Schema, calls: Calls)
    requires ValidSchema(schema) && calls != []
    requires SetsKept(schema, calls[..|calls| - 1], Run(schema, calls[..|calls| - 1]).set_)
    ensures SetsKept(schema, calls, Run(schema, calls).set_)
  {
    hide Run, KeyKept;
    forall key
      ensures KeyKept(schema, calls, key, Run(schema, calls).set_)
    {
      assert KeyKept(schema, calls[..|calls| - 1], key, Run(schema, calls[..|calls| - 1]).set_);
      CallKeepsKey(schema, calls, key);
    }
  }

  lemma {:induction false} CallKeepsKey(schema: Schema, calls: Calls, key: Key)
    requires ValidSchema(schema) && calls != []
    requires KeyKept(schema, calls[..|calls| - 1], key, Run(schema, calls[..|calls| - 1]).set_)
    ensures KeyKept(schema, calls, key, Run(schema, calls).set_)
  {
    var n := |calls| - 1;
    var before := calls[..n];
    NewSet(schema, calls);
    SetHasValue(schema, before);
    hide Run, Sets, LastSet, NeverSet;
    var s, t := Run(schema, before), Run(schema, calls);
    if Sets(schema, calls, key, n) {
      NewestSet(schema, calls, key);
    } else if key in s.set_ {
      var i: nat :| LastSet(schema, before, key, i) && before[i].value == s.set_[key];
      OldSet(schema, calls, key, i);
    } else {
      NoSet(schema, calls, key);
    }
  }

  lemma {:induction false} NewestSet(schema: Schema, calls: Calls, key: Key)
    requires ValidSchema(schema) && calls != [] && Sets(schema, calls, key, |calls| - 1)
    ensures LastSet(schema, calls, key, |calls| - 1)
  {
    hide Sets;
  }

  lemma {:induction false} EarlierSet(schema: Schema, calls: Calls, key: Key, i: nat)
    requires ValidSchema(schema) && calls != []
    ensures Sets(schema, calls, key, i) ==> i < |calls|
    ensures Sets(schema, calls[..|calls| - 1], key, i) <==> i < |calls| - 1 && Sets(schema, calls, key, i)
  {
    Earlier(schema, calls);
    hide Sets, Loads, ValidSchema;
  }

  lemma {:induction false} OldSet(schema: Schema, calls: Calls, key: Key, i: nat)
    requires ValidSchema(schema) && calls != [] && !Sets(schema, calls, key, |calls| - 1)
    requires LastSet(schema, calls[..|calls| - 1], key, i)
    ensures LastSet(schema, calls, key, i) && i < |calls| - 1 && calls[..|calls| - 1][i] == calls[i]
  {
    hide Sets, ValidSchema;
    EarlierSet(schema, calls, key, i);
    forall j | i < j < |calls|
      ensures !Sets(schema, calls, key, j)
    {
      EarlierSet(schema, calls, key, j);
    }
  }

  lemma {:induction false} NoSet(schema: Schema, calls: Calls, key: Key)
    requires ValidSchema(schema) && calls != [] && !Sets(schema, calls, key, |calls| - 1)
    requires NeverSet(schema, calls[..|calls| - 1], key)
    ensures NeverSet(schema, calls, key)
  {
    hide Sets, ValidSchema;
    forall j: nat
      ensures !Sets(schema, calls, key, j)
    {
      EarlierSet(schema, calls, key, j);
    }
  }

  lemma SetHasValue(schema: Schema, calls: Calls)
    requires ValidSchema(schema)
    ensures forall key, i: nat :: Sets(schema, calls, key, i) ==> i < |calls| && calls[i].SetCall? && calls[i].key == key
  {
    hide Run, After;
  }

  /** What the last call does to the Sets. */
  lemma {:induction false} NewSet(schema: Schema, calls: Calls)
    requires ValidSchema(schema) && calls != []
    ensures var n := |calls| - 1;
            var s, t := Run(schema, calls[..n]), Run(schema, calls);
            && (forall key :: Sets(schema, calls, key, n) ==> key in t.set_ && t.set_[key] == calls[n].value)
            && (forall key :: !Sets(schema, calls, key, n) ==> (key in t.set_ <==> key in s.set_) && (key in s.set_ ==> t.set_[key] == s.set_[key]))
  {
    hide Resolved, Gathered;
  }

  lemma {:induction false} EarlierLoad(schema: Schema, calls: Calls, i: nat)
    requires ValidSchema(schema) && calls != []
    ensures Loads(schema, calls, i) ==> i < |calls|
    ensures Loads(schema, calls[..|calls| - 1], i) <==> i < |calls| - 1 && Loads(schema, calls, i)
  {
    Earlier(schema, calls);
    hide Sets, Loads, ValidSchema;
  }

  lemma {:induction false} OldLoad(schema: Schema, calls: Calls, i: nat)
    requires ValidSchema(schema) && calls != [] && !Loads(schema, calls, |calls| - 1)
    requires LastLoad(schema, calls[..|calls| - 1], i)
    ensures LastLoad(schema, calls, i) && i < |calls| - 1 && calls[..|calls| - 1][i] == calls[i]
  {
    hide Loads, ValidSchema;
    EarlierLoad(schema, calls, i);
    forall j | i < j < |calls|
      ensures !Loads(schema, calls, j)
    {
      EarlierLoad(schema, calls, j);
    }
  }

  lemma {:induction false} NewestLoad(schema: Schema, calls: Calls)
    requires ValidSchema(schema) && calls != [] && Loads(schema, calls, |calls| - 1)
    ensures LastLoad(schema, calls, |calls| - 1)
  {
    hide Loads, ValidSchema;
  }

  lemma {:induction false} NoLoad(schema: Schema, calls: Calls)
    requires ValidSchema(schema) && calls != [] && !Loads(schema, calls, |calls| - 1)
    requires NeverLoads(schema, calls[..|calls| - 1])
    ensures NeverLoads(schema, calls)
  {
    hide Loads, ValidSchema;
    forall i: nat
      ensures !Loads(schema, calls, i)
    {
      EarlierLoad(schema, calls, i);
    }
  }

  lemma {:induction false} CallKeepsLoad(schema: Schema, calls: Calls)
    requires ValidSchema(schema) && calls != []
    requires LoadKept(schema, calls[..|calls| - 1], Run(schema, calls[..|calls| - 1]))
    ensures LoadKept(schema, calls, Run(schema, calls))
  {
    var n := |calls| - 1;
    var before := calls[..n];
    NewLoad(schema, calls);
    hide Run, Loads, LastLoad, NeverLoads, Resolved, Gathered, ValidSchema;
    var s, t := Run(schema, before), Run(schema, calls);
    if Loads(schema, calls, n) {
      NewestLoad(schema, calls);
      assert LoadedBy(schema, calls, t, n);
    } else if s.loaded {
      var i: nat :| LoadedBy(schema, before, s, i);
      OldLoad(schema, calls, i);
      OtherCallKeepsLayers(schema, calls, Gathered(schema, calls[i].inputs).value, calls[i].inputs.file.path, calls[i].inputs.file.loaded);
      assert LoadedBy(schema, calls, t, i);
    } else {
      NoLoad(schema, calls);
    }
  }

  /** A successful Load publishes what it resolved; without one the object stays loaded or not. */
  lemma {:induction false} NewLoad(schema: Schema, calls: Calls)
    requires ValidSchema(schema) && calls != []
    ensures var n := |calls| - 1;
            var s, t := Run(schema, calls[..n]), Run(schema, calls);
            && (Loads(schema, calls, n) ==>
                  && t.loaded && calls[n].LoadCall?
                  && var inputs := calls[n].inputs;
                     && Gathered(schema, inputs).Done?
                     && Resolved(schema, Gathered(schema, inputs).value.(set_ := t.set_), inputs.file.path, inputs.file.loaded) == Done(t.st))
            && (!Loads(schema, calls, n) ==> t.loaded == s.loaded)
  {
    hide Resolved, Gathered;
  }

  /** A call that is not a successful Load resolves the layers of the one before it again. */
  lemma {:induction false} OtherCallKeepsLayers(schema: Schema, calls: Calls, layers: Layers, path: string, fileLoaded: bool)
    requires ValidSchema(schema) && calls != [] && !Loads(schema, calls, |calls| - 1)
    requires var s := Run(schema, calls[..|calls| - 1]);
             s.loaded && Resolved(schema, layers.(set_ := s.set_), path, fileLoaded) == Done(s.st)
    ensures var t := Run(schema, calls);
            Resolved(schema, layers.(set_ := t.set_), path, fileLoaded) == Done(t.st)
  {
    var s := Run(schema, calls[..|calls| - 1]);
    SetKeepsLayers(schema, layers.(set_ := s.set_), path, fileLoaded);
    hide Resolved, Gathered;
  }

  /** The state keeps the layers, the path and the flag it was resolved from. */
  lemma {:induction false} SetKeepsLayers(schema: Schema, layers: Layers, path: string, fileLoaded: bool)
    requires ValidSchema(schema)
    ensures var r := Resolved(schema, layers, path, fileLoaded);
            r.Done? ==> r.value.layers == layers && r.value.path == path && r.value.fileLoaded == fileLoaded
  {
  }

  lemma LoadedResolves(schema: Schema, calls: Calls)
    requires ValidSchema(schema) && Run(schema, calls).loaded
    ensures var st := Run(schema, calls).st;
            Resolved(schema, st.layers, st.path, st.fileLoaded) == Done(st)
  {
    RunIsCurrent(schema, calls);
    hide Run, Resolved, Gathered, SetsKept, LastLoad, After, ValidSchema;
    var s := Run(schema, calls);
    var i: nat :| LoadedBy(schema, calls, s, i);
    var inputs := calls[i].inputs;
    SetKeepsLayers(schema, Gathered(schema, inputs).value.(set_ := s.set_), inputs.file.path, inputs.file.loaded);
  }

  /** Validate resolves the published layers once more; that never fails, whatever was called
      before: its only failures are an object that no Load has filled and its own options. */
  lemma ValidateDecides(schema: Schema, calls: Calls, setup: Option<Failure>)
    requires ValidSchema(schema)
    ensures var s := Run(schema, calls);
            After(schema, s, ValidateCall(setup)) ==
            if !s.loaded then Failed(ConflictKind) else if setup.Some? then Failed(setup.value) else Done(s)
  {
    hide Run, Resolved, Gathered, ValidSchema;
    if Run(schema, calls).loaded {
      LoadedResolves(schema, calls);
    }
  }

  // ----- what every key holds -----

  /** The published value, source and presence of a key agree with these layers. */
  ghost predicate Shows(schema: Schema, layers: Layers, f: Field, st: State) {
    var w := Winner(layers, f.key);
    && (w == SourceNone ==> f.key !in st.values && f.key !in st.origins)
    && (w != SourceNone ==>
          && f.key in layers.Of(w)
          && f.key in st.values && Some(st.values[f.key]) == schema.coerce(f.key, layers.Of(w)[f.key])
          && f.key in st.origins && st.origins[f.key].source == w)
    && (forall src :: src != SourceNone ==> src in st.present && (f.key in st.present[src] <==> f.key in layers.Of(src)))
  }

  lemma {:induction false} NoFailureBefore(schema: Schema, layers: Layers, k: nat, i: nat)
    requires i < k <= |schema.fields| && CoerceFailure(schema, layers, k).None?
    ensures FieldFailure(schema, layers, schema.fields[i]).None?
    decreases k
  {
    if i < k - 1 {
      NoFailureBefore(schema, layers, k - 1, i);
    }
  }

  lemma ResolvedShows(schema: Schema, layers: Layers, path: string, fileLoaded: bool, f: Field)
    requires ValidSchema(schema) && f in schema.fields && Resolved(schema, layers, path, fileLoaded).Done?
    ensures Shows(schema, layers, f, Resolved(schema, layers, path, fileLoaded).value)
  {
    ResolvedParts(schema, layers, path, fileLoaded);
    var i :| 0 <= i < |schema.fields| && schema.fields[i] == f;
    NoFailureBefore(schema, layers, |schema.fields|, i);
    WinnerIsHighest(layers, f.key);
    hide Winner, CoerceFailure, Resolved, ValuesOf, OriginsOf;
    var st := Resolved(schema, layers, path, fileLoaded).value;
    if Winner(layers, f.key) != SourceNone {
      ValueAt(schema, layers, f);
      OriginAt(schema, layers, path, f);
    } else {
      NothingAt(schema, layers, path, f);
    }
    PresentAt(layers, f.key);
  }

  lemma ResolvedParts(schema: Schema, layers: Layers, path: string, fileLoaded: bool)
    requires ValidSchema(schema) && Resolved(schema, layers, path, fileLoaded).Done?
    ensures CoerceFailure(schema, layers, |schema.fields|).None?
    ensures var st := Resolved(schema, layers, path, fileLoaded).value;
            && st.values == ValuesOf(schema, layers, schema.fields)
            && st.origins == OriginsOf(schema, layers, path, schema.fields)
            && st.present == PresentIn(layers)
  {
    hide ValuesOf, OriginsOf, CoerceFailure;
  }

  lemma PresentAt(layers: Layers, key: Key)
    ensures forall src :: src != SourceNone ==> src in PresentIn(layers) && (key in PresentIn(layers)[src] <==> key in layers.Of(src))
  {
  }

  lemma ValueAt(schema: Schema, layers: Layers, f: Field)
    requires f in schema.fields && Resolvable(schema, layers, f.key)
    ensures f.key in ValuesOf(schema, layers, schema.fields)
    ensures ValuesOf(schema, layers, schema.fields)[f.key] == schema.coerce(f.key, RawOf(layers, f.key)).value
  {
    hide Winner, RawOf;
    assert f.key in Keys(schema.fields);
  }

  lemma NothingAt(schema: Schema, layers: Layers, path: string, f: Field)
    requires ValidSchema(schema) && f in schema.fields && Winner(layers, f.key) == SourceNone
    ensures f.key !in ValuesOf(schema, layers, schema.fields)
    ensures f.key !in OriginsOf(schema, layers, path, schema.fields)
  {
    hide Winner, OriginOf;
    assert !Resolvable(schema, layers, f.key);
  }

  lemma OriginAt(schema: Schema, layers: Layers, path: string, f: Field)
    requires ValidSchema(schema) && f in schema.fields && Resolvable(schema, layers, f.key)
    ensures f.key in OriginsOf(schema, layers, path, schema.fields)
    ensures OriginsOf(schema, layers, path, schema.fields)[f.key] == OriginOf(layers, path, f)
  {
    hide Resolvable, OriginOf;
    forall g | g in schema.fields && g.key == f.key
      ensures g == f
    {
    }
  }

  /** After any calls, once loaded, each key is decided by its last successful Set if there is one,
      and otherwise by the layer of highest precedence that the last successful Load saw; Source and
      HasSource say the same. Failed calls leave no trace. */
  lemma ValueAfterRun(schema: Schema, calls: Calls, f: Field)
    requires ValidSchema(schema) && f in schema.fields && Run(schema, calls).loaded
    ensures var s := Run(schema, calls);
            exists l: nat :: LastLoad(schema, calls, l) && Gathered(schema, calls[l].inputs).Done?
              && Shows(schema, Gathered(schema, calls[l].inputs).value.(set_ := s.set_), f, s.st)
    ensures var s := Run(schema, calls);
            if f.key in s.set_ then
              && (exists t: nat :: LastSet(schema, calls, f.key, t) && calls[t].value == s.set_[f.key])
              && f.key in s.st.values && Some(s.st.values[f.key]) == schema.coerce(f.key, s.set_[f.key])
              && f.key in s.st.origins && s.st.origins[f.key].source == SourceSet
            else NeverSet(schema, calls, f.key)
  {
    RunIsCurrent(schema, calls);
    var s := Run(schema, calls);
    assert KeyKept(schema, calls, f.key, s.set_);
    hide Resolved, Run, Gathered, Shows, SetsKept, LastLoad, LastSet, NeverSet;
    var l: nat :| LoadedBy(schema, calls, s, l);
    var inputs := calls[l].inputs;
    var layers := Gathered(schema, inputs).value.(set_ := s.set_);
    ResolvedShows(schema, layers, inputs.file.path, inputs.file.loaded, f);
    if f.key in s.set_ {
      SetWins(schema, layers, f, s.st);
    }
  }

  lemma SetWins(schema: Schema, layers: Layers, f: Field, st: State)
    requires Shows(schema, layers, f, st) && f.key in layers.set_
    ensures f.key in st.values && Some(st.values[f.key]) == schema.coerce(f.key, layers.set_[f.key])
    ensures f.key in st.origins && st.origins[f.key].source == SourceSet
  {
    assert f.key in layers.Of(PRECEDENCE[0]);
    assert Winner(layers, f.key) == SourceSet;
  }
}
