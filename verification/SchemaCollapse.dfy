/** What the rewrite of one schema object does to what it accepts, its members being
    rewritten already. */
module SchemaCollapse {
  import opened Wrappers
  import opened NullableSchema

  function NormalizedMembers(members: Object): Object {
    map key | key in members :: Normalized(members[key])
  }

  predicate Combinator(key: string) {
    key == "anyOf" || key == "oneOf"
  }

  predicate Collapses(schema: Object, key: string) {
    key in schema && schema[key].Arr? && |Survivors(schema, key)| != |schema[key].items|
  }

  function Survivors(schema: Object, key: string): seq<Json>
    requires key in schema && schema[key].Arr?
  {
    Filter(NotNullSchema, schema[key].items)
  }

  // ---------------------------------------------------------------------------
  // Narrowing
  // ---------------------------------------------------------------------------

  predicate TypeNames(types: Json) {
    types.Str? || (types.Arr? && forall i :: 0 <= i < |types.items| ==> types.items[i].Str?)
  }

  lemma TypeNarrowingKept(s: Semantics, members: Object, value: Json)
    requires value != Null
    requires "type" in members ==> TypeNames(members["type"])
    ensures Accepts(s, Obj(TypeNarrowed(members)), value) == Accepts(s, Obj(members), value)
  {
    var narrowed := TypeNarrowed(members);
    if "type" in members && members["type"].Arr? {
      NarrowedTypeHolds(s, members["type"].items, value);
      assert KeywordHolds(s, "type", narrowed["type"], value) == KeywordHolds(s, "type", members["type"], value);
      SameKeywords(s, members, narrowed, value);
    }
  }

  lemma NarrowedTypeHolds(s: Semantics, types: seq<Json>, value: Json)
    requires value != Null && forall i :: 0 <= i < |types| ==> types[i].Str?
    ensures var filtered := Filter(NotNullType, types);
            && TypeHolds(s, Arr(filtered), value) == TypeHolds(s, Arr(types), value)
            && (|filtered| == 1 ==> filtered[0].Str? && TypeHolds(s, filtered[0], value) == TypeHolds(s, Arr(types), value))
  {
    var filtered := Filter(NotNullType, types);
    if TypeHolds(s, Arr(types), value) {
      var i :| 0 <= i < |types| && types[i].Str? && HasType(s, types[i].text, value);
      assert types[i] in filtered;
    }
    if TypeHolds(s, Arr(filtered), value) {
      var i :| 0 <= i < |filtered| && filtered[i].Str? && HasType(s, filtered[i].text, value);
      assert filtered[i] in types;
    }
    if |filtered| == 1 {
      assert filtered[0] in types;
    }
  }

  /** Two objects with the same keywords, each holding for one exactly when it holds for
      the other, accept the same values. */
  lemma SameKeywords(s: Semantics, a: Object, b: Object, value: Json)
    requires forall k :: k in a <==> k in b
    requires forall k :: k in a ==> KeywordHolds(s, k, a[k], value) == KeywordHolds(s, k, b[k], value)
    ensures Accepts(s, Obj(a), value) == Accepts(s, Obj(b), value)
  {
  }

  // ---------------------------------------------------------------------------
  // Collapsing
  // ---------------------------------------------------------------------------

  /** A null schema accepts nothing but null, so dropping it keeps every count. */
  lemma {:induction false} NullOptionsNeverCount(s: Semantics, options: seq<Json>, value: Json)
    requires value != Null
    ensures AcceptedBy(s, Filter(NotNullSchema, options), value) == AcceptedBy(s, options, value)
  {
    if options != [] {
      NullOptionsNeverCount(s, options[1..], value);
      if IsNullSchema(options[0]) {
        assert !KeywordHolds(s, "type", options[0].members["type"], value);
      } else {
        var rest := Filter(NotNullSchema, options[1..]);
        assert ([options[0]] + rest)[1..] == rest;
      }
    }
  }

  /** With one option left the combinator says what that option says. */
  lemma OneOptionLeft(s: Semantics, schema: Object, key: string, value: Json)
    requires Combinator(key) && Collapses(schema, key) && |Survivors(schema, key)| == 1 && value != Null
    ensures KeywordHolds(s, key, schema[key], value) == Accepts(s, Survivors(schema, key)[0], value)
  {
    NullOptionsNeverCount(s, schema[key].items, value);
    var survivors := Survivors(schema, key);
    assert survivors[1..] == [];
    assert AcceptedBy(s, survivors, value) == (if Accepts(s, survivors[0], value) then 1 else 0);
  }

  /** A sibling of the combinator that the single option left takes in; every other
      sibling is dropped for it. */
  predicate TakenIn(schema: Object, key: string, survivor: Json, k: string) {
    k in schema && k != key && survivor.Obj? && k !in survivor.members
  }

  predicate Dropped(schema: Object, key: string, survivor: Json, k: string) {
    k in schema && k != key && !TakenIn(schema, key, survivor, k)
  }

  predicate TakenInHold(s: Semantics, schema: Object, key: string, survivor: Json, value: Json) {
    forall k :: k in schema && TakenIn(schema, key, survivor, k) ==> KeywordHolds(s, k, schema[k], value)
  }

  predicate DroppedHold(s: Semantics, schema: Object, key: string, survivor: Json, value: Json) {
    forall k :: k in schema && Dropped(schema, key, survivor, k) ==> KeywordHolds(s, k, schema[k], value)
  }

  /** What an object with one option left accepts before the collapse. */
  lemma MeaningBefore(s: Semantics, schema: Object, key: string, value: Json)
    requires Combinator(key) && Collapses(schema, key) && |Survivors(schema, key)| == 1 && value != Null
    ensures var survivor := Survivors(schema, key)[0];
            Accepts(s, Obj(schema), value) <==>
            && Accepts(s, survivor, value)
            && TakenInHold(s, schema, key, survivor, value)
            && DroppedHold(s, schema, key, survivor, value)
  {
    OneOptionLeft(s, schema, key, value);
    var survivor := Survivors(schema, key)[0];
    assert forall k :: k in schema ==>
        k == key || TakenIn(schema, key, survivor, k) || Dropped(schema, key, survivor, k);
  }

  /** And after it. */
  lemma MeaningAfter(s: Semantics, schema: Object, key: string, value: Json)
    requires Combinator(key) && Collapses(schema, key) && |Survivors(schema, key)| == 1
    ensures var survivor := Survivors(schema, key)[0];
            && Collapsed(schema, key).Some?
            && (Accepts(s, Collapsed(schema, key).value, value) <==>
                Accepts(s, survivor, value) && TakenInHold(s, schema, key, survivor, value))
  {
    var survivor := Survivors(schema, key)[0];
    if survivor.Obj? {
      MergedMeaning(s, schema, key, survivor.members, value);
    }
  }

  lemma MergedMeaning(s: Semantics, schema: Object, key: string, survivor: Object, value: Json)
    ensures Accepts(s, Obj(Merged(schema, key, survivor)), value) <==>
            Accepts(s, Obj(survivor), value) && TakenInHold(s, schema, key, Obj(survivor), value)
  {
    MergedKeywords(schema, key, survivor);
  }

  lemma MergedKeywords(schema: Object, key: string, survivor: Object)
    ensures var merged := Merged(schema, key, survivor);
            && (forall k :: k in survivor ==> k in merged && merged[k] == survivor[k])
            && (forall k :: TakenIn(schema, key, Obj(survivor), k) ==> k in merged && merged[k] == schema[k])
            && (forall k :: k in merged ==> k in survivor || TakenIn(schema, key, Obj(survivor), k))
  {
  }

  /** Whatever the single option left and the siblings it takes in accept also meets the
      siblings dropped. */
  predicate Harmless(s: Semantics, schema: Object, key: string, value: Json) {
    Collapses(schema, key) && |Survivors(schema, key)| == 1 ==>
      var survivor := Survivors(schema, key)[0];
      Accepts(s, survivor, value) && TakenInHold(s, schema, key, survivor, value) ==>
        DroppedHold(s, schema, key, survivor, value)
  }

  /** A collapse keeps the meaning for a value exactly when it is harmless for it. */
  lemma CollapseKeptExactly(s: Semantics, schema: Object, key: string, value: Json)
    requires Combinator(key) && Collapses(schema, key) && value != Null
    ensures Collapsed(schema, key).Some?
    ensures Accepts(s, Collapsed(schema, key).value, value) == Accepts(s, Obj(schema), value)
            <==> Harmless(s, schema, key, value)
  {
    if |Survivors(schema, key)| == 1 {
      MeaningBefore(s, schema, key, value);
      MeaningAfter(s, schema, key, value);
    } else {
      NullOptionsNeverCount(s, schema[key].items, value);
      SameKeywords(s, schema, schema[key := Arr(Survivors(schema, key))], value);
    }
  }

  /** Seen from the schema alone, a collapse loses nothing if the single option left
      accepts nothing, or says the same as every sibling dropped for it. */
  predicate LosesNothing(schema: Object, key: string) {
    Collapses(schema, key) && |Survivors(schema, key)| == 1 ==>
      var survivor := Survivors(schema, key)[0];
      survivor == Bool(false) ||
      forall k :: k in schema && Dropped(schema, key, survivor, k) ==>
        survivor.Obj? && survivor.members[k] == schema[k]
  }

  /** Then it is harmless for every value. */
  lemma LosesNothingIsHarmless(s: Semantics, schema: Object, key: string, value: Json)
    requires LosesNothing(schema, key)
    ensures Harmless(s, schema, key, value)
  {
    if Collapses(schema, key) && |Survivors(schema, key)| == 1 && Accepts(s, Survivors(schema, key)[0], value) {
      var survivor := Survivors(schema, key)[0];
      forall k | k in schema && Dropped(schema, key, survivor, k)
        ensures KeywordHolds(s, k, schema[k], value)
      {
        assert KeywordHolds(s, k, survivor.members[k], value);
      }
    }
  }

  /** A collapse that loses nothing keeps the meaning. */
  lemma CollapseKept(s: Semantics, schema: Object, key: string, value: Json)
    requires Combinator(key) && value != Null
    requires Collapses(schema, key) && LosesNothing(schema, key)
    ensures Collapsed(schema, key).Some?
    ensures Accepts(s, Collapsed(schema, key).value, value) == Accepts(s, Obj(schema), value)
  {
    LosesNothingIsHarmless(s, schema, key, value);
    CollapseKeptExactly(s, schema, key, value);
  }

  // ---------------------------------------------------------------------------
  // All steps on one object
  // ---------------------------------------------------------------------------

  /** The combinator that the rewrite of an object collapses, if any. */
  function CollapsingKey(narrowed: Object): (key: Option<string>)
    ensures key.Some? ==> Combinator(key.value) && Collapses(narrowed, key.value)
  {
    if Collapses(narrowed, "anyOf") then Some("anyOf")
    else if Collapses(narrowed, "oneOf") then Some("oneOf")
    else None
  }

  lemma NormalizedByKey(members: Object)
    ensures var narrowed := TypeNarrowed(members);
            NormalizedObject(members) ==
            match CollapsingKey(narrowed)
            case None => Obj(narrowed)
            case Some(key) => Collapsed(narrowed, key).value
  {
  }

  predicate ObjectHarmless(s: Semantics, members: Object, value: Json) {
    var narrowed := TypeNarrowed(members);
    CollapsingKey(narrowed).Some? ==> Harmless(s, narrowed, CollapsingKey(narrowed).value, value)
  }

  predicate ObjectLosesNothing(members: Object) {
    var narrowed := TypeNarrowed(members);
    CollapsingKey(narrowed).Some? ==> LosesNothing(narrowed, CollapsingKey(narrowed).value)
  }

  lemma ObjectKeptExactly(s: Semantics, members: Object, value: Json)
    requires value != Null
    requires "type" in members ==> TypeNames(members["type"])
    ensures Accepts(s, NormalizedObject(members), value) == Accepts(s, Obj(members), value)
            <==> ObjectHarmless(s, members, value)
  {
    var narrowed := TypeNarrowed(members);
    TypeNarrowingKept(s, members, value);
    NormalizedByKey(members);
    if CollapsingKey(narrowed).Some? {
      CollapseKeptExactly(s, narrowed, CollapsingKey(narrowed).value, value);
    }
  }
}
