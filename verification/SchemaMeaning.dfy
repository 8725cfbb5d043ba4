/** The rewrite of a whole schema keeps its meaning on values without nulls. */
module SchemaMeaning {
  import opened Wrappers
  import opened NullableSchema
  import opened SchemaCollapse

  // ---------------------------------------------------------------------------
  // Schemas
  // ---------------------------------------------------------------------------

  /** No object anywhere inside: the rewrite leaves the value alone. */
  predicate Inert(value: Json) {
    match value
    case Obj(_) => false
    case Arr(items) => forall i :: 0 <= i < |items| ==> Inert(items[i])
    case _ => true
  }

  /** The keywords a schema is made of have arguments of the right kind, and the rewrite
      leaves the arguments of all other keywords alone. */
  predicate Shaped(schema: Json)
    decreases schema, 0
  {
    match schema
    case Bool(_) => true
    case Obj(members) => forall k :: k in members ==> ShapedKeyword(k, members[k])
    case _ => false
  }

  predicate ShapedKeyword(keyword: string, argument: Json)
    decreases argument, 1
  {
    if keyword == "type" then TypeNames(argument)
    else if Combinator(keyword) || keyword == "allOf" then
      argument.Arr? && forall i :: 0 <= i < |argument.items| ==> Shaped(argument.items[i])
    else if keyword == "properties" then
      argument.Obj? && forall k :: k in argument.members ==> Shaped(argument.members[k])
    else if keyword == "items" || keyword == "not" then Shaped(argument)
    else Normalized(argument) == argument
  }

  /** For this value, and for the parts of it that the schema looks at, every collapse in
      the schema is harmless. */
  predicate HarmlessIn(s: Semantics, schema: Json, value: Json)
    decreases schema, 0
  {
    match schema
    case Obj(members) =>
      && (forall k :: k in members ==> HarmlessUnder(s, k, members[k], value))
      && ObjectHarmless(s, NormalizedMembers(members), value)
    case _ => true
  }

  predicate HarmlessUnder(s: Semantics, keyword: string, argument: Json, value: Json)
    decreases argument, 1
  {
    if (Combinator(keyword) || keyword == "allOf") && argument.Arr? then
      forall i :: 0 <= i < |argument.items| ==> HarmlessIn(s, argument.items[i], value)
    else if keyword == "properties" && argument.Obj? then
      value.Obj? ==>
        forall k :: k in argument.members && k in value.members ==>
          HarmlessIn(s, argument.members[k], value.members[k])
    else if keyword == "items" then
      value.Arr? ==> forall i :: 0 <= i < |value.items| ==> HarmlessIn(s, argument, value.items[i])
    else if keyword == "not" then HarmlessIn(s, argument, value)
    else true
  }

  /** A schema in which every collapse loses nothing. */
  predicate WellFormed(schema: Json)
    decreases schema, 0
  {
    match schema
    case Bool(_) => true
    case Obj(members) =>
      && (forall k :: k in members ==> WellFormedKeyword(k, members[k]))
      && ObjectLosesNothing(NormalizedMembers(members))
    case _ => false
  }

  predicate WellFormedKeyword(keyword: string, argument: Json)
    decreases argument, 1
  {
    if keyword == "type" then TypeNames(argument)
    else if Combinator(keyword) || keyword == "allOf" then
      argument.Arr? && forall i :: 0 <= i < |argument.items| ==> WellFormed(argument.items[i])
    else if keyword == "properties" then
      argument.Obj? && forall k :: k in argument.members ==> WellFormed(argument.members[k])
    else if keyword == "items" || keyword == "not" then WellFormed(argument)
    else Normalized(argument) == argument
  }

  lemma {:induction false} WellFormedIsShaped(schema: Json)
    requires WellFormed(schema)
    ensures Shaped(schema)
    decreases schema, 0
  {
    if schema.Obj? {
      forall k | k in schema.members
        ensures ShapedKeyword(k, schema.members[k])
      {
        WellFormedKeywordIsShaped(k, schema.members[k]);
      }
    }
  }

  lemma {:induction false} WellFormedKeywordIsShaped(keyword: string, argument: Json)
    requires WellFormedKeyword(keyword, argument)
    ensures ShapedKeyword(keyword, argument)
    decreases argument, 1
  {
    if keyword == "type" {
    } else if Combinator(keyword) || keyword == "allOf" {
      forall i | 0 <= i < |argument.items|
        ensures Shaped(argument.items[i])
      {
        WellFormedIsShaped(argument.items[i]);
      }
    } else if keyword == "properties" {
      forall k | k in argument.members
        ensures Shaped(argument.members[k])
      {
        WellFormedIsShaped(argument.members[k]);
      }
    } else if keyword == "items" || keyword == "not" {
      WellFormedIsShaped(argument);
    }
  }

  lemma {:induction false} WellFormedIsHarmless(s: Semantics, schema: Json, value: Json)
    requires WellFormed(schema)
    ensures HarmlessIn(s, schema, value)
    decreases schema, 0
  {
    if schema.Obj? {
      var members := schema.members;
      forall k | k in members
        ensures HarmlessUnder(s, k, members[k], value)
      {
        WellFormedKeywordIsHarmless(s, k, members[k], value);
      }
      ObjectLosesNothingIsHarmless(s, NormalizedMembers(members), value);
    }
  }

  lemma ObjectLosesNothingIsHarmless(s: Semantics, members: Object, value: Json)
    requires ObjectLosesNothing(members)
    ensures ObjectHarmless(s, members, value)
  {
    var key := CollapsingKey(TypeNarrowed(members));
    if key.Some? {
      LosesNothingIsHarmless(s, TypeNarrowed(members), key.value, value);
    }
  }

  lemma {:induction false} WellFormedKeywordIsHarmless(s: Semantics, keyword: string, argument: Json, value: Json)
    requires WellFormedKeyword(keyword, argument)
    ensures HarmlessUnder(s, keyword, argument, value)
    decreases argument, 1
  {
    if keyword == "type" {
    } else if Combinator(keyword) || keyword == "allOf" {
      forall i | 0 <= i < |argument.items|
        ensures HarmlessIn(s, argument.items[i], value)
      {
        WellFormedIsHarmless(s, argument.items[i], value);
      }
    } else if keyword == "properties" && value.Obj? {
      forall k | k in argument.members && k in value.members
        ensures HarmlessIn(s, argument.members[k], value.members[k])
      {
        WellFormedIsHarmless(s, argument.members[k], value.members[k]);
      }
    } else if keyword == "items" && value.Arr? {
      forall i | 0 <= i < |value.items|
        ensures HarmlessIn(s, argument, value.items[i])
      {
        WellFormedIsHarmless(s, argument, value.items[i]);
      }
    } else if keyword == "not" {
      WellFormedIsHarmless(s, argument, value);
    }
  }

  // ---------------------------------------------------------------------------
  // Shape
  // ---------------------------------------------------------------------------

  lemma {:induction false} InertUnchanged(value: Json)
    requires Inert(value)
    ensures Normalized(value) == value
  {
    if value.Arr? {
      var items := value.items;
      forall i | 0 <= i < |items|
        ensures Normalized(items[i]) == items[i]
      {
        InertUnchanged(items[i]);
      }
      assert NormalizedItems(items) == items;
    }
  }

  lemma TypeUnchanged(types: Json)
    requires TypeNames(types)
    ensures Normalized(types) == types
  {
    InertUnchanged(types);
  }

  /** A normalized schema is again an object, true or false. */
  lemma {:induction false} NormalizedIsSchema(schema: Json)
    requires Shaped(schema)
    ensures Normalized(schema).Obj? || Normalized(schema).Bool?
  {
    if schema.Obj? {
      var members := schema.members;
      var members' := NormalizedMembers(members);
      var narrowed := TypeNarrowed(members');
      forall key | Combinator(key) && key in members
        ensures narrowed[key] == Arr(NormalizedItems(members[key].items))
        ensures forall x :: x in narrowed[key].items ==> x.Obj? || x.Bool?
      {
        NormalizedOptions(key, members[key]);
      }
      assert Normalized(schema) == NormalizedObject(members');
      CollapsedIsSchema(members');
    }
  }

  lemma {:induction false} NormalizedOptions(key: string, argument: Json)
    requires Combinator(key) && ShapedKeyword(key, argument)
    ensures forall x :: x in NormalizedItems(argument.items) ==> x.Obj? || x.Bool?
    decreases argument
  {
    forall i | 0 <= i < |argument.items|
      ensures Normalized(argument.items[i]).Obj? || Normalized(argument.items[i]).Bool?
    {
      NormalizedIsSchema(argument.items[i]);
    }
  }

  lemma CollapsedIsSchema(members: Object)
    requires var narrowed := TypeNarrowed(members);
             forall key :: Combinator(key) && key in narrowed && narrowed[key].Arr? ==>
               forall x :: x in narrowed[key].items ==> x.Obj? || x.Bool?
    ensures NormalizedObject(members).Obj? || NormalizedObject(members).Bool?
  {
    NormalizedByKey(members);
    var narrowed := TypeNarrowed(members);
    var key := CollapsingKey(narrowed);
    if key.Some? && |Survivors(narrowed, key.value)| == 1 {
      assert Survivors(narrowed, key.value)[0] in narrowed[key.value].items;
    }
  }

  /** The object under `properties` is not mistaken for a schema. */
  lemma PropertiesMapped(properties: Object)
    requires forall k :: k in properties ==> Shaped(properties[k])
    ensures Normalized(Obj(properties)) == Obj(NormalizedMembers(properties))
  {
    var members := NormalizedMembers(properties);
    forall k | k in members
      ensures !members[k].Arr?
    {
      NormalizedIsSchema(properties[k]);
    }
    assert Normalized(Obj(properties)) == NormalizedObject(members);
  }

  // ---------------------------------------------------------------------------
  // The whole rewrite
  // ---------------------------------------------------------------------------

  /** The rewrite keeps the meaning of a schema object for a value exactly when its own
      collapse is harmless for that value, as long as those inside it are. */
  lemma {:induction false} MeaningKeptExactly(s: Semantics, members: Object, value: Json)
    requires Shaped(Obj(members)) && NullFree(value)
    requires forall k :: k in members ==> HarmlessUnder(s, k, members[k], value)
    ensures Accepts(s, Normalized(Obj(members)), value) == Accepts(s, Obj(members), value)
            <==> ObjectHarmless(s, NormalizedMembers(members), value)
    decreases Obj(members), 0
  {
    var members' := NormalizedMembers(members);
    forall k | k in members
      ensures KeywordHolds(s, k, members'[k], value) == KeywordHolds(s, k, members[k], value)
    {
      KeywordPreserved(s, k, members[k], value);
    }
    SameKeywords(s, members', members, value);
    if "type" in members {
      TypeUnchanged(members["type"]);
    }
    ObjectKeptExactly(s, members', value);
    assert Normalized(Obj(members)) == NormalizedObject(members');
  }

  /** Meaning preservation: a value without nulls for which no collapse does harm
      validates against the normalized schema exactly when it validates against the
      original. */
  lemma {:induction false} MeaningPreservedFor(s: Semantics, schema: Json, value: Json)
    requires Shaped(schema) && NullFree(value) && HarmlessIn(s, schema, value)
    ensures Accepts(s, Normalized(schema), value) == Accepts(s, schema, value)
    decreases schema, 1
  {
    if schema.Obj? {
      MeaningKeptExactly(s, schema.members, value);
    }
  }

  /** For a schema in which every collapse loses nothing that is every value without
      nulls. */
  lemma MeaningPreserved(s: Semantics, schema: Json, value: Json)
    requires WellFormed(schema) && NullFree(value)
    ensures Accepts(s, Normalized(schema), value) == Accepts(s, schema, value)
  {
    WellFormedIsShaped(schema);
    WellFormedIsHarmless(s, schema, value);
    MeaningPreservedFor(s, schema, value);
  }

  lemma {:induction false} KeywordPreserved(s: Semantics, keyword: string, argument: Json, value: Json)
    requires ShapedKeyword(keyword, argument) && NullFree(value) && HarmlessUnder(s, keyword, argument, value)
    ensures KeywordHolds(s, keyword, Normalized(argument), value) == KeywordHolds(s, keyword, argument, value)
    decreases argument, 2
  {
    if keyword == "type" {
      TypeUnchanged(argument);
    } else if Combinator(keyword) || keyword == "allOf" {
      OptionsPreserved(s, argument.items, value);
    } else if keyword == "properties" {
      PropertiesPreserved(s, argument.members, value);
    } else if keyword == "not" {
      MeaningPreservedFor(s, argument, value);
    } else if keyword == "items" {
      if value.Arr? {
        forall i | 0 <= i < |value.items|
          ensures Accepts(s, Normalized(argument), value.items[i]) == Accepts(s, argument, value.items[i])
        {
          MeaningPreservedFor(s, argument, value.items[i]);
        }
      }
    }
  }

  lemma {:induction false} PropertiesPreserved(s: Semantics, properties: Object, value: Json)
    requires ShapedKeyword("properties", Obj(properties)) && NullFree(value)
    requires HarmlessUnder(s, "properties", Obj(properties), value)
    ensures KeywordHolds(s, "properties", Normalized(Obj(properties)), value)
            == KeywordHolds(s, "properties", Obj(properties), value)
    decreases Obj(properties), 0
  {
    PropertiesMapped(properties);
    var properties' := NormalizedMembers(properties);
    if value.Obj? {
      forall k | k in properties && k in value.members
        ensures Accepts(s, properties'[k], value.members[k]) == Accepts(s, properties[k], value.members[k])
      {
        MeaningPreservedFor(s, properties[k], value.members[k]);
      }
    }
  }

  lemma {:induction false} OptionsPreserved(s: Semantics, options: seq<Json>, value: Json)
    requires forall i :: 0 <= i < |options| ==> Shaped(options[i]) && HarmlessIn(s, options[i], value)
    requires NullFree(value)
    ensures AcceptedBy(s, NormalizedItems(options), value) == AcceptedBy(s, options, value)
    decreases options, 0
  {
    if options != [] {
      MeaningPreservedFor(s, options[0], value);
      OptionsPreserved(s, options[1..], value);
      assert NormalizedItems(options)[1..] == NormalizedItems(options[1..]);
    }
  }
}
