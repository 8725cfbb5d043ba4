/** Where the rewrite removes "null" from `type` arrays, and where it falls short. */
module SchemaNulls {
  import opened Wrappers
  import opened NullableSchema
  import opened SchemaCollapse
  import opened SchemaMeaning

  /** Some `type` array directly in the object lists "null". */
  predicate ListsNull(members: Object) {
    "type" in members && members["type"].Arr? && NULL_TYPE in members["type"].items
  }

  /** No `type` array anywhere in the value lists "null". */
  predicate NoNullListed(value: Json) {
    match value
    case Obj(members) => !ListsNull(members) && forall k :: k in members ==> NoNullListed(members[k])
    case Arr(items) => forall i :: 0 <= i < |items| ==> NoNullListed(items[i])
    case _ => true
  }

  /** The array under a key, if there is one, has no arrays among its entries. */
  predicate FlatUnder(members: Object, key: string) {
    key in members && members[key].Arr? ==>
      forall i :: 0 <= i < |members[key].items| ==> !members[key].items[i].Arr?
  }

  /** As in any schema: the entries of a `type` array are plain values, and the options of
      a combinator are not arrays. */
  predicate PlainTypes(value: Json) {
    match value
    case Obj(members) =>
      && FlatUnder(members, "type") && FlatUnder(members, "anyOf") && FlatUnder(members, "oneOf")
      && ("type" in members && members["type"].Arr? ==> Inert(members["type"]))
      && forall k :: k in members ==> PlainTypes(members[k])
    case Arr(items) => forall i :: 0 <= i < |items| ==> PlainTypes(items[i])
    case _ => true
  }

  /** After narrowing, an object's `type` array lists "null" exactly when the only entry
      left was itself an array that lists it. */
  lemma NarrowingExact(members: Object)
    ensures ListsNull(TypeNarrowed(members)) <==>
            "type" in members && members["type"].Arr? &&
            var left := Filter(NotNullType, members["type"].items);
            |left| == 1 && left[0].Arr? && NULL_TYPE in left[0].items
  {
  }

  /** The step above leaves a "null" nowhere in the value. */
  predicate NowhereLeft(value: Json) {
    match value
    case Obj(members) =>
      && !ListsNull(TypeNarrowed(NormalizedMembers(members)))
      && forall k :: k in members ==> NowhereLeft(members[k])
    case Arr(items) => forall i :: 0 <= i < |items| ==> NowhereLeft(items[i])
    case _ => true
  }

  /** Narrowing changes at most the `type` array, and drops only entries that are no
      arrays or objects. */
  lemma NarrowedMember(members: Object, k: string)
    requires k in members
    ensures k in TypeNarrowed(members) && (NoNullListed(TypeNarrowed(members)[k]) <==> NoNullListed(members[k]))
  {
    if k == "type" && members[k].Arr? {
      var types := members[k].items;
      var filtered := Filter(NotNullType, types);
      forall i | 0 <= i < |types|
        ensures NoNullListed(types[i]) || types[i] in filtered
      {
      }
      EntriesClean(types, filtered);
    }
  }

  lemma EntriesClean(items: seq<Json>, filtered: seq<Json>)
    requires forall x :: x in filtered ==> x in items
    requires forall i :: 0 <= i < |items| ==> NoNullListed(items[i]) || items[i] in filtered
    ensures NoNullListed(Arr(filtered)) <==> NoNullListed(Arr(items))
    ensures |filtered| == 1 ==> (NoNullListed(filtered[0]) <==> NoNullListed(Arr(items)))
  {
    if NoNullListed(Arr(items)) {
      forall i | 0 <= i < |filtered|
        ensures NoNullListed(filtered[i])
      {
        assert filtered[i] in items;
      }
    }
  }

  /** The keywords a single surviving option brings along. */
  function OwnKeywords(survivors: seq<Json>): Object {
    if |survivors| == 1 && survivors[0].Obj? then survivors[0].members else map[]
  }

  /** A single option that is no object replaces all its siblings. */
  predicate SiblingsStay(survivors: seq<Json>) {
    |survivors| == 1 ==> survivors[0].Obj?
  }

  /** After a collapse the survivors are left, and of the siblings those that the survivor
      does not replace: all of them unless it is the only one. */
  lemma CollapsedLists(schema: Object, key: string)
    requires Combinator(key) && Collapses(schema, key)
    ensures var survivors := Survivors(schema, key); var own := OwnKeywords(survivors);
            NoNullListed(Collapsed(schema, key).value) <==>
            && (forall i :: 0 <= i < |survivors| ==> NoNullListed(survivors[i]))
            && (SiblingsStay(survivors) ==>
                  && ("type" !in own ==> !ListsNull(schema))
                  && forall k :: k in schema && k != key && k !in own ==> NoNullListed(schema[k]))
  {
    var survivors := Survivors(schema, key);
    if |survivors| != 1 {
      ReplacedMembers(schema, key, survivors);
    } else if survivors[0].Obj? {
      MergedMembers(schema, key, survivors[0].members);
    }
  }

  lemma ReplacedMembers(schema: Object, key: string, survivors: seq<Json>)
    requires Combinator(key) && key in schema
    ensures NoNullListed(Obj(schema[key := Arr(survivors)])) <==>
            && NoNullListed(Arr(survivors)) && !ListsNull(schema)
            && forall k :: k in schema && k != key ==> NoNullListed(schema[k])
  {
    var rest := schema[key := Arr(survivors)];
    assert ListsNull(rest) == ListsNull(schema);
    assert rest[key] == Arr(survivors);
    assert forall k :: k in schema && k != key ==> k in rest && rest[k] == schema[k];
  }

  lemma MergedMembers(schema: Object, key: string, survivor: Object)
    requires Combinator(key)
    ensures NoNullListed(Obj(Merged(schema, key, survivor))) <==>
            && NoNullListed(Obj(survivor)) && ("type" !in survivor ==> !ListsNull(schema))
            && forall k :: k in schema && k != key && k !in survivor ==> NoNullListed(schema[k])
  {
    var merged := Merged(schema, key, survivor);
    assert forall k :: k in survivor ==> k in merged && merged[k] == survivor[k];
    assert forall k :: k in schema && k != key && k !in survivor ==> k in merged && merged[k] == schema[k];
    assert forall k :: k in merged ==> k in survivor || (k in schema && k != key && k !in survivor);
    assert ListsNull(merged) == if "type" in survivor then ListsNull(survivor) else ListsNull(schema);
  }

  lemma ObjectStepsList(members: Object)
    requires forall k :: k in members ==> NoNullListed(members[k])
    requires !ListsNull(TypeNarrowed(members))
    ensures NoNullListed(NormalizedObject(members))
  {
    var narrowed := TypeNarrowed(members);
    forall k | k in members
      ensures NoNullListed(narrowed[k])
    {
      NarrowedMember(members, k);
    }
    NormalizedByKey(members);
    var key := CollapsingKey(narrowed);
    if key.Some? {
      CollapsedLists(narrowed, key.value);
      var options := narrowed[key.value].items;
      assert NoNullListed(narrowed[key.value]);
      forall x | x in Survivors(narrowed, key.value)
        ensures NoNullListed(x)
      {
        assert x in options;
      }
    }
  }

  /** Nothing but an array is rewritten to an array. */
  lemma {:induction false} ArraysStayArrays(value: Json)
    requires PlainTypes(value)
    ensures Normalized(value).Arr? <==> value.Arr?
  {
    if value.Obj? {
      var members := value.members;
      var narrowed := TypeNarrowed(NormalizedMembers(members));
      forall key | Combinator(key) && Collapses(narrowed, key)
        ensures forall x :: x in Survivors(narrowed, key) ==> !x.Arr?
      {
        ArraysStayArrays(members[key]);
        assert members[key].Arr?;
        var options := members[key].items;
        forall i | 0 <= i < |options|
          ensures !Normalized(options[i]).Arr?
        {
          ArraysStayArrays(options[i]);
        }
        assert narrowed[key] == Arr(NormalizedItems(options));
      }
      assert Normalized(value) == NormalizedObject(NormalizedMembers(members));
      if Collapsed(narrowed, "anyOf").Some? {
        CollapsedNotArray(narrowed, "anyOf");
      } else if Collapsed(narrowed, "oneOf").Some? {
        CollapsedNotArray(narrowed, "oneOf");
      }
    }
  }

  lemma CollapsedNotArray(schema: Object, key: string)
    requires Combinator(key) && Collapses(schema, key)
    requires forall x :: x in Survivors(schema, key) ==> !x.Arr?
    ensures !Collapsed(schema, key).value.Arr?
  {
    var survivors := Survivors(schema, key);
    if |survivors| == 1 {
      assert survivors[0] in survivors;
    }
  }

  lemma NarrowedListsNothing(members: Object)
    requires PlainTypes(Obj(members))
    ensures !ListsNull(TypeNarrowed(NormalizedMembers(members)))
  {
    var members' := NormalizedMembers(members);
    if "type" in members {
      ArraysStayArrays(members["type"]);
      if members["type"].Arr? {
        InertUnchanged(members["type"]);
        forall x | x in Filter(NotNullType, members["type"].items)
          ensures !x.Arr?
        {
          assert x in members["type"].items;
        }
      }
    }
    NarrowingExact(members');
  }

  lemma {:induction false} PlainTypesLeaveNothing(value: Json)
    requires PlainTypes(value)
    ensures NowhereLeft(value)
  {
    match value
    case Obj(members) =>
      NarrowedListsNothing(members);
      forall k | k in members
        ensures NowhereLeft(members[k])
      {
        PlainTypesLeaveNothing(members[k]);
      }
    case Arr(items) =>
      forall i | 0 <= i < |items|
        ensures NowhereLeft(items[i])
      {
        PlainTypesLeaveNothing(items[i]);
      }
    case _ =>
  }

  /** No `type` array of the output lists "null" if no narrowing leaves one. */
  lemma {:induction false} NoNullListedAfter(value: Json)
    requires NowhereLeft(value)
    ensures NoNullListed(Normalized(value))
  {
    match value
    case Obj(members) =>
      var members' := NormalizedMembers(members);
      forall k | k in members
        ensures NoNullListed(members'[k])
      {
        NoNullListedAfter(members[k]);
      }
      ObjectStepsList(members');
      assert Normalized(value) == NormalizedObject(members');
    case Arr(items) =>
      forall i | 0 <= i < |items|
        ensures NoNullListed(Normalized(items[i]))
      {
        NoNullListedAfter(items[i]);
      }
    case _ =>
  }

  /** In particular for every document whose `type` arrays list plain values. */
  lemma PlainTypesListNoNull(value: Json)
    requires PlainTypes(value)
    ensures NoNullListed(Normalized(value))
  {
    PlainTypesLeaveNothing(value);
    NoNullListedAfter(value);
  }

  function NestedType(): Object {
    map["type" := Arr([Arr([NULL_TYPE]), NULL_TYPE])]
  }

  lemma NestedTypeNarrowed()
    ensures TypeNarrowed(NestedType()) == map["type" := Arr([NULL_TYPE])]
  {
    var types := NestedType()["type"].items;
    assert Filter(NotNullType, types[1..]) == [];
    assert Filter(NotNullType, types) == [Arr([NULL_TYPE])];
  }

  /** Outside that shape it can fail: a `type` array with a nested array keeps a "null". */
  lemma NestedTypeKeepsNull()
    ensures Normalized(Obj(NestedType())) == Obj(map["type" := Arr([NULL_TYPE])])
    ensures !NoNullListed(Normalized(Obj(NestedType())))
  {
    var members := NestedType();
    InertUnchanged(members["type"]);
    assert NormalizedMembers(members) == members;
    NestedTypeNarrowed();
    assert Normalized(Obj(members)) == NormalizedObject(members);
  }

  // ---------------------------------------------------------------------------
  // Where the meaning is lost
  // ---------------------------------------------------------------------------

  /** A combinator with the null schema next to one option. */
  function Nullable(option: Json): Json {
    Arr([option, NullSchema()])
  }

  lemma NullableSurvivor(option: Json)
    requires NotNullSchema(option) && Normalized(option) == option
    ensures NormalizedItems(Nullable(option).items) == Nullable(option).items
    ensures Filter(NotNullSchema, Nullable(option).items) == [option]
  {
    NullSchemaUnchanged();
    NormalizedPair(option, NullSchema());
    FilteredPair(NotNullSchema, option, NullSchema());
  }

  lemma NormalizedPair(a: Json, b: Json)
    ensures NormalizedItems([a, b]) == [Normalized(a), Normalized(b)]
  {
  }

  lemma FilteredPair(keep: Json -> bool, a: Json, b: Json)
    requires keep(a) && !keep(b)
    ensures Filter(keep, [a, b]) == [a]
  {
    assert [a, b][1..] == [b] && [b][1..] == [];
    assert Filter(keep, [b]) == [];
  }

  function NullSchema(): Json {
    Obj(map["type" := NULL_TYPE])
  }

  lemma NullSchemaUnchanged()
    ensures Normalized(NullSchema()) == NullSchema()
  {
    var members := NullSchema().members;
    assert NormalizedMembers(members) == members;
    assert Normalized(NullSchema()) == NormalizedObject(NormalizedMembers(members));
  }

  /** When the option left is `true` instead of an object, its siblings are dropped: what
      they reject is accepted after the rewrite. */
  lemma PlainSurvivorLosesSiblings(s: Semantics, value: Json)
    requires !HasType(s, "string", value)
    ensures var schema := Obj(StringOrNullableAnything());
            && Normalized(schema) == Bool(true)
            && Accepts(s, Normalized(schema), value) && !Accepts(s, schema, value)
  {
    AnythingRemains();
    assert !KeywordHolds(s, "type", StringOrNullableAnything()["type"], value);
  }

  function StringOrNullableAnything(): Object {
    map["anyOf" := Nullable(Bool(true)), "type" := Str("string")]
  }

  lemma AnythingRemains()
    ensures Normalized(Obj(StringOrNullableAnything())) == Bool(true)
  {
    var members := StringOrNullableAnything();
    NullableSurvivor(Bool(true));
    assert NormalizedMembers(members) == members;
    assert Normalized(Obj(members)) == NormalizedObject(NormalizedMembers(members));
  }

  /** The schema of the example below. */
  function IntegerOrNullableNumber(): Object {
    map["oneOf" := Nullable(NumberSchema()), "type" := Str("integer")]
  }

  function NumberSchema(): Json {
    Obj(map["type" := Str("number")])
  }

  lemma NumberSchemaUnchanged()
    ensures Normalized(NumberSchema()) == NumberSchema()
  {
    var members := NumberSchema().members;
    assert NormalizedMembers(members) == members;
    assert Normalized(Obj(members)) == NormalizedObject(NormalizedMembers(members));
  }

  /** A nullable object under `oneOf` takes in its siblings. */
  lemma NullableOneOfCollapses(members: Object, option: Object)
    requires "anyOf" !in members && "oneOf" in members && members["oneOf"] == Nullable(Obj(option))
    requires "type" in members ==> !members["type"].Arr?
    requires NotNullSchema(Obj(option)) && NormalizedMembers(members) == members
    ensures Normalized(Obj(members)) == Obj(Merged(members, "oneOf", option))
  {
    assert Normalized(Obj(members)) == NormalizedObject(members);
    var items := Nullable(Obj(option)).items;
    assert items[1..][1..] == [];
    assert Filter(NotNullSchema, items[1..]) == [];
    assert Filter(NotNullSchema, items) == [Obj(option)];
  }

  lemma MembersUnchanged()
    ensures NormalizedMembers(IntegerOrNullableNumber()) == IntegerOrNullableNumber()
  {
    NumberSchemaUnchanged();
    NullableSurvivor(NumberSchema());
  }

  lemma NumberTakesOver()
    ensures Merged(IntegerOrNullableNumber(), "oneOf", NumberSchema().members) == NumberSchema().members
  {
  }

  lemma NumberRemains()
    ensures Normalized(Obj(IntegerOrNullableNumber())) == NumberSchema()
  {
    MembersUnchanged();
    NumberTakesOver();
    NullableOneOfCollapses(IntegerOrNullableNumber(), NumberSchema().members);
  }

  /** When the option left has a keyword of its siblings with another argument, the
      sibling's is dropped: here a number is accepted where an integer was asked for. */
  lemma SharedKeywordLosesSibling(s: Semantics, value: Json)
    requires HasType(s, "number", value) && !HasType(s, "integer", value)
    ensures var schema := Obj(IntegerOrNullableNumber());
            Accepts(s, Normalized(schema), value) && !Accepts(s, schema, value)
  {
    NumberRemains();
    assert !KeywordHolds(s, "type", IntegerOrNullableNumber()["type"], value);
  }
}
