/** What the output of the rewrite looks like, beyond what it accepts. */
module SchemaShape {
  import opened Wrappers
  import opened NullableSchema
  import opened SchemaCollapse

  /** A nullable `type` array with one other name becomes that name alone, and nothing else
      of the object changes. */
  lemma NullableTypeNarrowed(members: Object, types: seq<Json>, i: nat)
    requires "type" in members && members["type"] == Arr(types)
    requires i < |types| && types[i] != Str("null")
    requires forall j :: 0 <= j < |types| && j != i ==> types[j] == Str("null")
    ensures TypeNarrowed(members) == members["type" := types[i]]
  {
    OneNameLeft(types, i);
  }

  lemma {:induction false} OneNameLeft(types: seq<Json>, i: nat)
    requires i < |types| && types[i] != Str("null")
    requires forall j :: 0 <= j < |types| && j != i ==> types[j] == Str("null")
    ensures Filter(NotNullType, types) == [types[i]]
  {
    if i > 0 {
      OneNameLeft(types[1..], i - 1);
    } else {
      NoNameLeft(types[1..]);
    }
  }

  lemma {:induction false} NoNameLeft(types: seq<Json>)
    requires forall j :: 0 <= j < |types| ==> types[j] == Str("null")
    ensures Filter(NotNullType, types) == []
  {
    if types != [] {
      NoNameLeft(types[1..]);
    }
  }

  /** A `type` array with several names keeps them in order, without the nulls. */
  lemma {:induction false} NamesKeepOrder(a: seq<Json>, b: seq<Json>)
    ensures Filter(NotNullType, a + [Str("null")] + b) == Filter(NotNullType, a) + Filter(NotNullType, b)
  {
    if a == [] {
      assert [] + [Str("null")] + b == [Str("null")] + b && ([Str("null")] + b)[1..] == b;
    } else {
      assert (a + [Str("null")] + b)[1..] == a[1..] + [Str("null")] + b;
      NamesKeepOrder(a[1..], b);
    }
  }

  // ---------------------------------------------------------------------------
  // Null options
  // ---------------------------------------------------------------------------

  /** A combinator directly in the object has a null schema among its options. */
  predicate OffersNull(members: Object, key: string) {
    key in members && members[key].Arr? && exists i :: 0 <= i < |members[key].items| && IsNullSchema(members[key].items[i])
  }

  predicate NoNullOption(value: Json) {
    match value
    case Obj(members) =>
      && !OffersNull(members, "anyOf") && !OffersNull(members, "oneOf")
      && forall k :: k in members ==> NoNullOption(members[k])
    case Arr(items) => forall i :: 0 <= i < |items| ==> NoNullOption(items[i])
    case _ => true
  }

  lemma {:induction false} NothingFiltered(options: seq<Json>)
    ensures |Filter(NotNullSchema, options)| == |options| <==> forall i :: 0 <= i < |options| ==> !IsNullSchema(options[i])
  {
    if options != [] {
      NothingFiltered(options[1..]);
    }
  }

  lemma CollapsesExactly(members: Object, key: string)
    ensures Collapses(members, key) <==> OffersNull(members, key)
  {
    if key in members && members[key].Arr? {
      NothingFiltered(members[key].items);
    }
  }

  /** Both combinators have a null option. The first is collapsed, and the second stays,
      unless the only option left of the first replaces it. */
  predicate SecondStays(narrowed: Object) {
    Collapses(narrowed, "anyOf") && Collapses(narrowed, "oneOf") &&
    var survivors := Survivors(narrowed, "anyOf");
    |survivors| == 1 ==> survivors[0].Obj? && "oneOf" !in survivors[0].members
  }

  /** If the members of an object offer no null, what the rewrite makes of it offers one
      exactly when the second combinator stays. */
  lemma NullOptionLeftExactly(members: Object)
    requires forall k :: k in members ==> NoNullOption(members[k])
    ensures NoNullOption(NormalizedObject(members)) <==> !SecondStays(TypeNarrowed(members))
  {
    var narrowed := TypeNarrowed(members);
    NarrowedOffers(members);
    NormalizedByKey(members);
    CollapsesExactly(narrowed, "anyOf");
    CollapsesExactly(narrowed, "oneOf");
    var key := CollapsingKey(narrowed);
    if key.Some? {
      var other := if key.value == "anyOf" then "oneOf" else "anyOf";
      CollapsesExactly(narrowed, other);
      CollapsedOffers(narrowed, key.value, other);
    }
  }

  lemma NarrowedOffers(members: Object)
    requires forall k :: k in members ==> NoNullOption(members[k])
    ensures forall k :: k in TypeNarrowed(members) ==> NoNullOption(TypeNarrowed(members)[k])
  {
    var narrowed := TypeNarrowed(members);
    if "type" in members && members["type"].Arr? {
      FilteredOffers(NotNullType, members["type"].items);
    }
  }

  lemma FilteredOffers(keep: Json -> bool, items: seq<Json>)
    requires NoNullOption(Arr(items))
    ensures NoNullOption(Arr(Filter(keep, items)))
    ensures forall i :: 0 <= i < |Filter(keep, items)| ==> NoNullOption(Filter(keep, items)[i])
  {
    forall i | 0 <= i < |Filter(keep, items)|
      ensures NoNullOption(Filter(keep, items)[i])
    {
      assert Filter(keep, items)[i] in items;
    }
  }

  /** The collapsed combinator offers no null; the other one offers it if it stays and
      did. */
  lemma CollapsedOffers(schema: Object, key: string, other: string)
    requires Combinator(key) && Combinator(other) && key != other && Collapses(schema, key)
    requires forall k :: k in schema ==> NoNullOption(schema[k])
    ensures var survivors := Survivors(schema, key);
            NoNullOption(Collapsed(schema, key).value) <==>
            !OffersNull(schema, other)
            || (|survivors| == 1 && !(survivors[0].Obj? && other !in survivors[0].members))
  {
    var survivors := Survivors(schema, key);
    FilteredOffers(NotNullSchema, schema[key].items);
    if |survivors| != 1 {
      ReplacedOffers(schema, key, other, survivors);
    } else if survivors[0].Obj? {
      MergedOffers(schema, key, other, survivors[0].members);
    }
  }

  lemma ReplacedOffers(schema: Object, key: string, other: string, survivors: seq<Json>)
    requires Combinator(key) && Combinator(other) && key != other && Collapses(schema, key)
    requires forall k :: k in schema ==> NoNullOption(schema[k])
    requires survivors == Survivors(schema, key) && NoNullOption(Arr(survivors))
    ensures NoNullOption(Obj(schema[key := Arr(survivors)])) <==> !OffersNull(schema, other)
  {
    var rest := schema[key := Arr(survivors)];
    forall i | 0 <= i < |survivors|
      ensures !IsNullSchema(survivors[i])
    {
      assert survivors[i] in survivors;
    }
    assert !OffersNull(rest, key);
    assert OffersNull(rest, other) <==> OffersNull(schema, other);
    assert forall k :: k in rest ==> NoNullOption(rest[k]);
  }

  lemma MergedOffers(schema: Object, key: string, other: string, survivor: Object)
    requires Combinator(key) && Combinator(other) && key != other
    requires forall k :: k in schema ==> NoNullOption(schema[k])
    requires NoNullOption(Obj(survivor))
    ensures NoNullOption(Obj(Merged(schema, key, survivor))) <==> !(other !in survivor && OffersNull(schema, other))
  {
    var merged := Merged(schema, key, survivor);
    MergedKeywords(schema, key, survivor);
    assert !OffersNull(merged, key);
    assert forall k :: k in merged ==> NoNullOption(merged[k]);
    assert OffersNull(merged, other) <==> other !in survivor && OffersNull(schema, other);
  }

  /** Nowhere in the document does a second combinator stay. */
  predicate NoSecondStays(value: Json) {
    match value
    case Obj(members) =>
      !SecondStays(TypeNarrowed(NormalizedMembers(members))) && forall k :: k in members ==> NoSecondStays(members[k])
    case Arr(items) => forall i :: 0 <= i < |items| ==> NoSecondStays(items[i])
    case _ => true
  }

  /** Then no combinator of the output has a null schema among its options. */
  lemma {:induction false} NoNullOptionAfter(value: Json)
    requires NoSecondStays(value)
    ensures NoNullOption(Normalized(value))
  {
    match value
    case Obj(members) =>
      forall k | k in members
        ensures NoNullOption(Normalized(members[k]))
      {
        NoNullOptionAfter(members[k]);
      }
      NullOptionLeftExactly(NormalizedMembers(members));
      assert Normalized(value) == NormalizedObject(NormalizedMembers(members));
    case Arr(items) =>
      forall i | 0 <= i < |items|
        ensures NoNullOption(Normalized(items[i]))
      {
        NoNullOptionAfter(items[i]);
      }
    case _ =>
  }

  // ---------------------------------------------------------------------------
  // Nothing to do
  // ---------------------------------------------------------------------------

  /** No `type` array has a null or a single name, and no combinator has a null option. */
  predicate AlreadyPlain(value: Json) {
    match value
    case Obj(members) =>
      && ("type" in members && members["type"].Arr? ==>
            |members["type"].items| != 1 && Str("null") !in members["type"].items)
      && !OffersNull(members, "anyOf") && !OffersNull(members, "oneOf")
      && forall k :: k in members ==> AlreadyPlain(members[k])
    case Arr(items) => forall i :: 0 <= i < |items| ==> AlreadyPlain(items[i])
    case _ => true
  }

  /** Such a document is left as it is. */
  lemma {:induction false} PlainUnchanged(value: Json)
    requires AlreadyPlain(value)
    ensures Normalized(value) == value
  {
    match value
    case Obj(members) =>
      forall k | k in members
        ensures Normalized(members[k]) == members[k]
      {
        PlainUnchanged(members[k]);
      }
      assert NormalizedMembers(members) == members;
      PlainObjectUnchanged(members);
      assert Normalized(value) == NormalizedObject(NormalizedMembers(members));
    case Arr(items) =>
      forall i | 0 <= i < |items|
        ensures Normalized(items[i]) == items[i]
      {
        PlainUnchanged(items[i]);
      }
      assert NormalizedItems(items) == items;
    case _ =>
  }

  lemma PlainObjectUnchanged(members: Object)
    requires AlreadyPlain(Obj(members))
    ensures NormalizedObject(members) == Obj(members)
  {
    if "type" in members && members["type"].Arr? {
      AllNamesKept(members["type"].items);
    }
    assert TypeNarrowed(members) == members;
    CollapsesExactly(members, "anyOf");
    CollapsesExactly(members, "oneOf");
    NormalizedByKey(members);
  }

  lemma {:induction false} AllNamesKept(types: seq<Json>)
    requires Str("null") !in types
    ensures Filter(NotNullType, types) == types
  {
    if types != [] {
      AllNamesKept(types[1..]);
    }
  }
}
