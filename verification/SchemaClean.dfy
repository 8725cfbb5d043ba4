/** Exactly which documents the rewrite leaves without a "null" in a `type` array. */
module SchemaClean {
  import opened Wrappers
  import opened NullableSchema
  import opened SchemaCollapse
  import opened SchemaNulls

  /** What the conditions below ask about the rewrite of one object: the combinator under
      which it collapses, if any, and whether narrowing leaves a "null" in its type. */
  datatype Rewriting = Rewriting(keyOf: Object -> Option<string>, listsNull: Object -> bool)

  const REWRITING := Rewriting(KeyOf, ListsNullAfter)

  function KeyOf(members: Object): Option<string> {
    CollapsingKey(TypeNarrowed(NormalizedMembers(members)))
  }

  predicate ListsNullAfter(members: Object) {
    ListsNull(TypeNarrowed(NormalizedMembers(members)))
  }

  predicate StaysOption(part: Json) {
    NotNullSchema(Normalized(part))
  }

  /** The parts of a document that become the entries of a value rewritten to an array:
      its own entries, or, if it is an object that collapses to an array, those of the
      option that is left. */
  function Parts(value: Json, r: Rewriting): (parts: seq<Json>)
    ensures forall p :: p in parts ==> p < value
    decreases value
  {
    match value
    case Arr(items) => items
    case Obj(members) =>
      var key := r.keyOf(members);
      if key.Some? && key.value in members then
        var kept := Filter(StaysOption, Parts(members[key.value], r));
        assert kept != [] ==> kept[0] in kept;
        assert members[key.value] < value;
        if |kept| == 1 then Parts(kept[0], r) else []
      else []
    case _ => []
  }

  /** The options left under a combinator. */
  function Kept(argument: Json, r: Rewriting): (kept: seq<Json>)
    ensures forall p :: p in kept ==> p < argument
  {
    Filter(StaysOption, Parts(argument, r))
  }

  /** What the rewrite leaves of a document lists no "null". Only what survives a collapse
      counts: the options that are no null schemas, and the siblings not replaced by the
      last of them. */
  predicate Clean(value: Json, r: Rewriting)
    decreases value
  {
    match value
    case Obj(members) =>
      var key := r.keyOf(members);
      if key.Some? && key.value in members then
        var kept := Kept(members[key.value], r);
        var survivors := NormalizedItems(kept);
        assert members[key.value] < value;
        assert forall i :: 0 <= i < |kept| ==> kept[i] in kept;
        && (forall i :: 0 <= i < |kept| ==> Clean(kept[i], r))
        && (SiblingsStay(survivors) ==>
              && ("type" !in OwnKeywords(survivors) ==> !r.listsNull(members))
              && forall k :: k in members && k != key.value && k !in OwnKeywords(survivors) ==> Clean(members[k], r))
      else
        !r.listsNull(members) && forall k :: k in members ==> Clean(members[k], r)
    case Arr(items) => forall i :: 0 <= i < |items| ==> Clean(items[i], r)
    case _ => true
  }

  lemma {:induction false} KeptAreSurvivors(parts: seq<Json>)
    ensures NormalizedItems(Filter(StaysOption, parts)) == Filter(NotNullSchema, NormalizedItems(parts))
  {
    if parts != [] {
      KeptAreSurvivors(parts[1..]);
      assert NormalizedItems(parts)[1..] == NormalizedItems(parts[1..]);
      var rest := Filter(StaysOption, parts[1..]);
      assert ([parts[0]] + rest)[1..] == rest;
    }
  }

  /** The rewrite of an object, given its members after narrowing. */
  lemma ObjectRewritten(members: Object) returns (narrowed: Object)
    ensures REWRITING.keyOf(members) == CollapsingKey(narrowed)
    ensures REWRITING.listsNull(members) == ListsNull(narrowed)
    ensures forall k :: k in narrowed <==> k in members
    ensures forall k :: k in members ==> (NoNullListed(narrowed[k]) <==> NoNullListed(Normalized(members[k])))
    ensures forall k :: k in members && Combinator(k) ==> narrowed[k] == Normalized(members[k])
    ensures Normalized(Obj(members)) ==
            match CollapsingKey(narrowed)
            case None => Obj(narrowed)
            case Some(key) => Collapsed(narrowed, key).value
  {
    narrowed := TypeNarrowed(NormalizedMembers(members));
    NarrowedMembers(NormalizedMembers(members));
    RewrittenByKey(members);
  }

  lemma NarrowedMembers(members: Object)
    ensures forall k :: k in TypeNarrowed(members) <==> k in members
    ensures forall k :: k in members ==> (NoNullListed(TypeNarrowed(members)[k]) <==> NoNullListed(members[k]))
    ensures forall k :: k in members && k != "type" ==> TypeNarrowed(members)[k] == members[k]
  {
    forall k | k in members
      ensures k in TypeNarrowed(members) && (NoNullListed(TypeNarrowed(members)[k]) <==> NoNullListed(members[k]))
    {
      NarrowedMember(members, k);
    }
  }

  lemma RewrittenByKey(members: Object)
    ensures var narrowed := TypeNarrowed(NormalizedMembers(members));
            Normalized(Obj(members)) ==
            match CollapsingKey(narrowed)
            case None => Obj(narrowed)
            case Some(key) => Collapsed(narrowed, key).value
  {
    NormalizedByKey(NormalizedMembers(members));
    assert Normalized(Obj(members)) == NormalizedObject(NormalizedMembers(members));
  }

  /** The parts are what the entries are the normal forms of. */
  lemma {:induction false} PartsNormalize(value: Json)
    requires Normalized(value).Arr?
    ensures NormalizedItems(Parts(value, REWRITING)) == Normalized(value).items
    decreases value, 0
  {
    if value.Obj? {
      var members := value.members;
      var _ := ObjectRewritten(members);
      var key := REWRITING.keyOf(members).value;
      var kept := Kept(members[key], REWRITING);
      SurvivorsAreKept(members, key);
      assert |kept| == 1 && kept[0] in kept && members[key] < value;
      PartsNormalize(kept[0]);
    }
  }

  /** The survivors of a collapse are the normal forms of the options kept. */
  lemma {:induction false} SurvivorsAreKept(members: Object, key: string)
    requires REWRITING.keyOf(members) == Some(key) && key in members
    requires Normalized(members[key]).Arr?
    ensures Filter(NotNullSchema, Normalized(members[key]).items) == NormalizedItems(Kept(members[key], REWRITING))
    decreases members[key], 1
  {
    PartsNormalize(members[key]);
    KeptAreSurvivors(Parts(members[key], REWRITING));
  }

  /** What the output of a collapsing object lists, by the normal forms of its members. */
  lemma CollapsedRewritten(members: Object, key: string)
    requires REWRITING.keyOf(members) == Some(key)
    ensures key in members && Normalized(members[key]).Arr?
    ensures var survivors := Filter(NotNullSchema, Normalized(members[key]).items);
            NoNullListed(Normalized(Obj(members))) <==>
            && (forall i :: 0 <= i < |survivors| ==> NoNullListed(survivors[i]))
            && (SiblingsStay(survivors) ==>
                  && ("type" !in OwnKeywords(survivors) ==> !REWRITING.listsNull(members))
                  && forall k :: k in members && k != key && k !in OwnKeywords(survivors) ==>
                       NoNullListed(Normalized(members[k])))
  {
    var narrowed := ObjectRewritten(members);
    CollapsedLists(narrowed, key);
  }

  /** One object, collapsed. */
  lemma CollapsedExactly(members: Object, key: string)
    requires REWRITING.keyOf(members) == Some(key) && key in members
    requires forall k :: k in members ==> (NoNullListed(Normalized(members[k])) <==> Clean(members[k], REWRITING))
    requires forall p :: p in Kept(members[key], REWRITING) ==> (NoNullListed(Normalized(p)) <==> Clean(p, REWRITING))
    ensures NoNullListed(Normalized(Obj(members))) <==> Clean(Obj(members), REWRITING)
  {
    CollapsedRewritten(members, key);
    SurvivorsAreKept(members, key);
    var kept := Kept(members[key], REWRITING);
    forall i | 0 <= i < |kept|
      ensures NoNullListed(NormalizedItems(kept)[i]) <==> Clean(kept[i], REWRITING)
    {
      assert kept[i] in kept;
    }
  }

  /** One object that does not collapse. */
  lemma WholeExactly(members: Object)
    requires REWRITING.keyOf(members) == None
    requires forall k :: k in members ==> (NoNullListed(Normalized(members[k])) <==> Clean(members[k], REWRITING))
    ensures NoNullListed(Normalized(Obj(members))) <==> Clean(Obj(members), REWRITING)
  {
    var narrowed := ObjectRewritten(members);
    assert Normalized(Obj(members)) == Obj(narrowed);
  }

  /** For every document: no `type` array of the output lists "null" if and only if the
      document is clean. */
  lemma {:induction false} NoNullListedExactly(value: Json)
    ensures NoNullListed(Normalized(value)) <==> Clean(value, REWRITING)
    decreases value
  {
    match value
    case Obj(members) =>
      forall k | k in members
        ensures NoNullListed(Normalized(members[k])) <==> Clean(members[k], REWRITING)
      {
        NoNullListedExactly(members[k]);
      }
      var key := REWRITING.keyOf(members);
      if key.Some? {
        var _ := ObjectRewritten(members);
        forall p | p in Kept(members[key.value], REWRITING)
          ensures NoNullListed(Normalized(p)) <==> Clean(p, REWRITING)
        {
          assert members[key.value] < value;
          NoNullListedExactly(p);
        }
        CollapsedExactly(members, key.value);
      } else {
        WholeExactly(members);
      }
    case Arr(items) =>
      forall i | 0 <= i < |items|
        ensures NoNullListed(Normalized(items[i])) <==> Clean(items[i], REWRITING)
      {
        NoNullListedExactly(items[i]);
      }
    case _ =>
  }
}
