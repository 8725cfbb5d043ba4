/** The rewrite that takes the null alternatives out of a generated OpenAPI document, and
    what a schema accepts. */
module NullableSchema {
  import opened Wrappers

  datatype Json =
    | Null
    | Bool(value: bool)
    | Number(number: int)
    | Str(text: string)
    | Arr(items: seq<Json>)
    | Obj(members: map<string, Json>)

  type Object = map<string, Json>

  const NULL_TYPE := Str("null")

  // ---------------------------------------------------------------------------
  // The rewrite
  // ---------------------------------------------------------------------------

  function Normalized(value: Json): Json {
    match value
    case Obj(members) => NormalizedObject(map key | key in members :: Normalized(members[key]))
    case Arr(items) => Arr(NormalizedItems(items))
    case _ => value
  }

  function NormalizedItems(items: seq<Json>): (r: seq<Json>)
    ensures |r| == |items| && forall i :: 0 <= i < |items| ==> r[i] == Normalized(items[i])
  {
    if items == [] then [] else [Normalized(items[0])] + NormalizedItems(items[1..])
  }

  /** The steps on one object whose members are already normalized. */
  function NormalizedObject(members: Object): Json {
    var narrowed := TypeNarrowed(members);
    match Collapsed(narrowed, "anyOf")
    case Some(result) => result
    case None =>
      match Collapsed(narrowed, "oneOf")
      case Some(result) => result
      case None => Obj(narrowed)
  }

  predicate NotNullType(ty: Json) {
    ty != NULL_TYPE
  }

  predicate NotNullSchema(option: Json) {
    !IsNullSchema(option)
  }

  function Filter(keep: Json -> bool, items: seq<Json>): (r: seq<Json>)
    ensures |r| <= |items|
    ensures |r| == |items| ==> r == items
    ensures forall x :: x in r <==> x in items && keep(x)
  {
    if items == [] then []
    else if keep(items[0]) then [items[0]] + Filter(keep, items[1..])
    else Filter(keep, items[1..])
  }

  /** A `type` array without its "null", and as a single type when one is left. */
  function TypeNarrowed(members: Object): Object {
    if "type" in members && members["type"].Arr? then
      var types := members["type"].items;
      var filtered := Filter(NotNullType, types);
      if |filtered| == 1 then members["type" := filtered[0]]
      else if |filtered| != |types| then members["type" := Arr(filtered)]
      else members
    else members
  }

  predicate IsNullSchema(value: Json) {
    value.Obj? && "type" in value.members && value.members["type"] == NULL_TYPE
  }

  /** A combinator without its null options: gone altogether when one option is left,
      which then takes in the siblings it does not already have. */
  function Collapsed(schema: Object, key: string): Option<Json> {
    if key !in schema || !schema[key].Arr? then None
    else
      var options := schema[key].items;
      var filtered := Filter(NotNullSchema, options);
      if |filtered| == |options| then None
      else if |filtered| == 1 then
        match filtered[0]
        case Obj(remaining) => Some(Obj(Merged(schema, key, remaining)))
        case other => Some(other)
      else Some(Obj(schema[key := Arr(filtered)]))
  }

  function Merged(schema: Object, key: string, remaining: Object): Object {
    remaining + (map k | k in schema && k != key && k !in remaining :: schema[k])
  }

  // ---------------------------------------------------------------------------
  // Meaning
  // ---------------------------------------------------------------------------

  /** What the keywords other than the seven below demand of a value, and which of the
      type names other than "null" a value has. */
  datatype Semantics = Semantics(opaqueHolds: (string, Json, Json) -> bool, hasType: (string, Json) -> bool)

  /** The value has the named type; only null has the type "null". */
  predicate HasType(s: Semantics, name: string, value: Json) {
    if name == "null" then value == Null else s.hasType(name, value)
  }

  predicate TypeHolds(s: Semantics, types: Json, value: Json) {
    match types
    case Str(name) => HasType(s, name, value)
    case Arr(names) => exists i :: 0 <= i < |names| && names[i].Str? && HasType(s, names[i].text, value)
    case _ => false
  }

  /** The schema accepts the value: every keyword of a schema object holds on its own.
      The schemas true and false accept everything and nothing. */
  predicate Accepts(s: Semantics, schema: Json, value: Json)
    decreases schema, 0
  {
    match schema
    case Obj(members) => forall k :: k in members ==> KeywordHolds(s, k, members[k], value)
    case Bool(b) => b
    case _ => true
  }

  predicate KeywordHolds(s: Semantics, keyword: string, argument: Json, value: Json)
    decreases argument, 1
  {
    if keyword == "type" then TypeHolds(s, argument, value)
    else if keyword == "anyOf" && argument.Arr? then AcceptedBy(s, argument.items, value) >= 1
    else if keyword == "oneOf" && argument.Arr? then AcceptedBy(s, argument.items, value) == 1
    else if keyword == "allOf" && argument.Arr? then AcceptedBy(s, argument.items, value) == |argument.items|
    else if keyword == "not" then !Accepts(s, argument, value)
    else if keyword == "properties" && argument.Obj? then
      value.Obj? ==>
        forall k :: k in argument.members && k in value.members ==> Accepts(s, argument.members[k], value.members[k])
    else if keyword == "items" then
      value.Arr? ==> forall i :: 0 <= i < |value.items| ==> Accepts(s, argument, value.items[i])
    else s.opaqueHolds(keyword, argument, value)
  }

  /** How many of the options accept the value. */
  function AcceptedBy(s: Semantics, options: seq<Json>, value: Json): nat
    decreases options, 0
  {
    if options == [] then 0
    else (if Accepts(s, options[0], value) then 1 else 0) + AcceptedBy(s, options[1..], value)
  }

  /** No null anywhere in the value. */
  predicate NullFree(value: Json) {
    match value
    case Null => false
    case Arr(items) => forall i :: 0 <= i < |items| ==> NullFree(items[i])
    case Obj(members) => forall k :: k in members ==> NullFree(members[k])
    case _ => true
  }
}
