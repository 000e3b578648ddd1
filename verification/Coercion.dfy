/** Schema-directed coercion of one argument, nested values included. */
module Coercion {
  import opened Text
  import opened Values

  // ---------------------------------------------------------------------
  // Schemas
  // ---------------------------------------------------------------------

  datatype Type = Named(name: string) | Union(candidates: seq<Type>)

  /** What the coercer reads of a schema; `items` is None unless it is an object. */
  datatype Schema = Schema(
    typ: Option<Type>, enum: Option<seq<Json>>, properties: seq<Property>, items: Option<Schema>)

  datatype Property = Property(name: string, schema: Schema)

  datatype Kind = Integer | Number | Boolean | String | Object | Array | Any

  /** A name that is none of the six accepts every value as it is. */
  function KindOf(name: string): Kind {
    if name == "integer" then Integer
    else if name == "number" then Number
    else if name == "boolean" then Boolean
    else if name == "string" then String
    else if name == "object" then Object
    else if name == "array" then Array
    else Any
  }

  /** What a rejection says the schema expected. */
  datatype Expected = AKind(kind: Kind) | AnyOf(types: seq<Type>) | Among(options: seq<Json>)

  datatype Result = Ok(value: Json) | Err(expected: Expected)

  /** `float(text)` on stripped text, and `str` of a float. */
  datatype Floats = Floats(parse: string -> Option<Float>, show: Float -> string)

  function Find(properties: seq<Property>, name: string): (r: Option<nat>)
    ensures r.Some? ==> r.value < |properties| && properties[r.value].name == name
    ensures r.None? <==> name !in PropertyNames(properties)
  {
    if properties == [] then None
    else if properties[0].name == name then
      assert PropertyNames(properties)[0] == name;
      Some(0)
    else
      assert PropertyNames(properties) == [properties[0].name] + PropertyNames(properties[1..]);
      match Find(properties[1..], name)
      case None => None
      case Some(i) => Some(i + 1)
  }

  function PropertyNames(properties: seq<Property>): seq<string> {
    Mapped(properties, (p: Property) => p.name)
  }

  // ---------------------------------------------------------------------
  // Scalars
  // ---------------------------------------------------------------------

  predicate MeansTrue(word: string) { word in ["true", "yes", "on", "1"] }

  predicate MeansFalse(word: string) { word in ["false", "no", "off", "0"] }

  function AsInteger(f: Floats, v: Json): Option<int> {
    match v
    case Int(n) => Some(n)
    case Float(x) => if x.Whole() then Some(x.AsInt()) else None
    case Str(s) => (
      match ParseInt(Strip(s))
      case Some(n) => Some(n)
      case None =>
        match f.parse(Strip(s))
        case Some(x) => if x.Whole() then Some(x.AsInt()) else None
        case None => None)
    case _ => None
  }

  function AsNumber(f: Floats, v: Json): Option<Json> {
    match v
    case Int(_) => Some(v)
    case Float(_) => Some(v)
    case Str(s) => (
      match f.parse(Strip(s))
      case Some(x) => Some(Json.Float(x))
      case None => None)
    case _ => None
  }

  function AsBoolean(v: Json): Option<bool> {
    match v
    case Bool(b) => Some(b)
    case Str(s) =>
      var word := Lower(Strip(s));
      if MeansTrue(word) then Some(true) else if MeansFalse(word) then Some(false) else None
    case Int(n) => if n == 0 || n == 1 then Some(n == 1) else None
    case _ => None
  }

  function AsString(f: Floats, v: Json): Option<string> {
    match v
    case Str(s) => Some(s)
    case Bool(b) => Some(if b then "true" else "false")
    case Int(n) => Some(Dec(n))
    case Float(x) => Some(f.show(x))
    case _ => None
  }

  // ---------------------------------------------------------------------
  // The recursive rewrite
  // ---------------------------------------------------------------------

  function CoerceKind(f: Floats, kind: Kind, s: Schema, v: Json): Option<Json>
    decreases s, 1
  {
    match kind
    case Integer => (match AsInteger(f, v) case Some(n) => Some(Int(n)) case None => None)
    case Number => AsNumber(f, v)
    case Boolean => (match AsBoolean(v) case Some(b) => Some(Bool(b)) case None => None)
    case String => (match AsString(f, v) case Some(t) => Some(Str(t)) case None => None)
    case Object =>
      if !v.Obj? then None
      else Some(Obj(seq(|v.members|, i requires 0 <= i < |v.members| => CoerceMember(f, s, v.members[i]))))
    case Array =>
      if !v.Arr? then None
      else if s.items.None? then Some(v)
      else Some(Arr(seq(|v.items|, i requires 0 <= i < |v.items| => CoerceInner(f, s.items.value, v.items[i]))))
    case Any => Some(v)
  }

  /** A nested member is rewritten when it is declared, not null and coercible; else it is kept. */
  function CoerceMember(f: Floats, s: Schema, m: Member): Member
    decreases s, 0
  {
    match Find(s.properties, m.name)
    case None => m
    case Some(i) => Member(m.name, CoerceInner(f, s.properties[i].schema, m.value))
  }

  function CoerceInner(f: Floats, s: Schema, v: Json): Json
    decreases s, 4
  {
    if v.Null? then v
    else match Coerce(f, s, v)
      case Ok(r) => r
      case Err(_) => v
  }

  function CoerceType(f: Floats, t: Type, s: Schema, v: Json): Result
    decreases s, 2, t
  {
    match t
    case Named(name) => (
      match CoerceKind(f, KindOf(name), s, v)
      case Some(r) => Ok(r)
      case None => Err(AKind(KindOf(name))))
    case Union(_) => CoerceFirst(f, t, 0, s, v)
  }

  /** The first candidate that accepts the value. */
  function CoerceFirst(f: Floats, t: Type, i: nat, s: Schema, v: Json): Result
    requires t.Union? && i <= |t.candidates|
    decreases s, 2, t, |t.candidates| - i
  {
    if i == |t.candidates| then Err(AnyOf(t.candidates))
    else
      var r := CoerceType(f, t.candidates[i], s, v);
      if r.Ok? then r else CoerceFirst(f, t, i + 1, s, v)
  }

  /** An absent type, "" and [] all leave the value as it is. */
  predicate Typed(s: Schema) {
    s.typ.Some? && s.typ.value != Named("") && s.typ.value != Union([])
  }

  function Coerce(f: Floats, s: Schema, v: Json): Result
    decreases s, 3
  {
    var typed := if Typed(s) then CoerceType(f, s.typ.value, s, v) else Ok(v);
    if typed.Ok? && s.enum.Some? && !OneOf(typed.value, s.enum.value) then Err(Among(s.enum.value)) else typed
  }

  lemma MembersRewritten(f: Floats, s: Schema, v: Json)
    requires v.Obj?
    ensures var r := CoerceKind(f, Object, s, v);
      && r.Some? && r.value.Obj? && |r.value.members| == |v.members|
      && forall i :: 0 <= i < |v.members| ==> r.value.members[i] == CoerceMember(f, s, v.members[i])
  {}

  lemma ItemsRewritten(f: Floats, s: Schema, v: Json)
    requires v.Arr? && s.items.Some?
    ensures var r := CoerceKind(f, Array, s, v);
      && r.Some? && r.value.Arr? && |r.value.items| == |v.items|
      && forall i :: 0 <= i < |v.items| ==> r.value.items[i] == CoerceInner(f, s.items.value, v.items[i])
  {}

  // ---------------------------------------------------------------------
  // The loops over members and items
  // ---------------------------------------------------------------------

  /** `_as_object`: the members are copied, then each declared one is rewritten in place. */
  method AsObject(f: Floats, s: Schema, v: Json) returns (r: Option<Json>)
    requires Distinct(PropertyNames(s.properties)) && (v.Obj? ==> Distinct(Names(v.members)))
    ensures r == CoerceKind(f, Object, s, v)
  {
    if !v.Obj? { return None; }
    if s.properties == [] {
      assert CoerceKind(f, Object, s, v).value.members == v.members;
      return Some(v);
    }
    var result := v.members;
    for p := 0 to |s.properties|
      invariant |result| == |v.members|
      invariant forall i :: 0 <= i < |result| ==>
        result[i] == if v.members[i].name in PropertyNames(s.properties)[..p] then CoerceMember(f, s, v.members[i])
                     else v.members[i]
    {
      var property := s.properties[p];
      var at := PositionOf(result, property.name);
      assert Names(result) == Names(v.members);
      assert PropertyNames(s.properties)[..p + 1] == PropertyNames(s.properties)[..p] + [property.name];
      if at.Some? {
        FindAt(s.properties, p);
        var coerced := CoerceInner(f, property.schema, result[at.value].value);
        forall i | 0 <= i < |result| && i != at.value ensures v.members[i].name != property.name {
          assert Names(v.members)[i] != Names(v.members)[at.value];
        }
        result := result[at.value := Member(property.name, coerced)];
      }
    }
    assert result == CoerceKind(f, Object, s, v).value.members;
    r := Some(Obj(result));
  }

  function PositionOf(members: seq<Member>, name: string): (r: Option<nat>)
    ensures r.Some? ==> r.value < |members| && members[r.value].name == name
    ensures r.None? ==> forall i :: 0 <= i < |members| ==> members[i].name != name
  {
    if members == [] then None
    else if members[0].name == name then Some(0)
    else match PositionOf(members[1..], name)
      case None => None
      case Some(i) => Some(i + 1)
  }

  lemma {:induction false} FindAt(properties: seq<Property>, i: nat)
    requires i < |properties| && Distinct(PropertyNames(properties))
    ensures Find(properties, properties[i].name) == Some(i)
  {
    if i > 0 {
      assert PropertyNames(properties)[0] != PropertyNames(properties)[i];
      assert PropertyNames(properties[1..]) == PropertyNames(properties)[1..];
      FindAt(properties[1..], i - 1);
    }
  }

  /** `_as_array`. */
  method AsArray(f: Floats, s: Schema, v: Json) returns (r: Option<Json>)
    ensures r == CoerceKind(f, Array, s, v)
  {
    if !v.Arr? { return None; }
    if s.items.None? { return Some(v); }
    var result: seq<Json> := [];
    for i := 0 to |v.items|
      invariant |result| == i
      invariant forall k :: 0 <= k < i ==> result[k] == CoerceInner(f, s.items.value, v.items[k])
    {
      var item := v.items[i];
      if item.Null? {
        result := result + [item];
      } else {
        var coerced := Coerce(f, s.items.value, item);
        result := result + [if coerced.Ok? then coerced.value else item];
      }
    }
    assert result == CoerceKind(f, Array, s, v).value.items;
    r := Some(Arr(result));
  }

  // ---------------------------------------------------------------------
  // A union behaves as its named candidates in order
  // ---------------------------------------------------------------------

  function Kinds(t: Type): seq<Kind>
    decreases t
  {
    match t
    case Named(name) => [KindOf(name)]
    case Union(_) => KindsFrom(t, 0)
  }

  function KindsFrom(t: Type, i: nat): seq<Kind>
    requires t.Union? && i <= |t.candidates|
    decreases t, |t.candidates| - i
  {
    if i == |t.candidates| then [] else Kinds(t.candidates[i]) + KindsFrom(t, i + 1)
  }

  /** Candidate `i` is the first that accepts the value, and makes it `r`. */
  predicate Accepts(f: Floats, kinds: seq<Kind>, s: Schema, v: Json, i: nat, r: Json) {
    && i < |kinds|
    && CoerceKind(f, kinds[i], s, v) == Some(r)
    && forall k :: 0 <= k < i ==> CoerceKind(f, kinds[k], s, v) == None
  }

  ghost predicate Outcome(f: Floats, kinds: seq<Kind>, s: Schema, v: Json, outcome: Result) {
    match outcome
    case Ok(r) => exists i :: Accepts(f, kinds, s, v, i, r)
    case Err(_) => forall k :: 0 <= k < |kinds| ==> CoerceKind(f, kinds[k], s, v) == None
  }

  lemma OutcomeAppend(f: Floats, a: seq<Kind>, b: seq<Kind>, s: Schema, v: Json, first: Result, second: Result)
    requires Outcome(f, a, s, v, first) && Outcome(f, b, s, v, second)
    ensures Outcome(f, a + b, s, v, if first.Ok? then first else second)
  {
    if first.Ok? {
      var i :| Accepts(f, a, s, v, i, first.value);
      assert Accepts(f, a + b, s, v, i, first.value);
    } else if second.Ok? {
      var i :| Accepts(f, b, s, v, i, second.value);
      assert Accepts(f, a + b, s, v, |a| + i, second.value);
    }
  }

  /** However unions are nested, the first named candidate that accepts decides. */
  lemma {:induction false} FirstCandidateDecides(f: Floats, t: Type, s: Schema, v: Json)
    ensures Outcome(f, Kinds(t), s, v, CoerceType(f, t, s, v))
    decreases t
  {
    match t
    case Named(name) =>
      var r := CoerceKind(f, KindOf(name), s, v);
      if r.Some? { assert Accepts(f, Kinds(t), s, v, 0, r.value); }
    case Union(_) => FirstFrom(f, t, 0, s, v);
  }

  lemma {:induction false} FirstFrom(f: Floats, t: Type, i: nat, s: Schema, v: Json)
    requires t.Union? && i <= |t.candidates|
    ensures Outcome(f, KindsFrom(t, i), s, v, CoerceFirst(f, t, i, s, v))
    decreases t, |t.candidates| - i
  {
    if i < |t.candidates| {
      FirstCandidateDecides(f, t.candidates[i], s, v);
      FirstFrom(f, t, i + 1, s, v);
      OutcomeAppend(f, Kinds(t.candidates[i]), KindsFrom(t, i + 1), s, v,
                    CoerceType(f, t.candidates[i], s, v), CoerceFirst(f, t, i + 1, s, v));
    }
  }
}
