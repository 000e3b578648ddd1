/** What coercion accepts, what it makes of a value, and what it says of one it refuses, in terms of the values. */
module CoercionMeaning {
  import opened Text
  import opened Values
  import opened Coercion
  import opened CoercionLaws

  // ---------------------------------------------------------------------
  // What each kind makes of a value
  // ---------------------------------------------------------------------

  /** The stripped text, read as an integer, or failing that as a float that is one. */
  ghost predicate ReadsAsInteger(f: Floats, text: string, r: Json) {
    || (exists n :: ParseInt(Strip(text)) == Some(n) && r == Int(n))
    || (ParseInt(Strip(text)) == None && f.parse(Strip(text)).Some? && r.Int?
        && Equal(r, Json.Float(f.parse(Strip(text)).value)))
  }

  predicate SpellsTrue(word: string) {
    Spells(word, "true") || Spells(word, "yes") || Spells(word, "on") || Spells(word, "1")
  }

  predicate SpellsFalse(word: string) {
    Spells(word, "false") || Spells(word, "no") || Spells(word, "off") || Spells(word, "0")
  }

  /** Coercing v to the kind makes r. */
  ghost predicate Makes(f: Floats, kind: Kind, s: Schema, v: Json, r: Json) {
    match kind
    case Integer =>
      if v.Str? then ReadsAsInteger(f, v.text, r) else r.Int? && !v.Bool? && Equal(r, v)
    case Number =>
      if v.Str? then f.parse(Strip(v.text)).Some? && r == Json.Float(f.parse(Strip(v.text)).value)
      else (v.Int? || v.Float?) && r == v
    case Boolean =>
      if v.Str? then
        (SpellsTrue(Strip(v.text)) && r == Bool(true)) || (SpellsFalse(Strip(v.text)) && r == Bool(false))
      else (v.Bool? || v.Int?) && r.Bool? && Equal(r, v)
    case String =>
      match v {
        case Str(_) => r == v
        case Bool(b) => r == Str(if b then "true" else "false")
        case Int(n) => r == Str(Dec(n))
        case Float(x) => r == Str(f.show(x))
        case _ => false
      }
    case Object =>
      && v.Obj? && r.Obj? && Names(r.members) == Names(v.members)
      && forall i :: 0 <= i < |v.members| ==>
           var found := Find(s.properties, v.members[i].name);
           if found.None? then r.members[i] == v.members[i]
           else InnerMakes(f, s.properties[found.value].schema, v.members[i].value, r.members[i].value)
    case Array =>
      && v.Arr? && r.Arr? && |r.items| == |v.items|
      && (s.items.None? ==> r == v)
      && (s.items.Some? ==>
            forall i :: 0 <= i < |v.items| ==> InnerMakes(f, s.items.value, v.items[i], r.items[i]))
    case Any => r == v
  }

  /** A nested value: coerced if it is not null and coercible, else kept. */
  predicate InnerMakes(f: Floats, s: Schema, v: Json, r: Json) {
    if v.Null? || Coerce(f, s, v).Err? then r == v else Coerce(f, s, v) == Ok(r)
  }

  /** The values the kind accepts. */
  predicate Takes(f: Floats, kind: Kind, v: Json) {
    match kind
    case Integer =>
      || v.Int? || (v.Float? && IsInteger(NumberOf(v)))
      || (v.Str? && (ParseInt(Strip(v.text)).Some?
                     || (f.parse(Strip(v.text)).Some?
                         && IsInteger(NumberOf(Json.Float(f.parse(Strip(v.text)).value))))))
    case Number => v.Int? || v.Float? || (v.Str? && f.parse(Strip(v.text)).Some?)
    case Boolean =>
      || v.Bool? || (v.Int? && (v.number == 0 || v.number == 1))
      || (v.Str? && (SpellsTrue(Strip(v.text)) || SpellsFalse(Strip(v.text))))
    case String => v.Str? || v.Bool? || v.Int? || v.Float?
    case Object => v.Obj?
    case Array => v.Arr?
    case Any => true
  }

  lemma WordsMean(word: string)
    ensures MeansTrue(Lower(word)) <==> SpellsTrue(word)
    ensures MeansFalse(Lower(word)) <==> SpellsFalse(word)
  {
    LowerMeans(word, "true"); LowerMeans(word, "yes"); LowerMeans(word, "on"); LowerMeans(word, "1");
    LowerMeans(word, "false"); LowerMeans(word, "no"); LowerMeans(word, "off"); LowerMeans(word, "0");
  }

  lemma SpellsOneWord(word: string)
    ensures !(SpellsTrue(word) && SpellsFalse(word))
  {
    assert "yes"[0] == 'y' && "off"[0] == 'o' && "on"[1] == 'n' && "no"[1] == 'o' && "1"[0] == '1' && "0"[0] == '0';
  }

  lemma FloatAsInteger(x: Float, r: Json)
    ensures r.Int? && Equal(r, Json.Float(x)) <==> x.Whole() && r == Int(x.AsInt())
  {}

  lemma IntegerMakes(f: Floats, s: Schema, v: Json, r: Json)
    ensures CoerceKind(f, Integer, s, v) == Some(r) <==> Makes(f, Integer, s, v, r)
  {
    match v
    case Float(x) => FloatAsInteger(x, r);
    case Str(t) =>
      if ParseInt(Strip(t)) == None && f.parse(Strip(t)).Some? { FloatAsInteger(f.parse(Strip(t)).value, r); }
    case _ =>
  }

  lemma BooleanMakes(f: Floats, s: Schema, v: Json, r: Json)
    ensures CoerceKind(f, Boolean, s, v) == Some(r) <==> Makes(f, Boolean, s, v, r)
  {
    if v.Str? {
      WordsMean(Strip(v.text));
      SpellsOneWord(Strip(v.text));
    }
  }

  lemma MemberMakes(f: Floats, s: Schema, m: Member, r: Member)
    requires m.name == r.name
    ensures var found := Find(s.properties, m.name);
      r == CoerceMember(f, s, m) <==>
      if found.None? then r == m else InnerMakes(f, s.properties[found.value].schema, m.value, r.value)
  {}

  lemma ObjectMakes(f: Floats, s: Schema, v: Json, r: Json)
    ensures CoerceKind(f, Object, s, v) == Some(r) <==> Makes(f, Object, s, v, r)
  {
    if v.Obj? {
      MembersRewritten(f, s, v);
      var made := CoerceKind(f, Object, s, v).value;
      assert Names(made.members) == Names(v.members);
      forall i | 0 <= i < |v.members| ensures made.members[i].name == v.members[i].name {
        assert Names(made.members)[i] == made.members[i].name && Names(v.members)[i] == v.members[i].name;
      }
      forall i | 0 <= i < |v.members| { MemberMakes(f, s, v.members[i], made.members[i]); }
      assert Makes(f, Object, s, v, made);
      if Makes(f, Object, s, v, r) {
        assert |r.members| == |Names(r.members)| == |v.members|;
        forall i | 0 <= i < |v.members| ensures r.members[i] == made.members[i] {
          assert Names(r.members)[i] == r.members[i].name && Names(v.members)[i] == v.members[i].name;
          MemberMakes(f, s, v.members[i], r.members[i]);
        }
        assert r.members == made.members;
      }
    }
  }

  lemma ArrayMakes(f: Floats, s: Schema, v: Json, r: Json)
    ensures CoerceKind(f, Array, s, v) == Some(r) <==> Makes(f, Array, s, v, r)
  {
    if v.Arr? && s.items.Some? {
      ItemsRewritten(f, s, v);
      if Makes(f, Array, s, v, r) { assert r.items == CoerceKind(f, Array, s, v).value.items; }
    }
  }

  /** A kind makes exactly that of a value, and nothing of any other. */
  lemma KindMakes(f: Floats, kind: Kind, s: Schema, v: Json, r: Json)
    ensures CoerceKind(f, kind, s, v) == Some(r) <==> Makes(f, kind, s, v, r)
  {
    match kind
    case Integer => IntegerMakes(f, s, v, r);
    case Boolean => BooleanMakes(f, s, v, r);
    case Object => ObjectMakes(f, s, v, r);
    case Array => ArrayMakes(f, s, v, r);
    case _ =>
  }

  /** A kind accepts exactly these values. */
  lemma KindTakes(f: Floats, kind: Kind, s: Schema, v: Json)
    ensures CoerceKind(f, kind, s, v).Some? <==> Takes(f, kind, v)
  {
    match kind
    case Integer =>
      if v.Float? { WholeMeans(v.float); }
      if v.Str? && f.parse(Strip(v.text)).Some? { WholeMeans(f.parse(Strip(v.text)).value); }
    case Boolean =>
      if v.Str? { WordsMean(Strip(v.text)); }
    case Object => if v.Obj? { MembersRewritten(f, s, v); }
    case Array => if v.Arr? && s.items.Some? { ItemsRewritten(f, s, v); }
    case _ =>
  }

  // ---------------------------------------------------------------------
  // Schemas by the names of their types
  // ---------------------------------------------------------------------

  predicate NamesKind(name: string, kind: Kind) {
    match kind
    case Integer => name == "integer"
    case Number => name == "number"
    case Boolean => name == "boolean"
    case String => name == "string"
    case Object => name == "object"
    case Array => name == "array"
    case Any => name !in {"integer", "number", "boolean", "string", "object", "array"}
  }

  /** A schema with one named type and no enum. */
  lemma NamedTypeMeans(f: Floats, s: Schema, name: string, kind: Kind, v: Json)
    requires s.typ == Some(Named(name)) && name != "" && s.enum.None? && NamesKind(name, kind)
    ensures Takes(f, kind, v) ==> Coerce(f, s, v).Ok? && Makes(f, kind, s, v, Coerce(f, s, v).value)
    ensures !Takes(f, kind, v) ==> Coerce(f, s, v) == Err(AKind(kind))
  {
    NamedKind(name, kind);
    KindTakes(f, kind, s, v);
    if Takes(f, kind, v) { KindMakes(f, kind, s, v, CoerceKind(f, kind, s, v).value); }
  }

  lemma NamedKind(name: string, kind: Kind)
    requires NamesKind(name, kind)
    ensures KindOf(name) == kind
  {}

  /** A schema without a type, or with an empty one, takes every value as it is. */
  lemma UntypedMeans(f: Floats, s: Schema, v: Json)
    requires s.typ.None? || s.typ.value == Named("") || s.typ.value == Union([])
    ensures s.enum.None? ==> Coerce(f, s, v) == Ok(v)
    ensures s.enum.Some? ==> Coerce(f, s, v) == if OneOf(v, s.enum.value) then Ok(v) else Err(Among(s.enum.value))
  {}

  /** What the type alone makes of a value: what the first candidate that accepts it does. */
  ghost predicate Made(f: Floats, s: Schema, v: Json, r: Json) {
    if Typed(s) then FirstMakes(f, Kinds(s.typ.value), s, v, r) else r == v
  }

  ghost predicate FirstMakes(f: Floats, kinds: seq<Kind>, s: Schema, v: Json, r: Json) {
    exists i :: 0 <= i < |kinds| && Makes(f, kinds[i], s, v, r) && forall k :: 0 <= k < i ==> !Takes(f, kinds[k], v)
  }

  predicate SomeTakes(f: Floats, kinds: seq<Kind>, v: Json) {
    exists i :: 0 <= i < |kinds| && Takes(f, kinds[i], v)
  }

  lemma AcceptsMeans(f: Floats, kinds: seq<Kind>, s: Schema, v: Json, i: nat, r: Json)
    requires i < |kinds|
    ensures Accepts(f, kinds, s, v, i, r) <==>
            Makes(f, kinds[i], s, v, r) && forall k :: 0 <= k < i ==> !Takes(f, kinds[k], v)
  {
    KindMakes(f, kinds[i], s, v, r);
    forall k | 0 <= k < i ensures CoerceKind(f, kinds[k], s, v) == None <==> !Takes(f, kinds[k], v) {
      KindTakes(f, kinds[k], s, v);
    }
  }

  lemma TypeMakes(f: Floats, s: Schema, v: Json)
    requires Typed(s)
    ensures var typed := CoerceType(f, s.typ.value, s, v);
      && (forall r :: FirstMakes(f, Kinds(s.typ.value), s, v, r) <==> typed == Ok(r))
      && (typed.Ok? <==> SomeTakes(f, Kinds(s.typ.value), v))
  {
    var kinds, typed := Kinds(s.typ.value), CoerceType(f, s.typ.value, s, v);
    FirstCandidateDecides(f, s.typ.value, s, v);
    forall r | FirstMakes(f, kinds, s, v, r) ensures typed == Ok(r) {
      var i :| 0 <= i < |kinds| && Makes(f, kinds[i], s, v, r) && forall k :: 0 <= k < i ==> !Takes(f, kinds[k], v);
      AcceptsMeans(f, kinds, s, v, i, r);
      OutcomeUnique(f, kinds, s, v, i, r, typed);
    }
    if typed.Ok? {
      var i: nat :| Accepts(f, kinds, s, v, i, typed.value);
      AcceptsMeans(f, kinds, s, v, i, typed.value);
      KindTakes(f, kinds[i], s, v);
      assert FirstMakes(f, kinds, s, v, typed.value);
    } else {
      forall i | 0 <= i < |kinds| ensures !Takes(f, kinds[i], v) { KindTakes(f, kinds[i], s, v); }
    }
  }

  /** A value is refused: no candidate takes it, or the enum excludes what the first that does makes of it. */
  ghost predicate Refuses(f: Floats, s: Schema, v: Json) {
    || (Typed(s) && !SomeTakes(f, Kinds(s.typ.value), v))
    || (s.enum.Some? && exists r :: Made(f, s, v, r) && !OneOf(r, s.enum.value))
  }

  lemma RejectedExactlyWhen(f: Floats, s: Schema, v: Json)
    ensures Coerce(f, s, v).Err? <==> Refuses(f, s, v)
    ensures Coerce(f, s, v).Ok? ==> Made(f, s, v, Coerce(f, s, v).value)
  {
    if Typed(s) {
      TypeMakes(f, s, v);
      var typed := CoerceType(f, s.typ.value, s, v);
      assert typed.Ok? ==> Made(f, s, v, typed.value);
    } else {
      assert Made(f, s, v, v);
    }
  }

  /** What a refusal says it expected: the enum's values, the union's types, or the one type's kind. */
  lemma RefusalTells(f: Floats, s: Schema, v: Json, expected: Expected)
    requires Coerce(f, s, v) == Err(expected)
    ensures Typed(s) && !SomeTakes(f, Kinds(s.typ.value), v) ==>
              expected == match s.typ.value
                          case Union(types) => AnyOf(types)
                          case Named(name) => AKind(KindOf(name))
    ensures !Typed(s) || SomeTakes(f, Kinds(s.typ.value), v) ==> s.enum.Some? && expected == Among(s.enum.value)
  {
    if Typed(s) {
      TypeMakes(f, s, v);
      match s.typ.value
      case Union(types) => UnionTells(f, s.typ.value, 0, s, v);
      case Named(_) =>
    }
  }

  lemma {:induction false} UnionTells(f: Floats, t: Type, i: nat, s: Schema, v: Json)
    requires t.Union? && i <= |t.candidates|
    ensures CoerceFirst(f, t, i, s, v).Err? ==> CoerceFirst(f, t, i, s, v) == Err(AnyOf(t.candidates))
    decreases |t.candidates| - i
  {
    if i < |t.candidates| { UnionTells(f, t, i + 1, s, v); }
  }
}
