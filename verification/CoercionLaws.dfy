/** Laws of coercion: idempotence, identity on conforming values, soundness, round trips. */
module CoercionLaws {
  import opened Text
  import opened Values
  import opened Coercion

  /**
    * Python's float text: printing gives trimmed text that reads back, is no
    * integer numeral and no boolean word; integer numerals also read as floats.
    */
  ghost predicate Faithful(f: Floats) {
    && (forall x: Float :: Trimmed(f.show(x)) && f.parse(f.show(x)) == Some(x) && ParseInt(f.show(x)) == None
                           && !MeansTrue(Lower(f.show(x))) && !MeansFalse(Lower(f.show(x))))
    && (forall text :: ParseInt(text).Some? ==> f.parse(text).Some?)
    && f.parse("true") == None && f.parse("false") == None
  }

  // ---------------------------------------------------------------------
  // Printed scalars
  // ---------------------------------------------------------------------

  lemma {:induction false} StripTrimmed(s: string)
    requires Trimmed(s)
    ensures Strip(s) == s
  {
    StripPadded("", s, "");
    assert "" + s + "" == s;
  }

  lemma DecTrimmed(n: int)
    ensures Trimmed(Dec(n)) && Lower(Dec(n)) == Dec(n) && Strip(Dec(n)) == Dec(n)
  {
    var s := Dec(n);
    assert s[0] in s && s[|s| - 1] in s;
    assert forall i :: 0 <= i < |s| ==> s[i] in s;
    StripTrimmed(s);
  }

  /** The text of an integer is a boolean word only for 0 and 1. */
  lemma DecAsWord(n: int)
    ensures MeansTrue(Dec(n)) <==> n == 1
    ensures MeansFalse(Dec(n)) <==> n == 0
  {
    var s := Dec(n);
    assert s[0] in s;
    assert "true"[0] == 't' && "yes"[0] == 'y' && "on"[0] == 'o';
    assert "false"[0] == 'f' && "no"[0] == 'n' && "off"[0] == 'o';
    assert Dec(1) == "1" && Dec(0) == "0";
    DecInjective(n, 1);
    DecInjective(n, 0);
  }

  lemma BoolText(b: bool)
    ensures var s := if b then "true" else "false";
      Trimmed(s) && Strip(s) == s && Lower(s) == s && ParseInt(s) == None && MeansTrue(s) == b && MeansFalse(s) == !b
  {
    var s := if b then "true" else "false";
    assert Lower("true") == "true" && Lower("false") == "false";
    StripTrimmed(s);
    assert s[0] == if b then 't' else 'f';
    assert "yes"[0] == 'y' && "on"[0] == 'o' && "1"[0] == '1' && "no"[0] == 'n' && "0"[0] == '0';
  }

  /** Whitespace around a printed integer is ignored. */
  lemma IntegerRoundTrip(f: Floats, n: int, left: string, right: string)
    requires Blank(left) && Blank(right)
    ensures AsInteger(f, Str(left + AsString(f, Int(n)).value + right)) == Some(n)
  {
    DecTrimmed(n);
    StripPadded(left, Dec(n), right);
    DecRoundTrip(n);
  }

  lemma BooleanRoundTrip(f: Floats, b: bool, left: string, right: string)
    requires Blank(left) && Blank(right)
    ensures AsBoolean(Str(left + AsString(f, Bool(b)).value + right)) == Some(b)
  {
    BoolText(b);
    StripPadded(left, if b then "true" else "false", right);
  }

  /** A printed float reads back; as an integer, exactly when it is whole. */
  lemma FloatRoundTrip(f: Floats, x: Float, left: string, right: string)
    requires Faithful(f) && Blank(left) && Blank(right)
    ensures var text := Str(left + AsString(f, Json.Float(x)).value + right);
      && AsNumber(f, text) == Some(Json.Float(x))
      && AsInteger(f, text) == AsInteger(f, Json.Float(x))
  {
    StripPadded(left, f.show(x), right);
  }

  // ---------------------------------------------------------------------
  // Some float text is faithful
  // ---------------------------------------------------------------------

  /** A float printed as its mantissa and exponent. */
  function Written(x: Float): string {
    Dec(x.mantissa) + "/" + Dec(x.exponent)
  }

  lemma WrittenText(x: Float)
    ensures Trimmed(Written(x)) && '/' in Written(x) && ParseInt(Written(x)) == None
    ensures !MeansTrue(Lower(Written(x))) && !MeansFalse(Lower(Written(x)))
  {
    var s, m := Written(x), Dec(x.mantissa);
    DecTrimmed(x.mantissa);
    DecTrimmed(x.exponent);
    assert s[|m|] == '/' && s[0] == m[0] && s[|s| - 1] == Dec(x.exponent)[|Dec(x.exponent)| - 1];
    SlashNoNumeral(s, |m|);
    assert Lower(s)[|m|] == '/';
    WordsNoSlash(Lower(s));
  }

  lemma SlashNoNumeral(s: string, i: nat)
    requires 0 < i < |s| && s[i] == '/'
    ensures ParseInt(s) == None
  {
    assert s[1..][i - 1] == '/';
  }

  lemma WordsNoSlash(s: string)
    requires '/' in s
    ensures !MeansTrue(s) && !MeansFalse(s)
  {}

  lemma WrittenInjective(x: Float, y: Float)
    requires Written(x) == Written(y)
    ensures x == y
  {
    SplitWritten(x);
    SplitWritten(y);
    DecInjective(x.mantissa, y.mantissa);
    DecInjective(x.exponent, y.exponent);
  }

  lemma SplitWritten(x: Float)
    ensures Split(Written(x), '/') == [Dec(x.mantissa), Dec(x.exponent)]
  {
    assert forall c <- Dec(x.mantissa) :: c != '/';
    assert forall c <- Dec(x.exponent) :: c != '/';
    SplitHead(Dec(x.mantissa), Dec(x.exponent), '/');
    SplitPlain(Dec(x.exponent), '/');
  }

  ghost function ReadWritten(text: string): Option<Float> {
    if exists x: Float :: Written(x) == text then
      var x: Float :| Written(x) == text;
      Some(x)
    else if ParseInt(text).Some? then Some(ONE)
    else None
  }

  lemma ReadBack(x: Float)
    ensures ReadWritten(Written(x)) == Some(x)
  {
    var y := ReadWritten(Written(x)).value;
    WrittenInjective(y, x);
  }

  lemma WordsUnread(word: string)
    requires word == "true" || word == "false"
    ensures ReadWritten(word) == None
  {
    BoolText(word == "true");
    forall x: Float ensures Written(x) != word { WrittenText(x); }
  }

  /** The condition can be met. */
  lemma FaithfulExists()
    ensures exists f :: Faithful(f)
  {
    var f := Floats((text: string) => ReadWritten(text), (x: Float) => Written(x));
    forall x: Float ensures
      && Trimmed(f.show(x)) && f.parse(f.show(x)) == Some(x) && ParseInt(f.show(x)) == None
      && !MeansTrue(Lower(f.show(x))) && !MeansFalse(Lower(f.show(x)))
    {
      WrittenText(x);
      ReadBack(x);
    }
    WordsUnread("true");
    WordsUnread("false");
    assert Faithful(f);
  }

  // ---------------------------------------------------------------------
  // A candidate that refused a value refuses what a later one made of it
  // ---------------------------------------------------------------------

  lemma TextNotInteger(f: Floats, v: Json)
    requires Faithful(f) && AsString(f, v).Some? && AsInteger(f, v).None?
    ensures AsInteger(f, Str(AsString(f, v).value)).None?
  {
    match v
    case Bool(b) => BoolText(b);
    case Float(x) => StripTrimmed(f.show(x));
    case Str(_) =>
  }

  lemma TextNotNumber(f: Floats, v: Json)
    requires Faithful(f) && AsString(f, v).Some? && AsNumber(f, v).None?
    ensures AsNumber(f, Str(AsString(f, v).value)).None?
  {
    match v
    case Bool(b) => BoolText(b);
    case Str(_) =>
  }

  lemma TextNotBoolean(f: Floats, v: Json)
    requires Faithful(f) && AsString(f, v).Some? && AsBoolean(v).None?
    ensures AsBoolean(Str(AsString(f, v).value)).None?
  {
    match v
    case Int(n) => DecTrimmed(n); DecAsWord(n);
    case Float(x) => StripTrimmed(f.show(x));
    case Str(_) =>
  }

  lemma LaterRefused(f: Floats, earlier: Kind, later: Kind, s: Schema, v: Json, r: Json)
    requires Faithful(f)
    requires CoerceKind(f, earlier, s, v) == None && CoerceKind(f, later, s, v) == Some(r)
    requires !(earlier.Boolean? && later.Integer?)
    ensures CoerceKind(f, earlier, s, r) == None
  {
    if later.String? {
      match earlier
      case Integer => TextNotInteger(f, v);
      case Number => TextNotNumber(f, v);
      case Boolean => TextNotBoolean(f, v);
      case _ =>
    }
  }

  // ---------------------------------------------------------------------
  // Which schemas are stable
  // ---------------------------------------------------------------------

  predicate AcceptsOne(kind: Kind) {
    kind.Integer? || kind.Number? || kind.String? || kind.Any?
  }

  /** "boolean" stands before an "integer" that no earlier candidate shields from numbers. */
  predicate Unstable(kinds: seq<Kind>) {
    exists b, i :: 0 <= b < i < |kinds| && kinds[b].Boolean? && kinds[i].Integer?
                   && forall k :: 0 <= k < i ==> !AcceptsOne(kinds[k])
  }

  predicate Everywhere(s: Schema, ok: Type -> bool) {
    && (s.typ.Some? ==> ok(s.typ.value))
    && (forall i :: 0 <= i < |s.properties| ==> Everywhere(s.properties[i].schema, ok))
    && (s.items.Some? ==> Everywhere(s.items.value, ok))
  }

  predicate UnionFree(s: Schema) {
    Everywhere(s, (t: Type) => t.Named?)
  }

  predicate StableUnions(s: Schema) {
    Everywhere(s, (t: Type) => !Unstable(Kinds(t)))
  }

  ghost predicate Steady(f: Floats, s: Schema) {
    UnionFree(s) || (Faithful(f) && StableUnions(s))
  }

  /** Everything below the top of the schema is steady. */
  ghost predicate SteadyInside(f: Floats, s: Schema) {
    && (forall i :: 0 <= i < |s.properties| ==> Steady(f, s.properties[i].schema))
    && (s.items.Some? ==> Steady(f, s.items.value))
  }

  // ---------------------------------------------------------------------
  // Idempotence
  // ---------------------------------------------------------------------

  /** Coercing an already coerced value changes nothing. */
  lemma {:induction false} Idempotent(f: Floats, s: Schema, v: Json)
    requires Steady(f, s)
    ensures Coerce(f, s, v).Ok? ==> Coerce(f, s, Coerce(f, s, v).value) == Coerce(f, s, v)
    decreases s, 3
  {
    var outcome := Coerce(f, s, v);
    if outcome.Ok? && Typed(s) {
      TypeIdempotent(f, s.typ.value, s, v);
    }
  }

  lemma {:induction false} TypeIdempotent(f: Floats, t: Type, s: Schema, v: Json)
    requires SteadyInside(f, s) && (t.Named? || (Faithful(f) && !Unstable(Kinds(t))))
    ensures CoerceType(f, t, s, v).Ok? ==> CoerceType(f, t, s, CoerceType(f, t, s, v).value) == CoerceType(f, t, s, v)
    decreases s, 2
  {
    var outcome, kinds := CoerceType(f, t, s, v), Kinds(t);
    if outcome.Ok? {
      FirstCandidateDecides(f, t, s, v);
      var i: nat :| Accepts(f, kinds, s, v, i, outcome.value);
      KindIdempotent(f, kinds[i], s, v);
      TypeSettles(f, t, s, v, i, outcome.value);
    }
  }

  /** What the accepting candidate leaves alone, the whole type leaves alone. */
  lemma TypeSettles(f: Floats, t: Type, s: Schema, v: Json, i: nat, r: Json)
    requires Accepts(f, Kinds(t), s, v, i, r) && CoerceKind(f, Kinds(t)[i], s, r) == Some(r)
    requires t.Named? || (Faithful(f) && !Unstable(Kinds(t)))
    ensures CoerceType(f, t, s, r) == Ok(r)
  {
    var kinds := Kinds(t);
    forall k | 0 <= k < i ensures CoerceKind(f, kinds[k], s, r) == None {
      if kinds[k].Boolean? && kinds[i].Integer? {
        Shielded(f, kinds, s, v, k, i);
      }
      LaterRefused(f, kinds[k], kinds[i], s, v, r);
    }
    assert Accepts(f, kinds, s, r, i, r);
    FirstCandidateDecides(f, t, s, r);
    OutcomeUnique(f, kinds, s, r, i, r, CoerceType(f, t, s, r));
  }

  /** An integer that stands after a boolean in a stable union accepts nothing first. */
  lemma Shielded(f: Floats, kinds: seq<Kind>, s: Schema, v: Json, b: nat, i: nat)
    requires Faithful(f) && b < i < |kinds| && kinds[b].Boolean? && kinds[i].Integer? && !Unstable(kinds)
    requires forall k :: 0 <= k < i ==> CoerceKind(f, kinds[k], s, v) == None
    ensures CoerceKind(f, kinds[i], s, v) == None
  {
    var k :| 0 <= k < i && AcceptsOne(kinds[k]);
    assert CoerceKind(f, kinds[k], s, v) == None;
  }

  lemma OutcomeUnique(f: Floats, kinds: seq<Kind>, s: Schema, v: Json, i: nat, r: Json, outcome: Result)
    requires Accepts(f, kinds, s, v, i, r) && Outcome(f, kinds, s, v, outcome)
    ensures outcome == Ok(r)
  {
    if outcome.Ok? {
      var j: nat :| Accepts(f, kinds, s, v, j, outcome.value);
      assert i == j;
    }
  }

  lemma {:induction false} KindIdempotent(f: Floats, kind: Kind, s: Schema, v: Json)
    requires SteadyInside(f, s)
    ensures var r := CoerceKind(f, kind, s, v); r.Some? ==> CoerceKind(f, kind, s, r.value) == r
    decreases s, 1
  {
    if v.Obj? {
      forall i | 0 <= i < |v.members| ensures MemberSettles(f, s, v.members[i]) {
        var found := Find(s.properties, v.members[i].name);
        if found.Some? { InnerIdempotent(f, s.properties[found.value].schema, v.members[i].value); }
      }
    }
    if v.Arr? && s.items.Some? {
      forall i | 0 <= i < |v.items| ensures Settles(f, s.items.value, v.items[i]) {
        InnerIdempotent(f, s.items.value, v.items[i]);
      }
    }
    KindFromInner(f, kind, s, v);
  }

  /** Rewriting a nested value a second time changes nothing. */
  predicate Settles(f: Floats, s: Schema, v: Json) {
    CoerceInner(f, s, CoerceInner(f, s, v)) == CoerceInner(f, s, v)
  }

  predicate MemberSettles(f: Floats, s: Schema, m: Member) {
    var found := Find(s.properties, m.name);
    found.Some? ==> Settles(f, s.properties[found.value].schema, m.value)
  }

  /** A kind leaves its own result alone if all nested values settle. */
  lemma KindFromInner(f: Floats, kind: Kind, s: Schema, v: Json)
    requires kind.Object? && v.Obj? ==> forall i :: 0 <= i < |v.members| ==> MemberSettles(f, s, v.members[i])
    requires kind.Array? && v.Arr? && s.items.Some? ==>
               forall i :: 0 <= i < |v.items| ==> Settles(f, s.items.value, v.items[i])
    ensures var r := CoerceKind(f, kind, s, v); r.Some? ==> CoerceKind(f, kind, s, r.value) == r
  {
    var r := CoerceKind(f, kind, s, v);
    if kind.Object? && v.Obj? {
      var once := r.value.members;
      MembersRewritten(f, s, v);
      forall i | 0 <= i < |once| ensures CoerceMember(f, s, once[i]) == once[i] {
        assert MemberSettles(f, s, v.members[i]);
      }
      MembersRewritten(f, s, r.value);
      assert CoerceKind(f, kind, s, r.value).value.members == once;
    }
    if kind.Array? && v.Arr? && s.items.Some? {
      var once := r.value.items;
      ItemsRewritten(f, s, v);
      forall i | 0 <= i < |once| ensures CoerceInner(f, s.items.value, once[i]) == once[i] {
        assert Settles(f, s.items.value, v.items[i]);
      }
      ItemsRewritten(f, s, r.value);
      assert CoerceKind(f, kind, s, r.value).value.items == once;
    }
  }

  lemma {:induction false} InnerIdempotent(f: Floats, s: Schema, v: Json)
    requires Steady(f, s)
    ensures CoerceInner(f, s, CoerceInner(f, s, v)) == CoerceInner(f, s, v)
    decreases s, 4
  {
    Idempotent(f, s, v);
  }

  /** Over steady nested schemas, exactly the unstable unions break idempotence. */
  lemma UnionIdempotentExactlyWhen(f: Floats, t: Type, s: Schema)
    requires Faithful(f) && SteadyInside(f, s)
    ensures !Unstable(Kinds(t)) <==>
              forall v :: CoerceType(f, t, s, v).Ok? ==>
                CoerceType(f, t, s, CoerceType(f, t, s, v).value) == CoerceType(f, t, s, v)
  {
    if Unstable(Kinds(t)) {
      UnstableOnOne(f, t, s);
    } else {
      forall v ensures CoerceType(f, t, s, v).Ok? ==>
        CoerceType(f, t, s, CoerceType(f, t, s, v).value) == CoerceType(f, t, s, v)
      {
        TypeIdempotent(f, t, s, v);
      }
    }
  }

  /** 1.0 first becomes 1, and then true. */
  lemma UnstableOnOne(f: Floats, t: Type, s: Schema)
    requires Unstable(Kinds(t))
    ensures CoerceType(f, t, s, Json.Float(ONE)) == Ok(Int(1))
    ensures CoerceType(f, t, s, Int(1)) == Ok(Bool(true))
  {
    var kinds, one := Kinds(t), Json.Float(ONE);
    var b, i :| 0 <= b < i < |kinds| && kinds[b].Boolean? && kinds[i].Integer?
                && forall k :: 0 <= k < i ==> !AcceptsOne(kinds[k]);
    assert ONE.AsInt() == 1;
    assert Accepts(f, kinds, s, one, i, Int(1));
    FirstCandidateDecides(f, t, s, one);
    OutcomeUnique(f, kinds, s, one, i, Int(1), CoerceType(f, t, s, one));
    FirstBoolean(f, kinds, s, b);
    var first: nat :| Accepts(f, kinds, s, Int(1), first, Bool(true));
    FirstCandidateDecides(f, t, s, Int(1));
    OutcomeUnique(f, kinds, s, Int(1), first, Bool(true), CoerceType(f, t, s, Int(1)));
  }

  lemma {:induction false} FirstBoolean(f: Floats, kinds: seq<Kind>, s: Schema, b: nat)
    requires b < |kinds| && kinds[b].Boolean? && forall k :: 0 <= k < b ==> !AcceptsOne(kinds[k])
    ensures exists first :: Accepts(f, kinds, s, Int(1), first, Bool(true))
  {
    if k :| 0 <= k < b && kinds[k].Boolean? {
      FirstBoolean(f, kinds, s, k);
    } else {
      assert Accepts(f, kinds, s, Int(1), b, Bool(true));
    }
  }

  /** The smallest such union. */
  lemma BooleanOrInteger(f: Floats)
    ensures var t := Union([Named("boolean"), Named("integer")]);
      && Unstable(Kinds(t))
      && forall s :: CoerceType(f, t, s, Json.Float(ONE)) == Ok(Int(1)) && CoerceType(f, t, s, Int(1)) == Ok(Bool(true))
  {
    var t := Union([Named("boolean"), Named("integer")]);
    assert KindOf("boolean") == Boolean && KindOf("integer") == Integer;
    assert KindsFrom(t, 2) == [];
    assert KindsFrom(t, 1) == [Integer] + [];
    var kinds := Kinds(t);
    assert kinds == [Boolean] + KindsFrom(t, 1);
    assert kinds[0].Boolean? && kinds[1].Integer?;
    forall s { UnstableOnOne(f, t, s); }
  }

  // ---------------------------------------------------------------------
  // Conforming values, and what a result is
  // ---------------------------------------------------------------------

  /** A value of the kind; a whole float is an integer unless `strict`. */
  predicate OfKind(kind: Kind, v: Json, strict: bool) {
    match kind
    case Integer => v.Int? || (!strict && v.Float? && v.float.Whole())
    case Number => v.Int? || v.Float?
    case Boolean => v.Bool?
    case String => v.Str?
    case Object => v.Obj?
    case Array => v.Arr?
    case Any => true
  }

  /** Deep conformance to a schema without unions; null is let through where a value is nested. */
  predicate Conforms(s: Schema, v: Json, strict: bool)
    decreases s
  {
    && (Typed(s) && s.typ.value.Named? ==>
          var kind := KindOf(s.typ.value.name);
          && OfKind(kind, v, strict)
          && (kind.Object? ==> forall i :: 0 <= i < |v.members| ==>
                var found := Find(s.properties, v.members[i].name);
                found.None? || v.members[i].value.Null?
                || Conforms(s.properties[found.value].schema, v.members[i].value, strict))
          && (kind.Array? && s.items.Some? ==> forall i :: 0 <= i < |v.items| ==>
                v.items[i].Null? || Conforms(s.items.value, v.items[i], strict)))
    && (s.enum.Some? ==> OneOf(v, s.enum.value))
  }

  /** A conforming value is accepted and comes back equal; the very same one if it conforms strictly. */
  lemma {:induction false} ConformingKept(f: Floats, s: Schema, v: Json, strict: bool)
    requires UnionFree(s) && Conforms(s, v, strict)
    ensures var r := Coerce(f, s, v); r.Ok? && Equal(r.value, v) && (strict ==> r.value == v)
    decreases s, 1
  {
    if Typed(s) {
      KindKept(f, KindOf(s.typ.value.name), s, v, strict);
    }
  }

  lemma {:induction false} InnerKept(f: Floats, s: Schema, v: Json, strict: bool)
    requires UnionFree(s) && (v.Null? || Conforms(s, v, strict))
    ensures var r := CoerceInner(f, s, v); Equal(r, v) && (strict ==> r == v)
    decreases s, 2
  {
    if !v.Null? { ConformingKept(f, s, v, strict); }
  }

  lemma {:induction false} KindKept(f: Floats, kind: Kind, s: Schema, v: Json, strict: bool)
    requires UnionFree(s) && Conforms(s, v, strict) && Typed(s) && kind == KindOf(s.typ.value.name)
    ensures var r := CoerceKind(f, kind, s, v); r.Some? && Equal(r.value, v) && (strict ==> r.value == v)
    decreases s, 0
  {
    var r := CoerceKind(f, kind, s, v);
    if kind.Object? {
      MembersRewritten(f, s, v);
      forall i | 0 <= i < |v.members|
        ensures var m := r.value.members[i];
          m.name == v.members[i].name && Equal(m.value, v.members[i].value) && (strict ==> m == v.members[i])
      {
        var found := Find(s.properties, v.members[i].name);
        if found.Some? {
          InnerKept(f, s.properties[found.value].schema, v.members[i].value, strict);
        }
      }
      EqualMembers(r.value, v, 0);
      if strict { assert r.value.members == v.members; }
    } else if kind.Array? && s.items.Some? {
      ItemsRewritten(f, s, v);
      forall i | 0 <= i < |v.items|
        ensures Equal(r.value.items[i], v.items[i]) && (strict ==> r.value.items[i] == v.items[i])
      {
        InnerKept(f, s.items.value, v.items[i], strict);
      }
      EqualLists(r.value.items, v.items);
      if strict { assert r.value.items == v.items; }
    }
  }

  /** A union on which a conforming value does not come back equal: 1 under string or integer. */
  lemma UnionChangesConforming(f: Floats, s: Schema)
    ensures var t := Union([Named("string"), Named("integer")]);
      CoerceType(f, t, s, Int(1)) == Ok(Str("1")) && !Equal(Str("1"), Int(1))
  {
    var t := Union([Named("string"), Named("integer")]);
    assert KindOf("string") == String;
    assert Dec(1) == "1";
    assert CoerceType(f, Named("string"), s, Int(1)) == Ok(Str("1"));
    assert t.candidates[0] == Named("string");
    assert CoerceFirst(f, t, 0, s, Int(1)) == Ok(Str("1"));
  }

  /** A result has a declared type, strictly, and lies in the enum. */
  lemma Sound(f: Floats, s: Schema, v: Json, r: Json)
    requires Coerce(f, s, v) == Ok(r)
    ensures Typed(s) ==> exists kind <- Kinds(s.typ.value) :: OfKind(kind, r, true)
    ensures s.enum.Some? ==> OneOf(r, s.enum.value)
  {
    if Typed(s) {
      var kinds := Kinds(s.typ.value);
      FirstCandidateDecides(f, s.typ.value, s, v);
      var i: nat :| Accepts(f, kinds, s, v, i, r);
      assert kinds[i] in kinds && OfKind(kinds[i], r, true);
    }
  }

  /** A nested value that is accepted gets its declared type; any other is kept as it was. */
  predicate InnerSettled(f: Floats, s: Schema, v: Json, r: Json) {
    if v.Null? || Coerce(f, s, v).Err? then r == v
    else && (Typed(s) ==> exists kind <- Kinds(s.typ.value) :: OfKind(kind, r, true))
         && (s.enum.Some? ==> OneOf(r, s.enum.value))
  }

  /** Objects and arrays keep their shape and every value that nothing applies to. */
  lemma NestedSettled(f: Floats, s: Schema, v: Json)
    ensures v.Obj? ==>
      var r := CoerceKind(f, Object, s, v);
      && r.Some? && r.value.Obj? && Names(r.value.members) == Names(v.members)
      && forall i :: 0 <= i < |v.members| ==>
           var found := Find(s.properties, v.members[i].name);
           if found.None? then r.value.members[i] == v.members[i]
           else InnerSettled(f, s.properties[found.value].schema, v.members[i].value, r.value.members[i].value)
    ensures v.Arr? && s.items.Some? ==>
      var r := CoerceKind(f, Array, s, v);
      && r.Some? && r.value.Arr? && |r.value.items| == |v.items|
      && forall i :: 0 <= i < |v.items| ==> InnerSettled(f, s.items.value, v.items[i], r.value.items[i])
  {
    if v.Obj? {
      MembersRewritten(f, s, v);
      forall i | 0 <= i < |v.members| && Find(s.properties, v.members[i].name).Some?
        ensures var nested := s.properties[Find(s.properties, v.members[i].name).value].schema;
          InnerSettled(f, nested, v.members[i].value, CoerceInner(f, nested, v.members[i].value))
      {
        InnerIsSettled(f, s.properties[Find(s.properties, v.members[i].name).value].schema, v.members[i].value);
      }
    }
    if v.Arr? && s.items.Some? {
      ItemsRewritten(f, s, v);
      forall i | 0 <= i < |v.items|
        ensures InnerSettled(f, s.items.value, v.items[i], CoerceInner(f, s.items.value, v.items[i]))
      {
        InnerIsSettled(f, s.items.value, v.items[i]);
      }
    }
  }

  lemma InnerIsSettled(f: Floats, s: Schema, v: Json)
    ensures InnerSettled(f, s, v, CoerceInner(f, s, v))
  {
    if !v.Null? && Coerce(f, s, v).Ok? { Sound(f, s, v, Coerce(f, s, v).value); }
  }

  lemma NotNull(f: Floats, s: Schema, v: Json)
    requires Coerce(f, s, v).Ok? && !v.Null?
    ensures !Coerce(f, s, v).value.Null?
  {
    if Typed(s) {
      var r := CoerceType(f, s.typ.value, s, v).value;
      FirstCandidateDecides(f, s.typ.value, s, v);
      var i: nat :| Accepts(f, Kinds(s.typ.value), s, v, i, r);
    }
  }
}
