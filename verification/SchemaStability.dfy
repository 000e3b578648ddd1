/** For which whole schemas coercion is idempotent. */
module SchemaStability {
  import opened Text
  import opened Values
  import opened Coercion
  import opened CoercionLaws

  /** Some candidate is of the kind, with none before it that accepts everything. */
  predicate Offered(kinds: seq<Kind>, kind: Kind) {
    exists i :: 0 <= i < |kinds| && kinds[i] == kind && forall k :: 0 <= k < i ==> !kinds[k].Any?
  }

  /** The type is unstable, or a nested schema that it lets coerce is. */
  predicate Wobbly(s: Schema) {
    Typed(s) &&
    var kinds := Kinds(s.typ.value);
    || Unstable(kinds)
    || (Offered(kinds, Object) && exists p :: 0 <= p < |s.properties| && Found(s, p) && Wobbly(s.properties[p].schema))
    || (Offered(kinds, Array) && s.items.Some? && Wobbly(s.items.value))
  }

  /** Property p is the one that its name finds. */
  predicate Found(s: Schema, p: nat)
    requires p < |s.properties|
  {
    Find(s.properties, s.properties[p].name) == Some(p)
  }

  predicate Unchanged(f: Floats, s: Schema, v: Json) {
    Coerce(f, s, v).Ok? ==> Coerce(f, s, Coerce(f, s, v).value) == Coerce(f, s, v)
  }

  // ---------------------------------------------------------------------
  // Stable schemas
  // ---------------------------------------------------------------------

  lemma FindFound(properties: seq<Property>, name: string)
    ensures var found := Find(properties, name);
      found.Some? ==> Find(properties, properties[found.value].name) == found
  {}

  lemma AcceptedOffered(f: Floats, kinds: seq<Kind>, s: Schema, v: Json, i: nat, r: Json)
    requires Accepts(f, kinds, s, v, i, r)
    ensures Offered(kinds, kinds[i])
  {
    assert forall k :: 0 <= k < i && kinds[k].Any? ==> CoerceKind(f, kinds[k], s, v) == Some(v);
  }

  /** Where no type that matters is unstable, coercing again changes nothing, whatever the enums. */
  lemma {:induction false} StableIdempotent(f: Floats, s: Schema, v: Json)
    requires Faithful(f) && !Wobbly(s)
    ensures Unchanged(f, s, v)
    decreases s, 1
  {
    if Coerce(f, s, v).Ok? && Typed(s) {
      var r, kinds := Coerce(f, s, v).value, Kinds(s.typ.value);
      FirstCandidateDecides(f, s.typ.value, s, v);
      var i: nat :| Accepts(f, kinds, s, v, i, r);
      AcceptedOffered(f, kinds, s, v, i, r);
      NestedSettle(f, kinds[i], s, v);
      KindFromInner(f, kinds[i], s, v);
      TypeSettles(f, s.typ.value, s, v, i, r);
    }
  }

  lemma {:induction false} NestedSettle(f: Floats, kind: Kind, s: Schema, v: Json)
    requires Faithful(f) && Typed(s) && !Wobbly(s) && Offered(Kinds(s.typ.value), kind)
    ensures kind.Object? && v.Obj? ==> forall i :: 0 <= i < |v.members| ==> MemberSettles(f, s, v.members[i])
    ensures kind.Array? && v.Arr? && s.items.Some? ==>
              forall i :: 0 <= i < |v.items| ==> Settles(f, s.items.value, v.items[i])
    decreases s, 0
  {
    if kind.Object? && v.Obj? {
      forall i | 0 <= i < |v.members| ensures MemberSettles(f, s, v.members[i]) {
        var found := Find(s.properties, v.members[i].name);
        if found.Some? {
          FindFound(s.properties, v.members[i].name);
          assert Found(s, found.value);
          StableIdempotent(f, s.properties[found.value].schema, v.members[i].value);
        }
      }
    }
    if kind.Array? && v.Arr? && s.items.Some? {
      forall i | 0 <= i < |v.items| ensures Settles(f, s.items.value, v.items[i]) {
        StableIdempotent(f, s.items.value, v.items[i]);
      }
    }
  }

  // ---------------------------------------------------------------------
  // Unstable ones
  // ---------------------------------------------------------------------

  predicate EnumFree(s: Schema) {
    && s.enum.None?
    && (forall i :: 0 <= i < |s.properties| ==> EnumFree(s.properties[i].schema))
    && (s.items.Some? ==> EnumFree(s.items.value))
  }

  /** An offered container kind coerces every value of its own. */
  lemma {:induction false} OfferedDecides(f: Floats, s: Schema, kind: Kind, v: Json, r: Json, i: nat)
    requires Typed(s) && s.enum.None? && ((kind.Object? && v.Obj?) || (kind.Array? && v.Arr?))
    requires var kinds := Kinds(s.typ.value);
      i < |kinds| && kinds[i] == kind && forall k :: 0 <= k < i ==> !kinds[k].Any?
    requires CoerceKind(f, kind, s, v) == Some(r)
    ensures Coerce(f, s, v) == Ok(r)
  {
    var kinds := Kinds(s.typ.value);
    if k :| 0 <= k < i && kinds[k] == kind {
      OfferedDecides(f, s, kind, v, r, k);
    } else {
      assert Accepts(f, kinds, s, v, i, r);
      FirstCandidateDecides(f, s.typ.value, s, v);
      OutcomeUnique(f, kinds, s, v, i, r, CoerceType(f, s.typ.value, s, v));
    }
  }

  lemma {:induction false} ContainerDecides(f: Floats, s: Schema, kind: Kind, v: Json, r: Json)
    requires Typed(s) && s.enum.None? && ((kind.Object? && v.Obj?) || (kind.Array? && v.Arr?))
    requires Offered(Kinds(s.typ.value), kind) && CoerceKind(f, kind, s, v) == Some(r)
    ensures Coerce(f, s, v) == Ok(r)
  {
    var kinds := Kinds(s.typ.value);
    var i: nat :| i < |kinds| && kinds[i] == kind && forall k :: 0 <= k < i ==> !kinds[k].Any?;
    OfferedDecides(f, s, kind, v, r, i);
  }

  function OneMember(name: string, v: Json): Json {
    Obj([Member(name, v)])
  }

  lemma MemberRewritten(f: Floats, s: Schema, p: nat, v: Json, r: Json)
    requires p < |s.properties| && Found(s, p) && !v.Null? && Coerce(f, s.properties[p].schema, v) == Ok(r)
    ensures CoerceKind(f, Object, s, OneMember(s.properties[p].name, v)) == Some(OneMember(s.properties[p].name, r))
  {
    var name := s.properties[p].name;
    MembersRewritten(f, s, OneMember(name, v));
    assert CoerceMember(f, s, Member(name, v)) == Member(name, r);
    assert CoerceKind(f, Object, s, OneMember(name, v)).value.members == [Member(name, r)];
  }

  lemma ItemRewritten(f: Floats, s: Schema, v: Json, r: Json)
    requires s.items.Some? && !v.Null? && Coerce(f, s.items.value, v) == Ok(r)
    ensures CoerceKind(f, Array, s, Arr([v])) == Some(Arr([r]))
  {
    ItemsRewritten(f, s, Arr([v]));
    assert CoerceKind(f, Array, s, Arr([v])).value.items == [r];
  }

  /** A value that a second coercion changes. */
  lemma {:induction false} WobblyWitness(f: Floats, s: Schema) returns (v: Json, once: Json, twice: Json)
    requires EnumFree(s) && Wobbly(s)
    ensures !v.Null? && Coerce(f, s, v) == Ok(once) && Coerce(f, s, once) == Ok(twice) && twice != once
    decreases s
  {
    var kinds := Kinds(s.typ.value);
    if Unstable(kinds) {
      UnstableOnOne(f, s.typ.value, s);
      v, once, twice := Json.Float(ONE), Int(1), Bool(true);
    } else if
      Offered(kinds, Object) && exists p :: 0 <= p < |s.properties| && Found(s, p) && Wobbly(s.properties[p].schema)
    {
      var p: nat :| p < |s.properties| && Found(s, p) && Wobbly(s.properties[p].schema);
      var name, nested := s.properties[p].name, s.properties[p].schema;
      var w, w1, w2 := WobblyWitness(f, nested);
      NotNull(f, nested, w);
      MemberRewritten(f, s, p, w, w1);
      MemberRewritten(f, s, p, w1, w2);
      v, once, twice := OneMember(name, w), OneMember(name, w1), OneMember(name, w2);
      ContainerDecides(f, s, Object, v, once);
      ContainerDecides(f, s, Object, once, twice);
    } else {
      var w, w1, w2 := WobblyWitness(f, s.items.value);
      NotNull(f, s.items.value, w);
      ItemRewritten(f, s, w, w1);
      ItemRewritten(f, s, w1, w2);
      v, once, twice := Arr([w]), Arr([w1]), Arr([w2]);
      ContainerDecides(f, s, Array, v, once);
      ContainerDecides(f, s, Array, once, twice);
    }
  }

  /** A schema without enums is idempotent on all values if and only if no type that matters is unstable; one with
      enums is if none is. */
  lemma IdempotentExactlyWhen(f: Floats, s: Schema)
    requires Faithful(f)
    ensures !Wobbly(s) ==> forall v :: Unchanged(f, s, v)
    ensures EnumFree(s) && Wobbly(s) ==> exists v :: !Unchanged(f, s, v)
  {
    if !Wobbly(s) {
      forall v ensures Unchanged(f, s, v) { StableIdempotent(f, s, v); }
    } else if EnumFree(s) {
      var v, once, twice := WobblyWitness(f, s);
      assert !Unchanged(f, s, v);
    }
  }
}
