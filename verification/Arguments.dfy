/** Preparing a tool call: all arguments are coerced, or every offending one is reported at once. */
module Arguments {
  import opened Text
  import opened Values
  import opened Coercion
  import opened CoercionLaws
  import opened CoercionMeaning

  datatype ToolSchema = ToolSchema(properties: seq<Property>, required: seq<string>)

  datatype Problem = MissingField | UnknownField | InvalidValue(expected: Expected, received: string)

  datatype Field = Field(name: string, problem: Problem)

  datatype Outcome = Prepared(arguments: seq<Member>) | Refused(fields: seq<Field>)

  /** `type(value).__name__`. */
  function PythonType(v: Json): string {
    match v
    case Null => "NoneType"
    case Bool(_) => "bool"
    case Int(_) => "int"
    case Float(_) => "float"
    case Str(_) => "str"
    case Arr(_) => "list"
    case Obj(_) => "dict"
  }

  // ---------------------------------------------------------------------
  // What preparation computes
  // ---------------------------------------------------------------------

  predicate Declared(schema: ToolSchema, name: string) {
    name in PropertyNames(schema.properties)
  }

  function SchemaOf(schema: ToolSchema, name: string): Schema
    requires Declared(schema, name)
  {
    schema.properties[Find(schema.properties, name).value].schema
  }

  predicate Offends(f: Floats, schema: ToolSchema, m: Member) {
    !Declared(schema, m.name) || (!m.value.Null? && Coerce(f, SchemaOf(schema, m.name), m.value).Err?)
  }

  function ProblemOf(f: Floats, schema: ToolSchema, m: Member): Problem
    requires Offends(f, schema, m)
  {
    if !Declared(schema, m.name) then UnknownField
    else InvalidValue(Coerce(f, SchemaOf(schema, m.name), m.value).expected, PythonType(m.value))
  }

  function Coerced(f: Floats, schema: ToolSchema, m: Member): Member
    requires !Offends(f, schema, m)
  {
    if m.value.Null? then m else Member(m.name, Coerce(f, SchemaOf(schema, m.name), m.value).value)
  }

  function Missing(required: seq<string>, arguments: seq<Member>): seq<Field> {
    if required == [] then []
    else
      var n := |required| - 1;
      Missing(required[..n], arguments)
      + if Get(arguments, required[n]).Null? then [Field(required[n], MissingField)] else []
  }

  function Offending(f: Floats, schema: ToolSchema, arguments: seq<Member>): seq<Field> {
    if arguments == [] then []
    else
      var n := |arguments| - 1;
      Offending(f, schema, arguments[..n])
      + if Offends(f, schema, arguments[n])
        then [Field(arguments[n].name, ProblemOf(f, schema, arguments[n]))] else []
  }

  function Accepted(f: Floats, schema: ToolSchema, arguments: seq<Member>): seq<Member> {
    if arguments == [] then []
    else
      var n := |arguments| - 1;
      Accepted(f, schema, arguments[..n])
      + if Offends(f, schema, arguments[n]) then [] else [Coerced(f, schema, arguments[n])]
  }

  function Prepare(f: Floats, schema: ToolSchema, arguments: seq<Member>): Outcome {
    var fields := Missing(schema.required, arguments) + Offending(f, schema, arguments);
    if fields != [] then Refused(fields) else Prepared(Accepted(f, schema, arguments))
  }

  /** `prepare_arguments`. */
  method PrepareArguments(f: Floats, schema: ToolSchema, arguments: seq<Member>) returns (outcome: Outcome)
    ensures outcome == Prepare(f, schema, arguments)
  {
    var fields: seq<Field>, prepared: seq<Member> := [], [];
    for i := 0 to |schema.required|
      invariant fields == Missing(schema.required[..i], arguments)
    {
      var name := schema.required[i];
      assert schema.required[..i + 1][..i] == schema.required[..i];
      if Get(arguments, name).Null? {
        fields := fields + [Field(name, MissingField)];
      }
    }
    assert schema.required[..|schema.required|] == schema.required;
    for i := 0 to |arguments|
      invariant fields == Missing(schema.required, arguments) + Offending(f, schema, arguments[..i])
      invariant prepared == Accepted(f, schema, arguments[..i])
    {
      var name, value := arguments[i].name, arguments[i].value;
      assert arguments[..i + 1][..i] == arguments[..i];
      var found := Find(schema.properties, name);
      if found.None? {
        fields := fields + [Field(name, UnknownField)];
      } else if value.Null? {
        prepared := prepared + [Member(name, Null)];
      } else {
        var coerced := Coerce(f, schema.properties[found.value].schema, value);
        match coerced
        case Ok(r) => prepared := prepared + [Member(name, r)];
        case Err(expected) => fields := fields + [Field(name, InvalidValue(expected, PythonType(value)))];
      }
    }
    assert arguments[..|arguments|] == arguments;
    outcome := if fields != [] then Refused(fields) else Prepared(prepared);
  }

  // ---------------------------------------------------------------------
  // What is reported
  // ---------------------------------------------------------------------

  function FieldNames(fields: seq<Field>): seq<string> {
    Mapped(fields, (f: Field) => f.name)
  }

  function Select(names: seq<string>, chosen: set<string>): seq<string> {
    if names == [] then []
    else
      var n := |names| - 1;
      Select(names[..n], chosen) + if names[n] in chosen then [names[n]] else []
  }

  lemma {:induction false} SelectDistinct(names: seq<string>, chosen: set<string>)
    requires Distinct(names)
    ensures Distinct(Select(names, chosen))
    ensures forall name :: name in Select(names, chosen) <==> name in names && name in chosen
  {
    if names != [] {
      var n := |names| - 1;
      SelectDistinct(names[..n], chosen);
      assert names == names[..n] + [names[n]];
      assert forall i :: 0 <= i < n ==> names[i] != names[n];
    }
  }

  ghost function AbsentNames(schema: ToolSchema, arguments: seq<Member>): set<string> {
    set name <- schema.required | Get(arguments, name).Null?
  }

  ghost function OffendingNames(f: Floats, schema: ToolSchema, arguments: seq<Member>): set<string> {
    set m <- arguments | Offends(f, schema, m) :: m.name
  }

  lemma {:induction false} MissingNames(required: seq<string>, schema: ToolSchema, arguments: seq<Member>)
    requires required <= schema.required
    ensures FieldNames(Missing(required, arguments)) == Select(required, AbsentNames(schema, arguments))
  {
    if required != [] {
      var n := |required| - 1;
      MissingNames(required[..n], schema, arguments);
      assert required[n] == schema.required[n];
      FieldNamesAppend(Missing(required[..n], arguments),
        if Get(arguments, required[n]).Null? then [Field(required[n], MissingField)] else []);
    }
  }

  lemma FieldNamesAppend(a: seq<Field>, b: seq<Field>)
    ensures FieldNames(a + b) == FieldNames(a) + FieldNames(b)
  {}

  lemma {:induction false} OffenderNames(f: Floats, schema: ToolSchema, part: seq<Member>, arguments: seq<Member>)
    requires part <= arguments && Distinct(Names(arguments))
    ensures FieldNames(Offending(f, schema, part)) == Select(Names(part), OffendingNames(f, schema, arguments))
  {
    if part != [] {
      var n := |part| - 1;
      OffenderNames(f, schema, part[..n], arguments);
      assert Names(part)[..n] == Names(part[..n]);
      NamedOffender(f, schema, arguments, n);
      FieldNamesAppend(Offending(f, schema, part[..n]),
        if Offends(f, schema, part[n]) then [Field(part[n].name, ProblemOf(f, schema, part[n]))] else []);
    }
  }

  lemma NamedOffender(f: Floats, schema: ToolSchema, arguments: seq<Member>, i: nat)
    requires i < |arguments| && Distinct(Names(arguments))
    ensures arguments[i].name in OffendingNames(f, schema, arguments) <==> Offends(f, schema, arguments[i])
  {
    if arguments[i].name in OffendingNames(f, schema, arguments) {
      var m :| m in arguments && Offends(f, schema, m) && m.name == arguments[i].name;
      var j :| 0 <= j < |arguments| && arguments[j] == m;
      assert Names(arguments)[j] == Names(arguments)[i];
    }
  }

  ghost function ReportedNames(f: Floats, schema: ToolSchema, arguments: seq<Member>): seq<string> {
    match Prepare(f, schema, arguments)
    case Prepared(_) => []
    case Refused(fields) => FieldNames(fields)
  }

  /** Missing arguments come first in schema order, then the other offenders in the order given. */
  lemma ReportOrder(f: Floats, schema: ToolSchema, arguments: seq<Member>)
    requires Distinct(Names(arguments))
    ensures ReportedNames(f, schema, arguments) ==
            Select(schema.required, AbsentNames(schema, arguments))
            + Select(Names(arguments), OffendingNames(f, schema, arguments))
  {
    MissingNames(schema.required, schema, arguments);
    OffenderNames(f, schema, arguments, arguments);
    FieldNamesAppend(Missing(schema.required, arguments), Offending(f, schema, arguments));
  }

  /** A call is refused exactly when something offends, and each offender is then named exactly once. */
  lemma OffendersNamedOnce(f: Floats, schema: ToolSchema, arguments: seq<Member>)
    requires Distinct(Names(arguments)) && Distinct(schema.required)
    requires forall name <- schema.required :: Declared(schema, name)
    ensures var offenders := AbsentNames(schema, arguments) + OffendingNames(f, schema, arguments);
      var reported := ReportedNames(f, schema, arguments);
      && (Prepare(f, schema, arguments).Refused? <==> offenders != {})
      && Distinct(reported)
      && forall name :: name in reported <==> name in offenders
  {
    ReportOrder(f, schema, arguments);
    OffenderGiven(f, schema, arguments);
    SelectBoth(schema.required, AbsentNames(schema, arguments), Names(arguments), OffendingNames(f, schema, arguments));
  }

  lemma SelectBoth(a: seq<string>, fromA: set<string>, b: seq<string>, fromB: set<string>)
    requires Distinct(a) && Distinct(b) && fromA !! fromB
    requires (forall name <- fromA :: name in a) && (forall name <- fromB :: name in b)
    ensures var all := Select(a, fromA) + Select(b, fromB);
      && Distinct(all)
      && (forall name :: name in all <==> name in fromA + fromB)
      && (all != [] <==> fromA + fromB != {})
  {
    var all := Select(a, fromA) + Select(b, fromB);
    SelectDistinct(a, fromA);
    SelectDistinct(b, fromB);
    DistinctConcat(Select(a, fromA), Select(b, fromB));
    if all != [] { assert all[0] in all; }
  }

  /** An offender is among the arguments, and is not also an absent required one. */
  lemma OffenderGiven(f: Floats, schema: ToolSchema, arguments: seq<Member>)
    requires Distinct(Names(arguments)) && forall name <- schema.required :: Declared(schema, name)
    ensures forall name <- OffendingNames(f, schema, arguments) ::
              name in Names(arguments) && name !in AbsentNames(schema, arguments)
  {
    forall name | name in OffendingNames(f, schema, arguments)
      ensures name in Names(arguments) && name !in AbsentNames(schema, arguments)
    {
      var m :| m in arguments && Offends(f, schema, m) && m.name == name;
      var i :| 0 <= i < |arguments| && arguments[i] == m;
      GetAt(arguments, i);
      assert Names(arguments)[i] == name;
    }
  }

  lemma DistinctConcat(a: seq<string>, b: seq<string>)
    requires Distinct(a) && Distinct(b) && forall name <- a :: name !in b
    ensures Distinct(a + b)
  {
    forall i, j | 0 <= i < j < |a + b| ensures (a + b)[i] != (a + b)[j] {
      if i < |a| && |a| <= j {
        assert a[i] in a && b[j - |a|] in b;
      }
    }
  }

  /** Without the condition on `required`, one name can be reported twice. */
  lemma UndeclaredRequired(f: Floats, name: string)
    ensures Prepare(f, ToolSchema([], [name]), [Member(name, Null)]) ==
            Refused([Field(name, MissingField), Field(name, UnknownField)])
  {
    var arguments := [Member(name, Null)];
    assert Missing([name][..0], arguments) == [];
    assert Offending(f, ToolSchema([], [name]), arguments[..0]) == [];
  }

  /** Each report says what is wrong with the argument it names. */
  ghost predicate Explained(f: Floats, schema: ToolSchema, arguments: seq<Member>, field: Field) {
    match field.problem
    case MissingField => field.name in schema.required && Get(arguments, field.name).Null?
    case UnknownField => field.name in Names(arguments) && !Declared(schema, field.name)
    case InvalidValue(expected, received) =>
      && field.name in Names(arguments) && Declared(schema, field.name)
      && var v := Get(arguments, field.name);
         && TypeNamed(v, received) && !v.Null?
         && Refuses(f, SchemaOf(schema, field.name), v)
         && Coerce(f, SchemaOf(schema, field.name), v) == Err(expected)
  }

  predicate TypeNamed(v: Json, name: string) {
    && (v.Bool? ==> name == "bool") && (v.Int? ==> name == "int") && (v.Float? ==> name == "float")
    && (v.Str? ==> name == "str") && (v.Arr? ==> name == "list") && (v.Obj? ==> name == "dict")
  }

  /** An argument offends if and only if it is undeclared, or not null and refused by its schema. */
  lemma OffendsExactlyWhen(f: Floats, schema: ToolSchema, m: Member)
    ensures Offends(f, schema, m) <==>
            || m.name !in PropertyNames(schema.properties)
            || (m.value != Null && Refuses(f, SchemaOf(schema, m.name), m.value))
  {
    if Declared(schema, m.name) { RejectedExactlyWhen(f, SchemaOf(schema, m.name), m.value); }
  }

  lemma {:induction false} MissingExplained(
      f: Floats, schema: ToolSchema, arguments: seq<Member>, required: seq<string>)
    requires required <= schema.required
    ensures forall field <- Missing(required, arguments) :: Explained(f, schema, arguments, field)
  {
    if required != [] {
      MissingExplained(f, schema, arguments, required[..|required| - 1]);
      assert required[|required| - 1] == schema.required[|required| - 1];
    }
  }

  lemma {:induction false} OffendingExplained(f: Floats, schema: ToolSchema, arguments: seq<Member>, part: seq<Member>)
    requires part <= arguments && Distinct(Names(arguments))
    ensures forall field <- Offending(f, schema, part) :: Explained(f, schema, arguments, field)
  {
    if part != [] {
      var n := |part| - 1;
      OffendingExplained(f, schema, arguments, part[..n]);
      GetAt(arguments, n);
      OffendsExactlyWhen(f, schema, part[n]);
      assert Names(arguments)[n] == part[n].name;
    }
  }

  lemma ReportsExplained(f: Floats, schema: ToolSchema, arguments: seq<Member>)
    requires Distinct(Names(arguments)) && Prepare(f, schema, arguments).Refused?
    ensures forall field <- Prepare(f, schema, arguments).fields :: Explained(f, schema, arguments, field)
  {
    MissingExplained(f, schema, arguments, schema.required);
    OffendingExplained(f, schema, arguments, arguments);
  }

  // ---------------------------------------------------------------------
  // What is passed on
  // ---------------------------------------------------------------------

  lemma {:induction false} AcceptedOneByOne(f: Floats, schema: ToolSchema, arguments: seq<Member>)
    ensures Offending(f, schema, arguments) == [] <==>
              forall i :: 0 <= i < |arguments| ==> !Offends(f, schema, arguments[i])
    ensures Offending(f, schema, arguments) == [] ==>
              var p := Accepted(f, schema, arguments);
              |p| == |arguments| && forall i :: 0 <= i < |arguments| ==> p[i] == Coerced(f, schema, arguments[i])
  {
    if arguments != [] {
      var n := |arguments| - 1;
      AcceptedOneByOne(f, schema, arguments[..n]);
      assert forall i :: 0 <= i < n ==> arguments[..n][i] == arguments[i];
    }
  }

  lemma {:induction false} MissingNothing(required: seq<string>, arguments: seq<Member>)
    ensures Missing(required, arguments) == [] <==>
              forall i :: 0 <= i < |required| ==> !Get(arguments, required[i]).Null?
  {
    if required != [] {
      var n := |required| - 1;
      MissingNothing(required[..n], arguments);
      assert forall i :: 0 <= i < n ==> required[..n][i] == required[i];
    }
  }

  lemma {:induction false} GetSame(a: seq<Member>, b: seq<Member>, name: string)
    requires |a| == |b|
    requires forall i :: 0 <= i < |a| ==> a[i].name == b[i].name && (a[i].value.Null? <==> b[i].value.Null?)
    ensures Get(a, name).Null? <==> Get(b, name).Null?
  {
    if a != [] { GetSame(a[1..], b[1..], name); }
  }

  /** An accepted call keeps its arguments, their order and its nulls; other values have their declared type. */
  lemma PreparedSound(f: Floats, schema: ToolSchema, arguments: seq<Member>)
    requires Prepare(f, schema, arguments).Prepared?
    ensures var p := Prepare(f, schema, arguments).arguments;
      && |p| == |arguments|
      && forall i :: 0 <= i < |p| ==>
           && p[i].name == arguments[i].name && Declared(schema, p[i].name)
           && (p[i].value.Null? <==> arguments[i].value.Null?)
           && InnerSettled(f, SchemaOf(schema, p[i].name), arguments[i].value, p[i].value)
           && (!p[i].value.Null? ==> Coerce(f, SchemaOf(schema, p[i].name), arguments[i].value) == Ok(p[i].value))
  {
    AcceptedOneByOne(f, schema, arguments);
    forall i | 0 <= i < |arguments| && !arguments[i].value.Null?
      ensures var nested := SchemaOf(schema, arguments[i].name);
        var r := Coerce(f, nested, arguments[i].value);
        r.Ok? && !r.value.Null? && InnerSettled(f, nested, arguments[i].value, r.value)
    {
      NotNull(f, SchemaOf(schema, arguments[i].name), arguments[i].value);
      Sound(f, SchemaOf(schema, arguments[i].name), arguments[i].value,
            Coerce(f, SchemaOf(schema, arguments[i].name), arguments[i].value).value);
    }
  }

  ghost predicate AllSteady(f: Floats, schema: ToolSchema) {
    forall i :: 0 <= i < |schema.properties| ==> Steady(f, schema.properties[i].schema)
  }

  /** Preparing prepared arguments returns them unchanged. */
  lemma PrepareIdempotent(f: Floats, schema: ToolSchema, arguments: seq<Member>)
    requires AllSteady(f, schema) && Prepare(f, schema, arguments).Prepared?
    ensures var once := Prepare(f, schema, arguments); Prepare(f, schema, once.arguments) == once
  {
    var p := Prepare(f, schema, arguments).arguments;
    PreparedSound(f, schema, arguments);
    forall i | 0 <= i < |p| ensures !Offends(f, schema, p[i]) && Coerced(f, schema, p[i]) == p[i] {
      if !p[i].value.Null? {
        Idempotent(f, SchemaOf(schema, p[i].name), arguments[i].value);
      }
    }
    AcceptedOneByOne(f, schema, p);
    MissingNothing(schema.required, arguments);
    MissingNothing(schema.required, p);
    forall name <- schema.required ensures !Get(p, name).Null? { GetSame(p, arguments, name); }
    assert Accepted(f, schema, p) == p;
  }

  predicate AllConform(schema: ToolSchema, arguments: seq<Member>, strict: bool) {
    && (forall name <- schema.required :: !Get(arguments, name).Null?)
    && forall i :: 0 <= i < |arguments| ==>
         && Declared(schema, arguments[i].name)
         && UnionFree(SchemaOf(schema, arguments[i].name))
         && (arguments[i].value.Null? || Conforms(SchemaOf(schema, arguments[i].name), arguments[i].value, strict))
  }

  /** A conforming call is accepted with equal values; with the very same ones if it conforms strictly. */
  lemma ConformingCall(f: Floats, schema: ToolSchema, arguments: seq<Member>, strict: bool)
    requires AllConform(schema, arguments, strict)
    ensures var r := Prepare(f, schema, arguments);
      && r.Prepared? && |r.arguments| == |arguments|
      && (forall i :: 0 <= i < |arguments| ==>
            r.arguments[i].name == arguments[i].name && Equal(r.arguments[i].value, arguments[i].value))
      && (strict ==> r.arguments == arguments)
  {
    forall i | 0 <= i < |arguments|
      ensures !Offends(f, schema, arguments[i])
      ensures Coerced(f, schema, arguments[i]).name == arguments[i].name
      ensures Equal(Coerced(f, schema, arguments[i]).value, arguments[i].value)
      ensures strict ==> Coerced(f, schema, arguments[i]) == arguments[i]
    {
      if !arguments[i].value.Null? {
        ConformingKept(f, SchemaOf(schema, arguments[i].name), arguments[i].value, strict);
      }
    }
    AcceptedOneByOne(f, schema, arguments);
    MissingNothing(schema.required, arguments);
    if strict { assert Accepted(f, schema, arguments) == arguments; }
  }
}
