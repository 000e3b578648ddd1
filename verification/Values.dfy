/** JSON values as Python holds them, and Python's `==` between them. */
module Values {
  import opened Text

  /** A finite float, mantissa * 2^exponent, in lowest terms. */
  datatype Dyadic = Dyadic(mantissa: int, exponent: int)
  {
    predicate Lowest() {
      if mantissa == 0 then exponent == 0 else mantissa % 2 == 1
    }

    /** `value.is_integer()`. */
    predicate Whole() {
      exponent >= 0
    }

    /** `int(value)` of a whole float. */
    function AsInt(): int
      requires Whole()
    {
      mantissa * Pow2(exponent)
    }
  }

  type Float = x: Dyadic | x.Lowest() witness Dyadic(0, 0)

  const ONE: Float := Dyadic(1, 0)

  /** An object keeps its members in order; its names are distinct. */
  datatype Json =
    | Null
    | Bool(truth: bool)
    | Int(number: int)
    | Float(float: Float)
    | Str(text: string)
    | Arr(items: seq<Json>)
    | Obj(members: seq<Member>)

  datatype Member = Member(name: string, value: Json)

  function Names(members: seq<Member>): seq<string> {
    Mapped(members, (m: Member) => m.name)
  }

  predicate Distinct(names: seq<string>) {
    forall i, j :: 0 <= i < j < |names| ==> names[i] != names[j]
  }

  /** `arguments.get(name)`, with None for an absent name. */
  function Get(members: seq<Member>, name: string): Json {
    if members == [] then Null
    else if members[0].name == name then members[0].value
    else Get(members[1..], name)
  }

  lemma {:induction false} GetAt(members: seq<Member>, i: nat)
    requires i < |members| && Distinct(Names(members))
    ensures Get(members, members[i].name) == members[i].value
  {
    if i > 0 {
      assert Names(members)[0] != Names(members)[i];
      assert Names(members[1..]) == Names(members)[1..];
      GetAt(members[1..], i - 1);
    }
  }

  lemma {:induction false} GetAbsent(members: seq<Member>, name: string)
    requires name !in Names(members)
    ensures Get(members, name) == Null
  {
    if members != [] {
      assert Names(members)[0] != name;
      assert Names(members[1..]) == Names(members)[1..];
      GetAbsent(members[1..], name);
    }
  }

  /** What `==` compares: booleans are 0 and 1, a whole float is its integer, member order is lost. */
  datatype Canonical =
    | NullValue
    | IntValue(number: int)
    | FractionValue(float: Float)
    | TextValue(text: string)
    | ListValue(items: seq<Canonical>)
    | DictValue(members: map<string, Canonical>)

  function Canon(v: Json): Canonical
    decreases v, 1
  {
    match v
    case Null => NullValue
    case Bool(b) => IntValue(if b then 1 else 0)
    case Int(n) => IntValue(n)
    case Float(x) => if x.Whole() then IntValue(x.AsInt()) else FractionValue(x)
    case Str(s) => TextValue(s)
    case Arr(items) => ListValue(seq(|items|, i requires 0 <= i < |items| => Canon(items[i])))
    case Obj(members) => DictValue(CanonMembers(v, 0))
  }

  function CanonMembers(v: Json, from: nat): map<string, Canonical>
    requires v.Obj? && from <= |v.members|
    decreases v, 0, |v.members| - from
  {
    if from == |v.members| then map[]
    else CanonMembers(v, from + 1)[v.members[from].name := Canon(v.members[from].value)]
  }

  predicate Equal(a: Json, b: Json) {
    Canon(a) == Canon(b)
  }

  /** `value in options`. */
  predicate OneOf(value: Json, options: seq<Json>) {
    exists i :: 0 <= i < |options| && Equal(value, options[i])
  }

  /** Lists of equal items and objects of equal members are equal. */
  lemma EqualLists(a: seq<Json>, b: seq<Json>)
    requires |a| == |b| && forall i :: 0 <= i < |a| ==> Equal(a[i], b[i])
    ensures Equal(Arr(a), Arr(b))
  {
    assert Canon(Arr(a)).items == Canon(Arr(b)).items;
  }

  lemma {:induction false} EqualMembers(a: Json, b: Json, from: nat)
    requires a.Obj? && b.Obj? && |a.members| == |b.members| && from <= |a.members|
    requires forall i :: from <= i < |a.members| ==>
               a.members[i].name == b.members[i].name && Equal(a.members[i].value, b.members[i].value)
    ensures CanonMembers(a, from) == CanonMembers(b, from)
    decreases |a.members| - from
  {
    if from < |a.members| { EqualMembers(a, b, from + 1); }
  }

  // ---------------------------------------------------------------------
  // What equality means
  // ---------------------------------------------------------------------

  /** The number that mantissa * 2^exponent is. */
  function Exact(mantissa: int, exponent: int): real
    decreases if exponent < 0 then -exponent else exponent
  {
    if exponent == 0 then mantissa as real
    else if exponent > 0 then Exact(2 * mantissa, exponent - 1)
    else Exact(mantissa, exponent + 1) / 2.0
  }

  lemma {:induction false} ExactWhole(m: int, e: nat)
    ensures Exact(m, e) == (m * Pow2(e)) as real
    decreases e
  {
    if e > 0 {
      ExactWhole(2 * m, e - 1);
      assert 2 * m * Pow2(e - 1) == m * Pow2(e);
    }
  }

  /** An odd mantissa over a power of two is no integer. */
  lemma {:induction false} ExactFraction(m: int, e: int, n: int)
    requires e < 0 && m % 2 == 1
    ensures Exact(m, e) != n as real
    decreases -e
  {
    if e < -1 { ExactFraction(m, e + 1, 2 * n); }
  }

  predicate IsInteger(r: real) {
    r.Floor as real == r
  }

  /** `is_integer` and `int` of a float, said of the number it is. */
  lemma WholeMeans(x: Float)
    ensures x.Whole() <==> IsInteger(Exact(x.mantissa, x.exponent))
    ensures x.Whole() ==> Exact(x.mantissa, x.exponent) == x.AsInt() as real
  {
    if x.Whole() {
      ExactWhole(x.mantissa, x.exponent);
    } else {
      ExactFraction(x.mantissa, x.exponent, Exact(x.mantissa, x.exponent).Floor);
    }
  }

  lemma {:induction false} FractionsApart(m: int, e: int, n: int, d: int)
    requires e < d < 0 && m % 2 == 1
    ensures Exact(m, e) != Exact(n, d)
    decreases -d
  {
    if d == -1 { ExactFraction(m, e + 1, n); } else { FractionsApart(m, e + 1, n, d + 1); }
  }

  lemma {:induction false} SameExponent(m: int, n: int, e: int)
    requires e < 0
    ensures Exact(m, e) == Exact(n, e) <==> m == n
    decreases -e
  {
    if e < -1 { SameExponent(m, n, e + 1); }
  }

  /** Two fractions are the same number only if they are the same float. */
  lemma FractionsEqual(x: Float, y: Float)
    requires !x.Whole() && !y.Whole()
    ensures Exact(x.mantissa, x.exponent) == Exact(y.mantissa, y.exponent) <==> x == y
  {
    if x.exponent < y.exponent {
      FractionsApart(x.mantissa, x.exponent, y.mantissa, y.exponent);
    } else if y.exponent < x.exponent {
      FractionsApart(y.mantissa, y.exponent, x.mantissa, x.exponent);
    } else {
      SameExponent(x.mantissa, y.mantissa, x.exponent);
    }
  }

  predicate IsNumber(v: Json) {
    v.Bool? || v.Int? || v.Float?
  }

  /** The number of a boolean, an integer or a float. */
  function NumberOf(v: Json): real
    requires IsNumber(v)
  {
    match v
    case Bool(b) => if b then 1.0 else 0.0
    case Int(n) => n as real
    case Float(x) => Exact(x.mantissa, x.exponent)
  }

  lemma IntegerNumber(v: Json)
    requires IsNumber(v)
    ensures Canon(v).IntValue? ==> NumberOf(v) == Canon(v).number as real
    ensures Canon(v).FractionValue? ==> !IsInteger(NumberOf(v))
  {
    if v.Float? { WholeMeans(v.float); }
  }

  /** Booleans, integers and floats are equal exactly when they are the same number, and to nothing else. */
  lemma EqualNumbers(a: Json, b: Json)
    requires IsNumber(a)
    ensures Equal(a, b) <==> IsNumber(b) && NumberOf(a) == NumberOf(b)
  {
    if IsNumber(b) {
      IntegerNumber(a);
      IntegerNumber(b);
      if Canon(a).FractionValue? && Canon(b).FractionValue? { FractionsEqual(a.float, b.float); }
    }
  }

  /** Null and texts are equal to themselves only. */
  lemma EqualTexts(a: Json, b: Json)
    requires a.Null? || a.Str?
    ensures Equal(a, b) <==> a == b
  {}

  lemma ListsEqualExactlyWhen(a: Json, b: Json)
    requires a.Arr?
    ensures Equal(a, b) <==>
            b.Arr? && |a.items| == |b.items| && forall i :: 0 <= i < |a.items| ==> Equal(a.items[i], b.items[i])
  {
    if b.Arr? {
      var x, y := Canon(a).items, Canon(b).items;
      if |a.items| == |b.items| && forall i :: 0 <= i < |a.items| ==> Equal(a.items[i], b.items[i]) {
        assert x == y;
      }
      if x == y {
        forall i | 0 <= i < |a.items| ensures Equal(a.items[i], b.items[i]) {
          assert x[i] == y[i];
        }
      }
    }
  }

  lemma {:induction false} CanonNames(v: Json, from: nat, name: string)
    requires v.Obj? && from <= |v.members|
    ensures name in CanonMembers(v, from) <==> exists i :: from <= i < |v.members| && v.members[i].name == name
    decreases |v.members| - from
  {
    if from < |v.members| { CanonNames(v, from + 1, name); }
  }

  lemma {:induction false} CanonOfMember(v: Json, from: nat, i: nat)
    requires v.Obj? && from <= i < |v.members|
    requires forall j :: 0 <= j < i ==> v.members[j].name != v.members[i].name
    ensures v.members[i].name in CanonMembers(v, from)
            && CanonMembers(v, from)[v.members[i].name] == Canon(v.members[i].value)
    decreases i - from
  {
    if from < i { CanonOfMember(v, from + 1, i); }
  }

  /** The map has the members' names, each with its member's value. */
  predicate Maps(m: map<string, Canonical>, members: seq<Member>) {
    && m.Keys == (set name <- Names(members))
    && forall i :: 0 <= i < |members| ==> members[i].name in m && m[members[i].name] == Canon(members[i].value)
  }

  lemma CanonByName(v: Json)
    requires v.Obj? && Distinct(Names(v.members))
    ensures Maps(CanonMembers(v, 0), v.members)
  {
    var names := Names(v.members);
    forall name ensures name in CanonMembers(v, 0) <==> name in names {
      CanonNames(v, 0, name);
      if name in CanonMembers(v, 0) {
        var i :| 0 <= i < |v.members| && v.members[i].name == name;
        assert names[i] == name;
      }
    }
    forall i | 0 <= i < |v.members|
      ensures v.members[i].name in CanonMembers(v, 0)
              && CanonMembers(v, 0)[v.members[i].name] == Canon(v.members[i].value)
    {
      assert forall j :: 0 <= j < i ==> names[j] != names[i];
      CanonOfMember(v, 0, i);
    }
  }

  /** Members of the same name have equal values. */
  predicate SameValues(a: seq<Member>, b: seq<Member>) {
    forall i, j :: 0 <= i < |a| && 0 <= j < |b| && a[i].name == b[j].name ==> Equal(a[i].value, b[j].value)
  }

  lemma MapsAgree(m: map<string, Canonical>, n: map<string, Canonical>, a: seq<Member>, b: seq<Member>)
    requires Maps(m, a) && Maps(n, b) && m.Keys == n.Keys && SameValues(a, b)
    ensures m == n
  {
    forall name | name in m ensures m[name] == n[name] {
      var i :| 0 <= i < |a| && Names(a)[i] == name;
      var j :| 0 <= j < |b| && Names(b)[j] == name;
      assert Equal(a[i].value, b[j].value);
    }
  }

  /** Objects are equal exactly when they have the same names, with equal values. */
  lemma ObjectsEqualExactlyWhen(a: Json, b: Json)
    requires a.Obj? && b.Obj? && Distinct(Names(a.members)) && Distinct(Names(b.members))
    ensures Equal(a, b) <==>
            (set name <- Names(a.members)) == (set name <- Names(b.members)) && SameValues(a.members, b.members)
  {
    CanonByName(a);
    CanonByName(b);
    var m, n := CanonMembers(a, 0), CanonMembers(b, 0);
    if m.Keys == n.Keys && SameValues(a.members, b.members) { MapsAgree(m, n, a.members, b.members); }
  }
}
