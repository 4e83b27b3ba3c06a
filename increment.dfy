/** `add_one(number)` of package_trial_zenjiro.main: it returns
    `number + 1` and leaves the rest to Python's numeric dispatch. The
    values it can be handed are a closed union of the Python types it meets
    in practice; the dispatch of `number + <int>` is written out per type. */
module Increment {
  import opened Numbers

  /** The Python type of a value. */
  datatype PyType =
    | IntType | BoolType | FractionType | DecimalType | ComplexType
    | StrType | ListType | TupleType | DictType | SetType | NoneType | ObjectType

  /** A Python value. Numbers are exact: `int` and `bool` as they are,
      `Fraction` and finite `Decimal` as in module Numbers, and `complex`
      with exact real and imaginary parts. */
  datatype Value =
    | Int(i: int)
    | Bool(b: bool)
    | Frac(f: Fraction)
    | Dec(d: Decimal)
    | Complex(re: real, im: real)
    | Str(s: string)
    | List(items: seq<Value>)
    | Tuple(items: seq<Value>)
    | Dict(entries: seq<(Value, Value)>)
    | SetOf(elems: set<Value>)
    | NoneValue
    | Object(id: nat)

  /** The outcome of a Python expression that either yields a value or
      raises `TypeError`. On the values this model covers, `add_one`
      raises only `TypeError`, except `decimal.Overflow` for a Decimal whose
      rounded sum exceeds the decimal context's exponent range; that context
      is not modelled. */
  datatype Outcome<T> = Ok(value: T) | TypeError

  function TypeOf(v: Value): PyType
  {
    match v
    case Int(_) => IntType
    case Bool(_) => BoolType
    case Frac(_) => FractionType
    case Dec(_) => DecimalType
    case Complex(_, _) => ComplexType
    case Str(_) => StrType
    case List(_) => ListType
    case Tuple(_) => TupleType
    case Dict(_) => DictType
    case SetOf(_) => SetType
    case NoneValue => NoneType
    case Object(_) => ObjectType
  }

  /** The numeric types (`numbers.Number`) among the modelled ones. */
  predicate IsNumericType(t: PyType)
  {
    t in {IntType, BoolType, FractionType, DecimalType, ComplexType}
  }

  predicate IsNumber(v: Value)
  {
    IsNumericType(TypeOf(v))
  }

  /** The type of `x + <int>` for a number `x` of type `t`: `bool` is an
      `int` subclass whose arithmetic yields plain `int`; every other
      numeric type keeps its own type. */
  function SumType(t: PyType): PyType
  {
    if t == BoolType then IntType else t
  }

  /** The real part of the number `v` stands for (`True` is 1). */
  function RealPart(v: Value): real
    requires IsNumber(v)
  {
    match v
    case Int(i) => i as real
    case Bool(b) => if b then 1.0 else 0.0
    case Frac(f) => FractionValue(f)
    case Dec(d) => DecimalValue(d)
    case Complex(re, _) => re
  }

  /** The imaginary part of the number `v` stands for. */
  function ImagPart(v: Value): real
    requires IsNumber(v)
  {
    if v.Complex? then v.im else 0.0
  }

  /** Python's `==` between two numbers: numbers of different types compare
      by the value they stand for (`True == 1 == Fraction(1) == 1+0j`).
      Only numbers take part; every exact number equals itself. */
  predicate NumEq(a: Value, b: Value): (r: bool)
    ensures r ==> IsNumber(a) && IsNumber(b)
    ensures IsNumber(a) && a == b ==> r
    ensures a.Int? && b.Bool? ==> (r <==> a.i == if b.b then 1 else 0)
  {
    && IsNumber(a) && IsNumber(b)
    && RealPart(a) == RealPart(b) && ImagPart(a) == ImagPart(b)
  }

  /** Python's `v + k` for an int `k`. A number yields a number of its sum
      type standing for its value plus `k`, with the imaginary part left as
      it is; everything else raises `TypeError`. */
  function AddInt(v: Value, k: int): (r: Outcome<Value>)
    ensures r.Ok? <==> IsNumber(v)
    ensures r.Ok? ==> TypeOf(r.value) == SumType(TypeOf(v))
    ensures r.Ok? ==> RealPart(r.value) == RealPart(v) + k as real
    ensures r.Ok? ==> ImagPart(r.value) == ImagPart(v)
  {
    match v
    case Int(i) => Ok(Int(i + k))
    case Bool(b) => Ok(Int((if b then 1 else 0) + k))
    case Frac(f) => Ok(Frac(FractionAddInt(f, k)))
    case Dec(d) => Ok(Dec(DecimalAddInt(d, k)))
    case Complex(re, im) => Ok(Complex(re + k as real, im))
    case _ => TypeError
  }

  /** `add_one(number)`: `number + 1`. */
  function AddOne(number: Value): (r: Outcome<Value>)
    ensures r.Ok? <==> IsNumber(number)
    ensures r.Ok? ==> TypeOf(r.value) == SumType(TypeOf(number))
    ensures r.Ok? ==> RealPart(r.value) == RealPart(number) + 1.0
    ensures r.Ok? ==> ImagPart(r.value) == ImagPart(number)
  {
    AddInt(number, 1)
  }

  /** `x - 1`, which for every modelled number gives the same result as
      `x + (-1)`. */
  function SubOne(x: Value): (r: Outcome<Value>)
    ensures r.Ok? <==> IsNumber(x)
    ensures r.Ok? ==> TypeOf(r.value) == SumType(TypeOf(x))
    ensures r.Ok? ==> RealPart(r.value) == RealPart(x) - 1.0
    ensures r.Ok? ==> ImagPart(r.value) == ImagPart(x)
  {
    AddInt(x, -1)
  }

  // ------------------------------------------------------------------
  // Properties of add_one per numeric type

  /** An int gets exactly one more, at any magnitude: there is no overflow. */
  lemma AddOneInt(n: int)
    ensures AddOne(Int(n)) == Ok(Int(n + 1))
  {
  }

  /** `True` and `False` are the ints 1 and 0; the result is a plain int. */
  lemma AddOneBool(b: bool)
    ensures AddOne(Bool(b)) == Ok(Int(if b then 2 else 1))
  {
  }

  /** One is added to the real part of a complex number only. */
  lemma AddOneComplex(re: real, im: real)
    ensures AddOne(Complex(re, im)) == Ok(Complex(re + 1.0, im))
  {
  }

  /** A Fraction stays a Fraction with the same denominator and a value one
      larger, and it is in lowest terms exactly when the input is (so
      `Fraction(3, 2)` gives `Fraction(5, 2)` and compares equal to it). */
  lemma AddOneFraction(f: Fraction)
    ensures AddOne(Frac(f)).Ok? && AddOne(Frac(f)).value.Frac?
    ensures var g := AddOne(Frac(f)).value.f;
      && g.den == f.den
      && FractionValue(g) == FractionValue(f) + 1.0
      && (LowestTerms(g) <==> LowestTerms(f))
  {
    AddIntKeepsLowestTerms(f, 1);
  }

  /** A Decimal stays a Decimal one larger; digits after the point are kept
      (the exponent becomes the smaller of its own and 0). */
  lemma AddOneDecimal(d: Decimal)
    ensures AddOne(Dec(d)).Ok? && AddOne(Dec(d)).value.Dec?
    ensures var e := AddOne(Dec(d)).value.d;
      && DecimalValue(e) == DecimalValue(d) + 1.0
      && e.exponent == if d.exponent < 0 then d.exponent else 0
  {
  }

  /** Non-numbers are rejected, and only they are. */
  lemma AddOneRejectsNonNumbers(v: Value)
    ensures AddOne(v) == TypeError <==> v.Str? || v.List? || v.Tuple? || v.Dict?
                                         || v.SetOf? || v.NoneValue? || v.Object?
  {
  }

  // ------------------------------------------------------------------
  // Identities

  /** `add_one(x) - 1 == x` for every number `x`, under Python's `==`; for
      an int, Fraction, complex, or a Decimal with no positive exponent, the
      very same value comes back. */
  lemma SubOneUndoesAddOne(x: Value)
    requires IsNumber(x)
    ensures AddOne(x).Ok? && SubOne(AddOne(x).value).Ok?
    ensures NumEq(SubOne(AddOne(x).value).value, x)
    ensures (x.Int? || x.Frac? || x.Complex? || (x.Dec? && x.d.exponent <= 0))
              ==> SubOne(AddOne(x).value).value == x
  {
  }

  /** Equal numbers give equal results: `add_one` depends only on the value
      its argument stands for, not on its representation. */
  lemma AddOneRespectsEquality(a: Value, b: Value)
    requires NumEq(a, b)
    ensures AddOne(a).Ok? && AddOne(b).Ok?
    ensures NumEq(AddOne(a).value, AddOne(b).value)
  {
  }

  /** The examples of add_one's documentation that do not involve floats,
      and the test suite's exact-type cases. */
  lemma DocumentedExamples()
    ensures AddOne(Int(5)) == Ok(Int(6))
    ensures AddOne(Int(-1)) == Ok(Int(0))
    ensures AddOne(Complex(1.0, 2.0)) == Ok(Complex(2.0, 2.0))
    ensures AddOne(Frac(Fraction(3, 2))) == Ok(Frac(Fraction(5, 2)))
    ensures AddOne(Dec(Decimal(15, -1))) == Ok(Dec(Decimal(25, -1)))
    ensures AddOne(Str("string")) == TypeError
    ensures AddOne(NoneValue) == TypeError
  {
  }
}
