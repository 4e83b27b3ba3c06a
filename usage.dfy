/** How callers use `add_one`: applied again and again to its own result,
    and mapped over a list (`[add_one(x) for x in xs]`). */
module Usage {
  import opened Increment

  /** `add_one` applied `k` times, starting from `x`; a `TypeError` stops
      the chain. It fails exactly when at least one step is taken from a
      non-number, and a chain of steps from a number ends at a number. */
  function AddOneTimes(x: Value, k: nat): (r: Outcome<Value>)
    ensures r.Ok? <==> k == 0 || IsNumber(x)
    ensures r.Ok? && IsNumber(x) ==> IsNumber(r.value)
  {
    if k == 0 then Ok(x)
    else
      match AddOneTimes(x, k - 1)
      case Ok(y) => AddOne(y)
      case TypeError => TypeError
  }

  /** Applying `add_one` `k` times to a number adds `k` to its real part,
      keeps its imaginary part and never fails; after at least one step the
      result is exactly `x + k`, so it also has the sum type of the input
      and, for a Fraction or a Decimal, the denominator or exponent that
      `x + k` has. */
  lemma {:induction false} AddOneTimesAddsK(x: Value, k: nat)
    requires IsNumber(x)
    ensures AddOneTimes(x, k).Ok?
    ensures IsNumber(AddOneTimes(x, k).value)
    ensures RealPart(AddOneTimes(x, k).value) == RealPart(x) + k as real
    ensures ImagPart(AddOneTimes(x, k).value) == ImagPart(x)
    ensures k > 0 ==> TypeOf(AddOneTimes(x, k).value) == SumType(TypeOf(x))
    ensures k > 0 ==> AddOneTimes(x, k) == AddInt(x, k)
  {
    if k > 1 {
      AddOneTimesAddsK(x, k - 1);
    }
  }

  /** On an int, `k` applications give exactly `n + k`. */
  lemma AddOneTimesInt(n: int, k: nat)
    ensures AddOneTimes(Int(n), k) == Ok(Int(n + k))
  {
    AddOneTimesAddsK(Int(n), k);
  }

  /** Starting from 0, the `k`-th application yields `k`. */
  lemma AddOneTimesFromZero(k: nat)
    ensures AddOneTimes(Int(0), k) == Ok(Int(k))
  {
    AddOneTimesInt(0, k);
  }

  /** `add_one(add_one(x)) == x + 2` for every number `x`, and it is the
      very value `x + 2` gives. */
  lemma AddOneTwice(x: Value)
    requires IsNumber(x)
    ensures AddOne(x).Ok? && AddOne(AddOne(x).value).Ok?
    ensures AddOne(AddOne(x).value) == AddInt(x, 2)
    ensures var y := AddOne(AddOne(x).value).value;
      RealPart(y) == RealPart(x) + 2.0 && ImagPart(y) == ImagPart(x)
  {
  }

  /** `[add_one(x) for x in xs]`: the list of results, or `TypeError` as
      soon as one element is not a number. It succeeds exactly when every
      element is a number; then it has the length of `xs` and element `i` is
      `add_one(xs[i])`. */
  function MapAddOne(xs: seq<Value>): (r: Outcome<seq<Value>>)
    ensures r.Ok? <==> forall i :: 0 <= i < |xs| ==> IsNumber(xs[i])
    ensures r.Ok? ==> |r.value| == |xs|
    ensures r.Ok? ==> forall i :: 0 <= i < |xs| ==> AddOne(xs[i]) == Ok(r.value[i])
  {
    if xs == [] then Ok([])
    else
      match AddOne(xs[0])
      case TypeError => TypeError
      case Ok(y) =>
        match MapAddOne(xs[1..])
        case TypeError => TypeError
        case Ok(ys) =>
          assert forall i :: 1 <= i < |xs| ==> xs[i] == xs[1..][i - 1];
          Ok([y] + ys)
  }

  /** Mapped over ints, element `i` of the result is the int `xs[i] + 1`. */
  lemma MapAddOneInts(xs: seq<Value>)
    requires forall i :: 0 <= i < |xs| ==> xs[i].Int?
    ensures MapAddOne(xs).Ok? && |MapAddOne(xs).value| == |xs|
    ensures forall i :: 0 <= i < |xs| ==> MapAddOne(xs).value[i] == Int(xs[i].i + 1)
  {
    var r := MapAddOne(xs);
    forall i | 0 <= i < |xs|
      ensures r.value[i] == Int(xs[i].i + 1)
    {
      AddOneInt(xs[i].i);
    }
  }
}
