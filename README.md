# add_one, modelled in Dafny

`package_trial_zenjiro` exposes one operation, `add_one(number)`, which
returns `number + 1` and leaves everything else to Python's numeric
dispatch: an `int` (of any size) gets exactly one more, a `bool` counts as
the int 0 or 1, a `Fraction` stays exact and keeps its type, a `Decimal`
keeps its type and its digits after the point (rounded to the context's
precision), a complex number gets one more in its real part only, and anything that is not
a number (a string, list, tuple, dict, set, `None`, a plain object) makes
the addition raise `TypeError`.

The model is three modules:

- `Numbers` (numbers.dfy): `Fraction` as a numerator over a positive
  denominator and finite `Decimal` as a coefficient times a power of ten,
  with what each does when a Python int is added to it. A Fraction plus an
  int is built as `(num + k*den) / den` without a new reduction (the
  denominator's gcd with 1 is 1); `AddIntKeepsLowestTerms` proves that this
  keeps the fraction reduced. A Decimal plus an int is computed at the
  smaller of the two exponents, so digits after the point are kept.
- `Increment` (increment.dfy): the Python values `add_one` can be handed, as
  one closed datatype `Value`; `AddInt(v, k)` is Python's `v + k` for an
  int `k`, `AddOne` is `add_one`, `SubOne` is `x - 1`. Each is specified by
  what it means: it succeeds exactly on numbers, the result has the type
  Python's promotion gives (`bool` becomes `int`, every other number type
  is kept), its real part is one larger and its imaginary part unchanged.
- `Usage` (usage.dfy): `add_one` applied repeatedly to its own result and
  mapped over a list, as the test suite uses it.

On the values the model covers, `add_one` raises only `TypeError`, except
`decimal.Overflow` for a Decimal whose rounded sum exceeds the decimal
context's exponent range (see "## Left out"). The model returns
`Outcome.TypeError` for the former and does not model the latter.

## Model

| member | source | states |
|---|---|---|
| Increment.AddOne | src/package_trial_zenjiro/main.py:1-27 | succeeds exactly on numbers (TypeError otherwise); the result's type is the input's, bool promoted to int; its real part is one larger and its imaginary part unchanged |
| Increment.AddInt | src/package_trial_zenjiro/main.py:27 | Python's `v + k` for an int k: succeeds exactly on numbers, keeps the number type (bool becomes int), adds k to the real part, keeps the imaginary part |
| Increment.SubOne | tests/test_edge_cases.py:90-96 | `x - 1`: succeeds exactly on numbers, keeps the type (bool becomes int), real part one smaller, imaginary part unchanged |
| Increment.AddOneInt | tests/test_edge_cases.py:60-66 | for every int n, the result is the int n + 1 exactly, with no overflow at any magnitude |
| Increment.AddOneBool | tests/test_advanced.py:38-46 | True gives the int 2 and False the int 1 |
| Increment.AddOneComplex | src/package_trial_zenjiro/main.py:24-25 | a complex number gets one more in its real part and keeps its imaginary part |
| Increment.AddOneFraction | tests/test_advanced.py:30-36 | a Fraction gives a Fraction with the same denominator and a value one larger, in lowest terms exactly when the input is |
| Increment.AddOneDecimal | tests/test_advanced.py:20-28 | a Decimal gives a Decimal one larger whose exponent is the smaller of the input's and 0 |
| Increment.AddOneRejectsNonNumbers | tests/test_documentation.py:87-99 | the result is TypeError exactly for strings, lists, tuples, dicts, sets, None and plain objects |
| Increment.SubOneUndoesAddOne | tests/test_advanced.py:90-99 | `add_one(x) - 1 == x` for every number under Python's `==`, and it is the same value again for ints, Fractions, complex numbers and Decimals without a positive exponent |
| Increment.NumEq | tests/test_advanced.py:38-46 | Python's `==` between numbers: only numbers take part, every exact number equals itself, and an int equals a bool exactly when it is 1 for True and 0 for False |
| Increment.AddOneRespectsEquality | tests/test_documentation.py:65-74 | numbers that compare equal give results that compare equal |
| Increment.DocumentedExamples | src/package_trial_zenjiro/main.py:17-25 | add_one(5) is 6, add_one(-1) is 0, add_one(1+2j) is 2+2j, Fraction(3,2) gives Fraction(5,2), Decimal("1.5") gives Decimal("2.5"), a string and None give TypeError |
| Numbers.FractionAddInt | src/package_trial_zenjiro/main.py:27 | Fraction plus an int stands for the exact sum and keeps the denominator |
| Numbers.AddIntKeepsLowestTerms | tests/test_advanced.py:30-36 | the unreduced sum of a Fraction and an int is in lowest terms exactly when the Fraction is |
| Numbers.DecimalAddInt | tests/test_advanced.py:20-28 | Decimal plus an int stands for the exact sum, at the smaller of the input's exponent and 0 |
| Usage.AddOneTimes | tests/test_edge_cases.py:98-105 | the loop `current = add_one(current)` run k times: it fails (TypeError) exactly when at least one step is taken from a non-number, and from a number it ends at a number |
| Usage.AddOneTimesAddsK | tests/test_edge_cases.py:98-105 | k applications to a number never fail, add k to the real part, keep the imaginary part and, for k > 0, give exactly `x + k` (so its type, denominator or exponent) |
| Usage.AddOneTimesInt | tests/test_edge_cases.py:98-105 | k applications to the int n give the int n + k |
| Usage.AddOneTimesFromZero | tests/test_edge_cases.py:98-105 | k applications starting from 0 give k |
| Usage.AddOneTwice | src/package_trial_zenjiro/main.py:27 | add_one(add_one(x)) is exactly the value `x + 2` gives, for every number x |
| Usage.MapAddOne | tests/test_integration.py:69-84 | mapping add_one over a list succeeds exactly when every element is a number; then the result has the list's length and element i is add_one(xs[i]) |
| Usage.MapAddOneInts | tests/test_performance.py:60-62 | mapped over ints, the result has the same length and element i is xs[i] + 1 |

## Left out

- Floating point: `float` values and complex numbers with float parts
  (rounding, infinities, NaN, -0.0, epsilon) are not modelled; complex
  parts are exact reals and there is no float variant of `Value`.
- Decimal: the arithmetic context is not modelled. Rounding to the context
  precision (28 significant digits by default) is left out, so
  `Decimal(10**30) + 1` is exact here while Python rounds it back to
  `Decimal(10**30)`. The context's exponent limits (Emax = 999999,
  Emin = -999999 by default) are left out, so a sum whose rounded adjusted
  exponent exceeds Emax, such as `Decimal("1E+1000000") + 1`, or
  `Decimal("9.9999999999999999999999999999E+999999") + 1` whose rounding
  to 28 digits carries to `1E+1000000`, is an ordinary result here while
  Python raises `decimal.Overflow` (a trapped signal by default).
  The special values (NaN, sNaN, Infinity) and the sign of zero are not
  modelled either (`Decimal('sNaN') + 1` raises
  `decimal.InvalidOperation`): a Decimal's sign lives in its coefficient
  and every sum is exact.
- Increment.AddOne: succeeds on every modelled Decimal, including those
  whose sum Python rejects with `decimal.Overflow` under the default
  context; its contract is exact arithmetic without the context's limits,
  for the reason given in the Decimal line above.
- User classes that define `__add__` or `__radd__`, subclasses of int and
  float, and NumPy scalars: `Value` is a closed union, and `Object` stands
  only for a plain `object()`.
- The text of the TypeError message: the error carries no payload.
- merge_pr.py: it obtains a token from a local command and calls a hosting
  service's REST API; it is I/O only and does not use `add_one`.
- Timing, memory, thread-pool, import, reload, signature and docstring
  tests: they concern the Python runtime, not what `add_one` computes.
- The tests' `invalid_inputs` fixture lists a complex number among the
  invalid inputs; the code accepts complex numbers, and the model follows
  the code.
