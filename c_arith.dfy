/**
 * The two C++ arithmetic conversions the core relies on, written out because
 * Dafny's own `/` on `int` is Euclidean and `real` has no truncating cast.
 */
module CArith {
  function Abs(x: int): nat { if x < 0 then -x else x }

  /** C++ `a / b` on `int`: the exact quotient truncated toward zero. */
  function TruncDiv(a: int, b: int): (q: int)
    requires b != 0
    ensures var r := a - q * b; Abs(r) < Abs(b) && (r == 0 || (r < 0) == (a < 0))
  {
    var q0, m := Abs(a) / Abs(b), Abs(a) % Abs(b);
    MulNegate(q0, Abs(b));
    if (a < 0) == (b < 0) then
      assert a - q0 * b == if a < 0 then -m else m;
      q0
    else
      assert a - (-q0) * b == if a < 0 then -m else m;
      -q0
  }

  /** Negating either factor negates the product. */
  lemma MulNegate(q: int, b: int)
    ensures q * -b == -(q * b) && (-q) * b == -(q * b) && (-q) * -b == q * b
  {
  }

  /** The implicit C++ conversion of a floating-point value to `int`: truncation toward zero. */
  function Trunc(x: real): (r: int)
    ensures 0.0 <= x ==> 0 <= r && r as real <= x < r as real + 1.0
    ensures x < 0.0 ==> r <= 0 && r as real - 1.0 < x <= r as real
  {
    if 0.0 <= x then x.Floor else -((-x).Floor)
  }

  /** Truncating a value that lies between two integers never leaves that range. */
  lemma TruncBetween(x: real, lo: int, hi: int)
    requires lo as real <= x <= hi as real
    ensures lo <= Trunc(x) <= hi
  {
    if 0.0 <= x {
      assert Trunc(x) as real <= x;
      assert x < Trunc(x) as real + 1.0;
    } else {
      assert Trunc(x) as real - 1.0 < x;
      assert x <= Trunc(x) as real;
    }
  }
}
