/** Integer helpers shared by the tree semantics and the machine. */
module Arith {

  function Abs(x: int): int {
    if x < 0 then -x else x
  }

  /** Division truncating toward zero, as `cqo; idiv` computes it (Dafny's own
      `/` is Euclidean). With `TruncRem`, the quotient and remainder satisfy
      the C rule a == q * b + r with |r| < |b| and r taking the sign of a. */
  function TruncDiv(a: int, b: int): (q: int)
    requires b != 0
    ensures 0 <= a ==> 0 <= a - q * b < Abs(b)
    ensures a < 0 ==> -Abs(b) < a - q * b <= 0
  {
    var m := Abs(a) / Abs(b);
    DivMod(Abs(a), Abs(b));
    if (a < 0) == (b < 0) then
      SignedProduct(m, a, b);
      m
    else
      SignedProduct(-m, a, b);
      -m
  }

  /** Euclidean division of naturals: quotient times divisor plus remainder. */
  lemma DivMod(x: nat, y: nat)
    requires y > 0
    ensures x == (x / y) * y + x % y && 0 <= x % y < y
  {
  }

  /** Sign bookkeeping for TruncDiv: the product q * b equals the product of
      the magnitudes with the sign the quotient takes. */
  lemma SignedProduct(q: int, a: int, b: int)
    requires b != 0
    requires q == if (a < 0) == (b < 0) then Abs(a) / Abs(b) else -(Abs(a) / Abs(b))
    ensures a - q * b == (if a < 0 then -(Abs(a) - (Abs(a) / Abs(b)) * Abs(b)) else Abs(a) - (Abs(a) / Abs(b)) * Abs(b))
  {
    var m := Abs(a) / Abs(b);
    if b < 0 {
      assert m * b == -(m * Abs(b));
    } else {
      assert m * b == m * Abs(b);
    }
  }

  function TruncRem(a: int, b: int): int
    requires b != 0
  {
    a - TruncDiv(a, b) * b
  }

  function Bool(c: bool): int {
    if c then 1 else 0
  }
}
