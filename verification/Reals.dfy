/** Products and quotients of reals by name, with the laws the conversions need. */
module Reals {

  function Mul(x: real, y: real): real {
    x * y
  }

  function Per(x: real, y: real): real
    requires y > 0.0
  {
    x / y
  }

  lemma MulAssoc(x: real, y: real, z: real)
    ensures Mul(Mul(x, y), z) == Mul(x, Mul(y, z))
  {
  }

  lemma MulSwap(x: real, y: real, z: real)
    ensures Mul(x, y) == Mul(y, x) && Mul(y, Mul(x, z)) == Mul(x, Mul(y, z))
  {
  }

  /** Dividing undoes multiplying, and the other way round. */
  lemma Cancels(x: real, k: real)
    requires k > 0.0
    ensures Mul(Per(x, k), k) == x && Per(Mul(x, k), k) == x
  {
  }

  /** A factor passes through a division. */
  lemma PerMul(c: real, x: real, k: real)
    requires k > 0.0
    ensures Per(Mul(c, x), k) == Mul(c, Per(x, k))
  {
    var q := Per(x, k);
    Cancels(x, k);
    MulAssoc(c, q, k);
    Cancels(Mul(c, q), k);
    hide Mul, Per;
  }

  lemma MulOrder(x: real, y: real, k: real)
    requires k > 0.0
    ensures x <= y <==> Mul(x, k) <= Mul(y, k)
    ensures x <= y ==> Per(x, k) <= Per(y, k)
  {
  }

  lemma MulPositive(x: real, y: real)
    requires x > 0.0 && y > 0.0
    ensures Mul(x, y) > 0.0
  {
  }

  lemma MulSigns(x: real, y: real)
    ensures Mul(-x, y) == -Mul(x, y) && Mul(x, -y) == -Mul(x, y) && Mul(-x, -y) == Mul(x, y)
  {
  }

  lemma MulShuffle(a: real, b: real, p: real, q: real)
    ensures Mul(Mul(a, b), Mul(p, q)) == Mul(Mul(a, p), Mul(b, q))
  {
    MulAssoc(a, b, Mul(p, q));
    MulSwap(p, b, q);
    MulAssoc(a, p, Mul(b, q));
    hide Mul;
  }
}
