/** The integer operators of the evaluator wrap around, and obey the laws of arithmetic modulo
    2^64. */
module IntegerLaws {
  import opened CInt
  import opened Text
  import opened Syntax
  import opened Eval

  lemma WrapAbsorbs(x: int, k: int)
    ensures Wrap64(x + TWO_64 * k) == Wrap64(x)
  {
    var y := x + TWO_63;
    ModShifts(y, TWO_64, k);
  }

  lemma ModShifts(y: int, m: int, k: int)
    requires m > 0
    ensures (y + m * k) % m == y % m
  {
    var q := y / m;
    assert y == m * q + y % m;
    assert y + m * k == m * (q + k) + y % m;
    ModIs(y + m * k, m, q + k, y % m);
  }

  lemma ModIs(n: int, m: int, q: int, r: int)
    requires m > 0 && n == m * q + r && 0 <= r < m
    ensures n % m == r
  {
    QuotientIs(n, m, q, r);
  }

  /** A wrapped value differs from the exact one by a multiple of 2^64. */
  lemma WrapDiffers(x: int) returns (k: int)
    ensures Wrap64(x) == x + TWO_64 * k
  {
    k := -((x + TWO_63) / TWO_64);
  }

  lemma WrapInSum(x: int, y: int)
    ensures Wrap64(Wrap64(x) + y) == Wrap64(x + y)
    ensures Wrap64(y - Wrap64(x)) == Wrap64(y - x)
  {
    var k := WrapDiffers(x);
    WrapAbsorbs(x + y, k);
    WrapAbsorbs(y - x, -k);
    hide Wrap64;
  }

  lemma WrapInProduct(x: int, y: int)
    ensures Wrap64(Wrap64(x) * y) == Wrap64(x * y)
  {
    var k := WrapDiffers(x);
    WrapAbsorbs(x * y, k * y);
    assert (x + TWO_64 * k) * y == x * y + TWO_64 * (k * y);
    hide Wrap64;
  }

  lemma SumsAssociate(x: int, y: int, z: int)
    ensures Wrap64(Wrap64(x + y) + z) == Wrap64(x + Wrap64(y + z))
    ensures Wrap64(Wrap64(x + y) - y) == Wrap64(x)
  {
    WrapInSum(x + y, z);
    WrapInSum(y + z, x);
    WrapInSum(x + y, -y);
    hide Wrap64;
  }

  lemma MulAssociates(x: int, y: int, z: int)
    ensures (x * y) * z == x * (y * z) && x * (y + z) == x * y + x * z && x * y == y * x
  {}

  lemma ProductsAssociate(x: int, y: int, z: int)
    ensures Wrap64(Wrap64(x * y) * z) == Wrap64(x * Wrap64(y * z))
  {
    WrapInProduct(x * y, z);
    WrapInProduct(y * z, x);
    MulAssociates(x, y, z);
    MulAssociates(x, Wrap64(y * z), 0);
    MulAssociates(x, y * z, 0);
    hide *;
  }

  lemma ProductsDistribute(x: int, y: int, z: int)
    ensures Wrap64(x * Wrap64(y + z)) == Wrap64(Wrap64(x * y) + Wrap64(x * z))
  {
    WrapInProduct(y + z, x);
    MulAssociates(x, Wrap64(y + z), 0);
    MulAssociates(x, y + z, 0);
    MulAssociates(x, y, z);
    WrapInSum(x * y, Wrap64(x * z));
    WrapInSum(x * z, x * y);
    hide *;
  }

  function Plus(x: Int64, y: Int64): Int64 { Wrap64(x + y) }

  function Minus(x: Int64, y: Int64): Int64 { Wrap64(x - y) }

  function Times(x: Int64, y: Int64): Int64 { Wrap64(x * y) }

  function Opposite(x: Int64): Int64 { Wrap64(0 - x) }

  lemma RingOfInt64(x: Int64, y: Int64, z: Int64)
    ensures Plus(x, y) == Plus(y, x) && Times(x, y) == Times(y, x)
    ensures Plus(Plus(x, y), z) == Plus(x, Plus(y, z)) && Times(Times(x, y), z) == Times(x, Times(y, z))
    ensures Times(x, Plus(y, z)) == Plus(Times(x, y), Times(x, z))
    ensures Minus(Plus(x, y), y) == x && Plus(Opposite(x), x) == 0
  {
    SumsAssociate(x, y, z);
    ProductsAssociate(x, y, z);
    ProductsDistribute(x, y, z);
    MulAssociates(x, y, z);
    WrapInSum(0 - x, x);
    hide Wrap64;
    assert Wrap64(x) == x && Wrap64(0) == 0;
  }

  /** Integer operators wrap around to the ring of integers modulo 2^64. */
  lemma IntegersFormARing<F>(m: Machine<F>, a: Node, x: Int64, b: Node, y: Int64, c: Node, z: Int64)
    requires EvalNode(m, a) == Some(VInt(x)) && EvalNode(m, b) == Some(VInt(y)) && EvalNode(m, c) == Some(VInt(z))
    ensures EvalNode(m, Binop(Add, a, b)) == EvalNode(m, Binop(Add, b, a))
    ensures EvalNode(m, Binop(Mul, a, b)) == EvalNode(m, Binop(Mul, b, a))
    ensures EvalNode(m, Binop(Add, Binop(Add, a, b), c)) == EvalNode(m, Binop(Add, a, Binop(Add, b, c)))
    ensures EvalNode(m, Binop(Mul, Binop(Mul, a, b), c)) == EvalNode(m, Binop(Mul, a, Binop(Mul, b, c)))
    ensures EvalNode(m, Binop(Mul, a, Binop(Add, b, c))) == EvalNode(m, Binop(Add, Binop(Mul, a, b), Binop(Mul, a, c)))
    ensures EvalNode(m, Binop(Sub, Binop(Add, a, b), b)) == EvalNode(m, a)
    ensures EvalNode(m, Binop(Add, Unary(Neg, a), a)) == Some(VInt(0))
  {
    hide *;
    RingOfInt64(x, y, z);
    IntsEval(m, a, x, b, y);
    IntsEval(m, b, y, a, x);
    IntsEval(m, b, y, c, z);
    IntsEval(m, a, x, c, z);
    IntsEval(m, Binop(Add, a, b), Plus(x, y), c, z);
    IntsEval(m, a, x, Binop(Add, b, c), Plus(y, z));
    IntsEval(m, Binop(Mul, a, b), Times(x, y), c, z);
    IntsEval(m, a, x, Binop(Mul, b, c), Times(y, z));
    IntsEval(m, Binop(Mul, a, b), Times(x, y), Binop(Mul, a, c), Times(x, z));
    IntsEval(m, Binop(Add, a, b), Plus(x, y), b, y);
    NegEvals(m, a, x);
    IntsEval(m, Unary(Neg, a), Opposite(x), a, x);
  }

  lemma NegEvals<F>(m: Machine<F>, a: Node, x: Int64)
    requires EvalNode(m, a) == Some(VInt(x))
    ensures EvalNode(m, Unary(Neg, a)) == Some(VInt(Opposite(x)))
  {}

  lemma IntsEval<F>(m: Machine<F>, a: Node, x: Int64, b: Node, y: Int64)
    requires EvalNode(m, a) == Some(VInt(x)) && EvalNode(m, b) == Some(VInt(y))
    ensures EvalNode(m, Binop(Add, a, b)) == Some(VInt(Plus(x, y)))
    ensures EvalNode(m, Binop(Sub, a, b)) == Some(VInt(Minus(x, y)))
    ensures EvalNode(m, Binop(Mul, a, b)) == Some(VInt(Times(x, y)))
  {
    hide *;
    StrictEvals(m, Add, a, b);
    StrictEvals(m, Sub, a, b);
    StrictEvals(m, Mul, a, b);
    IntsArith(m, x, y);
  }

  lemma StrictEvals<F>(m: Machine<F>, op: BinOp, a: Node, b: Node)
    requires op != And && op != Or && EvalNode(m, a).Some? && EvalNode(m, b).Some?
    ensures EvalNode(m, Binop(op, a, b)) == StrictBinop(m, op, EvalNode(m, a).value, EvalNode(m, b).value)
  {
    hide StrictBinop;
  }

  lemma IntsArith<F>(m: Machine<F>, x: Int64, y: Int64)
    ensures StrictBinop(m, Add, VInt(x), VInt(y)) == Some(VInt(Plus(x, y)))
    ensures StrictBinop(m, Sub, VInt(x), VInt(y)) == Some(VInt(Minus(x, y)))
    ensures StrictBinop(m, Mul, VInt(x), VInt(y)) == Some(VInt(Times(x, y)))
  {
    hide Wrap64, CompareOp, DecArith, Bitwise, CInt.Div, CInt.Mod;
  }
}
