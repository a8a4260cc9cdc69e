/**
 Lazy evaluation against a reference that always evaluates everything, the laws of the
 three-valued operators, and where comparison and arithmetic let mixed types through.
 */
module EvalTheorems {
  import opened CInt
  import opened Text
  import opened DecimalArith
  import opened Syntax
  import opened Eval

  // ---------------------------------------------------------------- the eager reference

  /** Kleene's strong conjunction and disjunction; None where an operand is not logical. */
  function Kleene<F>(op: BinOp, a: Value<F>, b: Value<F>): Option<Value<F>>
    requires op == And || op == Or
  {
    if !IsBoolOrNull(a) || !IsBoolOrNull(b) then None
    else if Decides(op, a) || Decides(op, b) then Some(VBool(op == Or))
    else if a.Null? || b.Null? then Some(Null)
    else Some(VBool(op == And))
  }

  function Chosen<F>(c: Value<F>, t: Value<F>, f: Value<F>): Option<Value<F>> {
    if c.Null? then Some(Null) else if !c.VBool? then None else Some(if c.b then t else f)
  }

  /** Every operand is evaluated, and the operators work on values alone. */
  function Eager<F>(m: Machine<F>, n: Node): Option<Value<F>>
    decreases n
  {
    match n
    case Unary(op, a) =>
      (match Eager(m, a) case None => None case Some(v) => ApplyUnary(m, op, v))
    case Binop(op, l, r) =>
      (match (Eager(m, l), Eager(m, r))
       case (Some(a), Some(b)) => if op == And || op == Or then Kleene(op, a, b) else StrictBinop(m, op, a, b)
       case _ => None)
    case Ternary(c, t, f) =>
      (match (Eager(m, c), Eager(m, t), Eager(m, f))
       case (Some(x), Some(y), Some(z)) => Chosen(x, y, z)
       case _ => None)
    case Cast(to, len, scale, a) =>
      (match Eager(m, a)
       case None => None
       case Some(v) => if v.Null? then Some(Null) else m.cast(to, len, scale, v))
    case Call(fn, args) =>
      (match EagerArgs(m, args)
       case None => None
       case Some(vs) =>
         if fn == IsNull then if vs == [] then None else Some(VBool(vs[0].Null?))
         else if fn == ReplaceNull then if |vs| < 2 then None else Some(if vs[0].Null? then vs[1] else vs[0])
         else if HasNull(vs) then Some(Null) else m.call(fn, vs))
    case _ => EvalNode(m, n)
  }

  function EagerArgs<F>(m: Machine<F>, args: seq<Node>): (r: Option<seq<Value<F>>>)
    ensures r.Some? ==> |r.value| == |args|
    decreases args
  {
    if args == [] then Some([])
    else
      match (Eager(m, args[0]), EagerArgs(m, args[1..]))
      case (Some(v), Some(vs)) => Some([v] + vs)
      case _ => None
  }

  // ---------------------------------------------------------------- refinement

  lemma LogicAgrees<F>(op: BinOp, a: Value<F>, b: Value<F>)
    requires (op == And || op == Or) && IsBoolOrNull(a)
    ensures !Decides(op, a) ==> Second(op, a, b) == Kleene(op, a, b)
    ensures Decides(op, a) && IsBoolOrNull(b) ==> Kleene(op, a, b) == Some(a)
  {}

  /** Whenever the reference succeeds, lazy evaluation gives the same value. */
  lemma {:induction false} LazyRefinesEager<F>(m: Machine<F>, n: Node)
    requires Eager(m, n).Some?
    ensures EvalNode(m, n) == Eager(m, n)
    decreases n
  {
    hide StrictBinop, ApplyUnary;
    match n
    case Unary(_, a) => LazyRefinesEager(m, a);
    case Binop(op, l, r) =>
      LazyRefinesEager(m, l);
      LazyRefinesEager(m, r);
      if op == And || op == Or { LogicAgrees(op, Eager(m, l).value, Eager(m, r).value); }
      hide Kleene, Second;
    case Ternary(c, t, f) =>
      LazyRefinesEager(m, c);
      LazyRefinesEager(m, t);
      LazyRefinesEager(m, f);
    case Cast(_, _, _, a) => LazyRefinesEager(m, a);
    case Call(fn, args) => ArgsRefine(m, args);
    case _ =>
  }

  lemma {:induction false} ArgsRefine<F>(m: Machine<F>, args: seq<Node>)
    requires EagerArgs(m, args).Some?
    ensures EvalArgs(m, args) == EagerArgs(m, args)
    ensures forall i :: 0 <= i < |args| ==> EvalNode(m, args[i]) == Some(EagerArgs(m, args).value[i])
    decreases args
  {
    if args != [] {
      LazyRefinesEager(m, args[0]);
      ArgsRefine(m, args[1..]);
      var vs := EagerArgs(m, args).value;
      hide EvalNode, Eager;
      forall i | 0 <= i < |args| ensures EvalNode(m, args[i]) == Some(vs[i]) {
        if i > 0 { assert args[i] == args[1..][i - 1] && vs[i] == vs[1..][i - 1]; }
      }
    }
  }

  /** Nothing goes wrong anywhere in the tree, evaluated or not: every part evaluates, and
      every second operand of && and || is logical. */
  predicate NothingFails<F>(m: Machine<F>, n: Node)
    decreases n
  {
    && EvalNode(m, n).Some?
    && match n
       case Unary(_, a) => NothingFails(m, a)
       case Binop(op, l, r) =>
         && NothingFails(m, l) && NothingFails(m, r)
         && (op == And || op == Or ==> IsBoolOrNull(EvalNode(m, r).value))
       case Ternary(c, t, f) => NothingFails(m, c) && NothingFails(m, t) && NothingFails(m, f)
       case Cast(_, _, _, a) => NothingFails(m, a)
       case Call(_, args) => NothingFailsIn(m, args)
       case _ => true
  }

  predicate NothingFailsIn<F>(m: Machine<F>, args: seq<Node>)
    decreases args
  {
    args == [] || (NothingFails(m, args[0]) && NothingFailsIn(m, args[1..]))
  }

  /** The reference succeeds exactly when nothing fails anywhere, so laziness shows only in
      expressions with a failing part that was skipped. */
  lemma {:induction false} EagerExactlyWhenNothingFails<F>(m: Machine<F>, n: Node)
    ensures Eager(m, n).Some? <==> NothingFails(m, n)
    decreases n
  {
    hide StrictBinop, ApplyUnary;
    match n
    case Unary(_, a) =>
      EagerExactlyWhenNothingFails(m, a);
      if Eager(m, a).Some? { LazyRefinesEager(m, a); }
    case Binop(op, l, r) =>
      EagerExactlyWhenNothingFails(m, l);
      EagerExactlyWhenNothingFails(m, r);
      if Eager(m, l).Some? && Eager(m, r).Some? {
        LazyRefinesEager(m, l);
        LazyRefinesEager(m, r);
        if (op == And || op == Or) && IsBoolOrNull(Eager(m, l).value) {
          LogicAgrees(op, Eager(m, l).value, Eager(m, r).value);
        }
      }
    case Ternary(c, t, f) =>
      EagerExactlyWhenNothingFails(m, c);
      EagerExactlyWhenNothingFails(m, t);
      EagerExactlyWhenNothingFails(m, f);
      if Eager(m, c).Some? { LazyRefinesEager(m, c); }
    case Cast(_, _, _, a) =>
      EagerExactlyWhenNothingFails(m, a);
      if Eager(m, a).Some? { LazyRefinesEager(m, a); }
    case Call(fn, args) =>
      ArgsExactly(m, args);
      if EagerArgs(m, args).Some? { ArgsRefine(m, args); }
    case _ =>
  }

  lemma {:induction false} ArgsExactly<F>(m: Machine<F>, args: seq<Node>)
    ensures EagerArgs(m, args).Some? <==> NothingFailsIn(m, args)
    decreases args
  {
    if args != [] {
      EagerExactlyWhenNothingFails(m, args[0]);
      ArgsExactly(m, args[1..]);
    }
  }

  // ---------------------------------------------------------------- laws, errors included

  /** Regrouping a chain of && or of || changes nothing, not even which errors surface. */
  lemma LogicAssociates<F>(m: Machine<F>, op: BinOp, a: Node, b: Node, c: Node)
    requires op == And || op == Or
    ensures EvalNode(m, Binop(op, Binop(op, a, b), c)) == EvalNode(m, Binop(op, a, Binop(op, b, c)))
  {}

  /** De Morgan's laws, errors and short circuits included. */
  lemma DeMorgan<F>(m: Machine<F>, a: Node, b: Node)
    ensures EvalNode(m, Unary(Not, Binop(And, a, b))) == EvalNode(m, Binop(Or, Unary(Not, a), Unary(Not, b)))
    ensures EvalNode(m, Unary(Not, Binop(Or, a, b))) == EvalNode(m, Binop(And, Unary(Not, a), Unary(Not, b)))
  {}

  /** Swapping the operands of && or || never changes a result, only whether there is one. */
  lemma LogicCommutes<F>(m: Machine<F>, op: BinOp, a: Node, b: Node)
    requires op == And || op == Or
    requires EvalNode(m, Binop(op, a, b)).Some? && EvalNode(m, Binop(op, b, a)).Some?
    ensures EvalNode(m, Binop(op, a, b)) == EvalNode(m, Binop(op, b, a))
  {}

  /** The comparison that holds exactly where `op` does not. */
  function Complement(op: BinOp): (r: BinOp)
    requires IsComparison(op)
    ensures IsComparison(r) && forall c :: Holds(r, c) <==> !Holds(op, c)
  {
    match op
    case Equal => NotEqual
    case NotEqual => Equal
    case Less => GreaterEq
    case GreaterEq => Less
    case Greater => LessEq
    case LessEq => Greater
  }

  lemma ComparesStrictly<F>(m: Machine<F>, op: BinOp, a: Value<F>, b: Value<F>)
    requires IsComparison(op)
    ensures StrictBinop(m, op, a, b) == CompareOp(m, op, a, b)
  {
    hide CompareOp, Arith, Bitwise;
  }

  lemma ComplementCompares<F>(m: Machine<F>, op: BinOp, co: BinOp, a: Value<F>, b: Value<F>)
    requires forall c :: Holds(co, c) <==> !Holds(op, c)
    ensures CompareOp(m, op, a, b).None? <==> CompareOp(m, co, a, b).None?
    ensures CompareOp(m, op, a, b).Some? ==>
              ApplyUnary(m, Not, CompareOp(m, op, a, b).value) == CompareOp(m, co, a, b)
  {
    hide CompareValues, Holds;
  }

  lemma ComplementOfValues<F>(m: Machine<F>, op: BinOp, a: Value<F>, b: Value<F>)
    requires IsComparison(op)
    ensures StrictBinop(m, op, a, b).None? <==> StrictBinop(m, Complement(op), a, b).None?
    ensures StrictBinop(m, op, a, b).Some? ==>
              ApplyUnary(m, Not, StrictBinop(m, op, a, b).value) == StrictBinop(m, Complement(op), a, b)
  {
    hide *;
    ComparesStrictly(m, op, a, b);
    ComparesStrictly(m, Complement(op), a, b);
    ComplementCompares(m, op, Complement(op), a, b);
  }

  /** Each comparison is the negation of its complement, for nulls and errors too. */
  lemma ComparisonsComplement<F>(m: Machine<F>, op: BinOp, a: Node, b: Node)
    requires IsComparison(op)
    ensures EvalNode(m, Unary(Not, Binop(op, a, b))) == EvalNode(m, Binop(Complement(op), a, b))
  {
    if EvalNode(m, a).Some? && EvalNode(m, b).Some? {
      ComplementOfValues(m, op, EvalNode(m, a).value, EvalNode(m, b).value);
    }
    hide StrictBinop, ApplyUnary, Complement;
  }

  /** Quotient and remainder of integers give the dividend back, the most negative one
      divided by minus one included. */
  lemma IntDivisionReconstructs<F>(a: Int64, b: Int64)
    requires b != 0
    ensures IntArith<F>(Div, a, b).Some? && IntArith<F>(Mod, a, b).Some?
    ensures var q, r := IntField(IntArith<F>(Div, a, b).value), IntField(IntArith<F>(Mod, a, b).value);
            Wrap64(q * b + r) == a && Abs(r) < Abs(b)
  {
    RemainderParts(a, b);
    var q: int, r: int := CInt.Div(a, b), CInt.Mod(a, b);
    WrappedQuotient(a, b, q, r);
    hide CInt.Div, CInt.Mod, Wrap64;
  }

  lemma WrappedQuotient(a: int, b: int, q: int, r: int)
    requires IsInt64(a) && IsInt64(b) && b != 0 && r == a - q * b && Abs(r) < Abs(b)
    requires (a >= 0 ==> r >= 0) && (a <= 0 ==> r <= 0)
    ensures Wrap64(r) == r && Wrap64(Wrap64(q) * b + r) == a
  {
    if !IsInt64(q) {
      ProductMagnitude(q, b);
      assert Abs(q * b) <= Abs(a);
      assert b == -1 ==> q * b == -q;
      assert b == 1 ==> q * b == q;
      assert q == TWO_63 && a == -TWO_63;
      assert b == -1 && r == 0;
    }
  }

  lemma ProductMagnitude(q: int, b: int)
    requires b != 0
    ensures Abs(q) <= Abs(q * b) && (Abs(b) >= 2 ==> 2 * Abs(q) <= Abs(q * b))
  {
    var x, y := Abs(q), Abs(b);
    AbsOfProduct(q, b);
    FactorBound(x, y, 1);
    if y >= 2 { FactorBound(x, y, 2); }
  }

  lemma AbsOfProduct(q: int, b: int)
    ensures Abs(q * b) == Abs(q) * Abs(b)
  {
    if q >= 0 && b >= 0 {
      assert q * b >= 0;
    } else if q < 0 && b < 0 {
      assert q * b == (-q) * (-b) >= 0;
    } else if q < 0 {
      assert q * b == -((-q) * b) && (-q) * b >= 0;
    } else {
      assert q * b == -(q * (-b)) && q * (-b) >= 0;
    }
  }

  // ---------------------------------------------------------------- comparison is symmetric, but for one mix

  /** What IEEE comparison gives: swapping operands swaps the sign. */
  ghost predicate OrderMirrors<F(!new)>(m: Machine<F>) { forall x, y :: m.order(x, y) == -m.order(y, x) }

  predicate Opaque<F>(v: Value<F>) { v.VUuid? || v.VBytes? }

  /** An integer, not zero, next to a GUID or byte string. */
  predicate OddPair<F>(a: Value<F>, b: Value<F>) { a.VInt? && a.i != 0 && Opaque(b) }

  lemma {:induction false} CompareMirrors(a: string, b: string)
    ensures Compare(a, b) == -Compare(b, a)
    decreases |a|
  {
    if a != "" && b != "" && a[0] == b[0] { CompareMirrors(a[1..], b[1..]); }
  }

  lemma DecimalsMirror(a: Dec, b: Dec)
    ensures CompareDec(a, b).Some? <==> CompareDec(b, a).Some?
    ensures CompareDec(a, b).Some? ==> CompareDec(a, b).value == -CompareDec(b, a).value
  {
    hide Pow10;
  }

  /** Swapping the operands of a comparison swaps its sign for every pair of values except an
      integer other than zero next to a GUID or byte string, where it does not. */
  lemma ComparisonMirrors<F(!new)>(m: Machine<F>, a: Value<F>, b: Value<F>)
    requires OrderMirrors(m) && !a.Null? && !b.Null?
    ensures CompareValues(m, a, b).Some? <==> CompareValues(m, b, a).Some?
    ensures CompareValues(m, a, b).Some? ==>
              (CompareValues(m, a, b).value == -CompareValues(m, b, a).value <==> !OddPair(a, b) && !OddPair(b, a))
  {
    if a.VDec? && b.VDec? { DecimalsMirror(a.d, b.d); }
    if (a.VStr? && b.VStr?) || (a.VUuid? && b.VUuid?) || (a.VBytes? && b.VBytes?) { CompareMirrors(a.s, b.s); }
    hide CompareDec, Compare, Micros;
    assert m.order(m.zero, m.zero) == 0;
  }

  predicate IsArith(op: BinOp) { op == Add || op == Sub || op == Mul || op == Div || op == Mod }

  /** A decimal takes a date, time, GUID or byte string for zero, on either side of every
      arithmetic operator, instead of refusing it; a decimal is divided by zero that way. */
  lemma DecimalTakesDateAsZero<F>(m: Machine<F>, op: BinOp, d: Decimal, v: Value<F>)
    requires IsArith(op) && (IsTemporal(v) || v.VTime? || Opaque(v))
    ensures Arith(m, op, VDec(d), v) == Arith(m, op, VDec(d), VDec(Dec(0, 0)))
    ensures Arith(m, op, v, VDec(d)) == Arith(m, op, VDec(Dec(0, 0)), VDec(d))
    ensures op == Div || op == Mod ==> Arith(m, op, VDec(d), v) == None
    ensures op == Add ==> Arith(m, op, VDec(d), v) == Some(VDec(d)) == Arith(m, op, v, VDec(d))
    ensures op == Sub ==> Arith(m, op, VDec(d), v) == Some(VDec(d))
    ensures op == Mul ==> Arith(m, op, VDec(d), v) == Some(VDec(Dec(0, d.scale))) == Arith(m, op, v, VDec(d))
  {
    ZeroOperand(d);
    hide DecimalArith.Add, DecimalArith.Sub, DecimalArith.Mul, Quotient, Remainder;
  }

  lemma ZeroOperand(d: Decimal)
    ensures var z := Dec(0, 0);
            && DecimalArith.Add(d, z) == Some(d) == DecimalArith.Add(z, d) && DecimalArith.Sub(d, z) == Some(d)
            && DecimalArith.Mul(d, z) == Some(Dec(0, d.scale)) == DecimalArith.Mul(z, d)
            && Quotient(d, z) == None && Remainder(d, z) == None
  {
    assert Pow10(0) == 1;
    assert 0 * Pow10(d.scale) == 0;
  }
}
