/**
 The three-valued evaluator (providers/betl-ssisexpr/ssisexpr_provider.c) for one row.
 Floating point, casts, column reads and the function library are parameters: nothing below
 depends on what they compute.
 */
module Eval {
  import opened CInt
  import opened Text
  import opened DecimalArith
  import opened Syntax

  type Int64 = i: int | IsInt64(i)
  type Int32 = i: int | IsInt32(i)
  type Decimal = d: Dec | ValidDec(d) witness Dec(0, 0)

  datatype Value<+F> =
    | Null
    | VInt(i: Int64)
    | VFloat(f: F)
    | VStr(s: string)
    | VBool(b: bool)
    | VDate(days: Int32)
    | VTs(us: Int64)
    | VTime(us: Int64)
    | VDec(d: Decimal)
    | VUuid(s: string)
    | VBytes(s: string)

  /** What evaluation takes as given. None is an error. */
  datatype Machine<!F> = Machine(
    cell: nat -> Option<Value<F>>,
    literal: string -> F,
    zero: F,
    ofInt: int -> F,
    ofDec: Dec -> F,
    neg: F -> F,
    arith: (BinOp, F, F) -> F,
    order: (F, F) -> int,
    cast: (Dt, Option<int>, Option<int>, Value<F>) -> Option<Value<F>>,
    call: (Fn, seq<Value<F>>) -> Option<Value<F>>)

  // ---------------------------------------------------------------- operators on values

  predicate IsBoolOrNull<F>(v: Value<F>) { v.Null? || v.VBool? }

  function ApplyUnary<F>(m: Machine<F>, op: UnaryOp, v: Value<F>): Option<Value<F>> {
    if v.Null? then Some(Null)
    else
      match op
      case Neg => if v.VInt? then (var i: int := v.i; Some(VInt(Wrap64(-i)))) else if v.VFloat? then Some(VFloat(m.neg(v.f))) else None
      case Not => if v.VBool? then Some(VBool(!v.b)) else None
      case BitNot => if v.VInt? then (var i: int := v.i; Some(VInt(Wrap64(-i - 1)))) else None
  }

  function Unsigned(i: int): bv64 { (i % TWO_64) as bv64 }

  function Bitwise<F>(op: BinOp, a: Value<F>, b: Value<F>): Option<Value<F>> {
    if a.Null? || b.Null? then Some(Null)
    else if !a.VInt? || !b.VInt? then None
    else
      var x, y := Unsigned(a.i), Unsigned(b.i);
      match op
      case BitAnd => Some(VInt(Wrap64((x & y) as int)))
      case BitOr => Some(VInt(Wrap64((x | y) as int)))
      case BitXor => Some(VInt(Wrap64((x ^ y) as int)))
      case _ => None
  }

  function IntArith<F>(op: BinOp, a: Int64, b: Int64): Option<Value<F>> {
    match op
    case Add => Some(VInt(Wrap64(a + b)))
    case Sub => Some(VInt(Wrap64(a - b)))
    case Mul => Some(VInt(Wrap64(a * b)))
    case Div => if b == 0 then None else Some(VInt(Wrap64(CInt.Div(a, b))))
    case Mod => if b == 0 then None else Some(VInt(Wrap64(CInt.Mod(a, b))))
    case _ => None
  }

  lemma FactorBound(x: nat, y: nat, k: nat)
    requires k <= y
    ensures k * x <= x * y
  {}

  lemma QuotientShrinks(m: nat, y: int)
    requires y >= 1
    ensures 0 <= m / y <= m
  {
    NatDivision(m, y);
    FactorBound(m / y, y, 1);
  }

  lemma TruncationFits(x: int, y: int)
    requires IsInt128(x) && y >= 1
    ensures IsInt128(CInt.Div(x, y))
  {
    QuotientShrinks(Abs(x), y);
  }

  lemma RemainderFits(x: int, y: int)
    requires y != 0 && IsInt128(y)
    ensures IsInt128(CInt.Mod(x, y))
  {
    RemainderParts(x, y);
  }

  /** Every decimal operation yields a 128-bit value at a scale the column format allows. */
  lemma DecimalsStayValid(a: Dec, b: Dec)
    requires ValidDec(a) && ValidDec(b)
    ensures DecimalArith.Add(a, b).Some? ==> ValidDec(DecimalArith.Add(a, b).value)
    ensures DecimalArith.Sub(a, b).Some? ==> ValidDec(DecimalArith.Sub(a, b).value)
    ensures DecimalArith.Mul(a, b).Some? ==> ValidDec(DecimalArith.Mul(a, b).value)
    ensures Quotient(a, b).Some? ==> ValidDec(Quotient(a, b).value)
    ensures Remainder(a, b).Some? ==> ValidDec(Remainder(a, b).value)
  {
    hide Pow10, RoundedQuotient;
    if a.scale + b.scale > 38 && IsInt128(a.v * b.v) {
      PowNonzero(a.scale + b.scale - 38);
      TruncationFits(a.v * b.v, Pow10(a.scale + b.scale - 38));
    }
    if b.v != 0 && Align(a, b).Some? {
      AlignNonzero(a, b);
      RemainderFits(Align(a, b).value.0, Align(a, b).value.1);
    }
    if b.v != 0 && ScaleUp(a.v, DivScale(a) + b.scale - a.scale).Some? {
      QuotientFits(ScaleUp(a.v, DivScale(a) + b.scale - a.scale).value, b.v);
    }
    hide CInt.Div, CInt.Mod;
  }

  lemma QuotientFits(num: int, b: int)
    requires b != 0 && IsInt128(b)
    ensures IsInt128(RoundedQuotient(num, b))
  {
    hide CInt.Div;
  }

  function DecArith(op: BinOp, a: Decimal, b: Decimal): (r: Option<Dec>)
    ensures r.Some? ==> ValidDec(r.value)
  {
    DecimalsStayValid(a, b);
    match op
    case Add => DecimalArith.Add(a, b)
    case Sub => DecimalArith.Sub(a, b)
    case Mul => DecimalArith.Mul(a, b)
    case Div => Quotient(a, b)
    case Mod => Remainder(a, b)
    case _ => None
  }

  function AsFloat<F>(m: Machine<F>, v: Value<F>): F {
    match v
    case VInt(i) => m.ofInt(i)
    case VFloat(f) => f
    case VDec(d) => m.ofDec(d)
    case _ => m.zero
  }

  /** The decimal a value's fields hold next to a decimal: zero for a date, time, GUID or
      byte string. */
  function AsDecimal<F>(v: Value<F>): Decimal {
    match v
    case VInt(i) => Dec(i, 0)
    case VDec(d) => d
    case _ => Dec(0, 0)
  }

  /** op_arith: string concatenation, decimals next to anything but text, then integers and
      floats. Only this last group refuses dates, times, GUIDs and byte strings. */
  function Arith<F>(m: Machine<F>, op: BinOp, a: Value<F>, b: Value<F>): Option<Value<F>> {
    if a.Null? || b.Null? then Some(Null)
    else if op == Add && a.VStr? && b.VStr? then Some(VStr(a.s + b.s))
    else if a.VStr? || b.VStr? || a.VBool? || b.VBool? then None
    else if a.VDec? || b.VDec? then
      if a.VFloat? || b.VFloat? then Some(VFloat(m.arith(op, AsFloat(m, a), AsFloat(m, b))))
      else (match DecArith(op, AsDecimal(a), AsDecimal(b)) case None => None case Some(d) => Some(VDec(d)))
    else if a.VInt? && b.VInt? then IntArith(op, a.i, b.i)
    else if (a.VInt? || a.VFloat?) && (b.VInt? || b.VFloat?) then
      Some(VFloat(m.arith(op, AsFloat(m, a), AsFloat(m, b))))
    else None
  }

  /** The integer a value's i64 field holds once dates and times have been dealt with. */
  function IntField<F>(v: Value<F>): int { if v.VInt? then v.i else 0 }

  /** Likewise the f64 field, after promotion next to a float. */
  function FloatField<F>(m: Machine<F>, v: Value<F>, promoted: bool): F {
    if v.VFloat? then v.f else if v.VInt? && promoted then m.ofInt(v.i) else m.zero
  }

  predicate IsTemporal<F>(v: Value<F>) { v.VDate? || v.VTs? }

  /** Micros of a date or timestamp; a date far enough out wraps. */
  function Micros<F>(v: Value<F>): int
    requires IsTemporal(v)
  {
    if v.VDate? then (var days: int := v.days; Wrap64(days * 86_400_000_000)) else v.us
  }

  /** cmp_values on two values that are not null. A GUID or byte string next to a number is
      not refused: it falls through to the numeric fields, which it leaves zero. */
  function CompareValues<F>(m: Machine<F>, a: Value<F>, b: Value<F>): Option<int>
    requires !a.Null? && !b.Null?
  {
    if a.VStr? && b.VStr? then Some(Compare(a.s, b.s))
    else if a.VBool? && b.VBool? then Some(Order(if a.b then 1 else 0, if b.b then 1 else 0))
    else if a.VUuid? && b.VUuid? then Some(Compare(a.s, b.s))
    else if a.VBytes? && b.VBytes? then Some(Compare(a.s, b.s))
    else if a.VDec? && b.VDec? then
      (match CompareDec(a.d, b.d) case Some(c) => Some(c) case None => Some(m.order(m.ofDec(a.d), m.ofDec(b.d))))
    else if (a.VDec? && (b.VInt? || b.VFloat?)) || (b.VDec? && (a.VInt? || a.VFloat?)) then
      Some(m.order(AsFloat(m, a), AsFloat(m, b)))
    else if a.VTime? && b.VTime? then Some(Order(a.us, b.us))
    else if a.VTime? || b.VTime? then None
    else if a.VDate? && b.VDate? then Some(Order(a.days, b.days))
    else if IsTemporal(a) && IsTemporal(b) then Some(Order(Micros(a), Micros(b)))
    else if IsTemporal(a) != IsTemporal(b) then None
    else if a.VStr? || b.VStr? || a.VBool? || b.VBool? then None
    else
      var promoted := a.VFloat? || b.VFloat?;
      if a.VInt? && !promoted then Some(Order(IntField(a), IntField(b)))
      else Some(m.order(FloatField(m, a, promoted), FloatField(m, b, promoted)))
  }

  predicate Holds(op: BinOp, c: int) {
    match op
    case Equal => c == 0
    case NotEqual => c != 0
    case Less => c < 0
    case LessEq => c <= 0
    case Greater => c > 0
    case GreaterEq => c >= 0
    case _ => false
  }

  function CompareOp<F>(m: Machine<F>, op: BinOp, a: Value<F>, b: Value<F>): Option<Value<F>> {
    if a.Null? || b.Null? then Some(Null)
    else
      match CompareValues(m, a, b)
      case None => None
      case Some(c) => Some(VBool(Holds(op, c)))
  }

  predicate IsBitwise(op: BinOp) { op == BitAnd || op == BitOr || op == BitXor }

  predicate IsComparison(op: BinOp) {
    op == Equal || op == NotEqual || op == Less || op == LessEq || op == Greater || op == GreaterEq
  }

  /** Every binary operator except && and ||. */
  function StrictBinop<F>(m: Machine<F>, op: BinOp, a: Value<F>, b: Value<F>): Option<Value<F>> {
    if IsBitwise(op) then Bitwise(op, a, b)
    else if IsComparison(op) then CompareOp(m, op, a, b)
    else Arith(m, op, a, b)
  }

  // ---------------------------------------------------------------- the lazy evaluator

  /** op_and_or after its first operand. */
  predicate Decides<F>(op: BinOp, a: Value<F>) { a.VBool? && a.b == (op == Or) }

  /** op_and_or once both operands are there and the first did not decide. */
  function Second<F>(op: BinOp, a: Value<F>, b: Value<F>): Option<Value<F>> {
    if !IsBoolOrNull(b) then None
    else if b.Null? then Some(Null)
    else if b.b == (op == Or) then Some(b)
    else if a.Null? then Some(Null)
    else Some(VBool(op == And))
  }

  predicate HasNull<F>(vs: seq<Value<F>>) { exists i :: 0 <= i < |vs| && vs[i].Null? }

  function EvalNode<F>(m: Machine<F>, n: Node): Option<Value<F>>
    decreases n
  {
    match n
    case LitInt(i) => if IsInt64(i) then Some(VInt(i)) else None
    case LitFloat(x) => Some(VFloat(m.literal(x)))
    case LitStr(s) => Some(VStr(s))
    case LitBool(b) => Some(VBool(b))
    case LitNull(_) => Some(Null)
    case ColRef(col) => m.cell(col)
    case Unary(op, a) =>
      (match EvalNode(m, a) case None => None case Some(v) => ApplyUnary(m, op, v))
    case Binop(op, l, r) =>
      (match EvalNode(m, l)
       case None => None
       case Some(a) =>
         if op == And || op == Or then
           if !IsBoolOrNull(a) then None
           else if Decides(op, a) then Some(a)
           else (match EvalNode(m, r) case None => None case Some(b) => Second(op, a, b))
         else (match EvalNode(m, r) case None => None case Some(b) => StrictBinop(m, op, a, b)))
    case Ternary(c, t, f) =>
      (match EvalNode(m, c)
       case None => None
       case Some(v) =>
         if v.Null? then Some(Null)
         else if !v.VBool? then None
         else if v.b then EvalNode(m, t) else EvalNode(m, f))
    case Cast(to, len, scale, a) =>
      (match EvalNode(m, a)
       case None => None
       case Some(v) => if v.Null? then Some(Null) else m.cast(to, len, scale, v))
    case Call(fn, args) =>
      if fn == IsNull then
        if args == [] then None
        else (match EvalNode(m, args[0]) case None => None case Some(v) => Some(VBool(v.Null?)))
      else if fn == ReplaceNull then
        if |args| < 2 then None
        else (match EvalNode(m, args[0])
              case None => None
              case Some(v) => if v.Null? then EvalNode(m, args[1]) else Some(v))
      else (match EvalArgs(m, args)
            case None => None
            case Some(vs) => if HasNull(vs) then Some(Null) else m.call(fn, vs))
  }

  function EvalArgs<F>(m: Machine<F>, args: seq<Node>): Option<seq<Value<F>>>
    decreases args
  {
    if args == [] then Some([])
    else
      match EvalNode(m, args[0])
      case None => None
      case Some(v) =>
        match EvalArgs(m, args[1..])
        case None => None
        case Some(vs) => Some([v] + vs)
  }
}
