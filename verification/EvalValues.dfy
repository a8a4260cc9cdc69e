/**
 What the evaluator computes, value by value: every operator on operands whose values are
 known, against integers, truth tables, orders and exact decimals, without going through the
 evaluator's own operator functions.
 */
module EvalValues {
  import opened CInt
  import opened Text
  import opened DecimalArith
  import opened Syntax
  import opened Eval
  import IntegerLaws

  // ---------------------------------------------------------------- the six comparisons

  /** All six comparisons of two expressions, told by whether the first is below the second
      and whether they are the same. */
  predicate Compared<F>(m: Machine<F>, l: Node, r: Node, below: bool, same: bool) {
    && EvalNode(m, Binop(Less, l, r)) == Some(VBool(below))
    && EvalNode(m, Binop(LessEq, l, r)) == Some(VBool(below || same))
    && EvalNode(m, Binop(Greater, l, r)) == Some(VBool(!below && !same))
    && EvalNode(m, Binop(GreaterEq, l, r)) == Some(VBool(!below))
    && EvalNode(m, Binop(Equal, l, r)) == Some(VBool(same))
    && EvalNode(m, Binop(NotEqual, l, r)) == Some(VBool(!same))
  }

  lemma ComparedBy<F>(m: Machine<F>, l: Node, a: Value<F>, r: Node, b: Value<F>, c: int)
    requires EvalNode(m, l) == Some(a) && EvalNode(m, r) == Some(b) && !a.Null? && !b.Null?
    requires CompareValues(m, a, b) == Some(c)
    ensures Compared(m, l, r, c < 0, c == 0)
  {
    hide *;
    SixComparisons();
    ComparisonIs(m, Less, l, a, r, b, c);
    ComparisonIs(m, LessEq, l, a, r, b, c);
    ComparisonIs(m, Greater, l, a, r, b, c);
    ComparisonIs(m, GreaterEq, l, a, r, b, c);
    ComparisonIs(m, Equal, l, a, r, b, c);
    ComparisonIs(m, NotEqual, l, a, r, b, c);
    SignTold(m, l, r, c);
  }

  lemma SixComparisons()
    ensures IsComparison(Less) && IsComparison(LessEq) && IsComparison(Greater)
    ensures IsComparison(GreaterEq) && IsComparison(Equal) && IsComparison(NotEqual)
  {}

  lemma SignTold<F>(m: Machine<F>, l: Node, r: Node, c: int)
    requires EvalNode(m, Binop(Less, l, r)) == Some(VBool(Holds(Less, c)))
    requires EvalNode(m, Binop(LessEq, l, r)) == Some(VBool(Holds(LessEq, c)))
    requires EvalNode(m, Binop(Greater, l, r)) == Some(VBool(Holds(Greater, c)))
    requires EvalNode(m, Binop(GreaterEq, l, r)) == Some(VBool(Holds(GreaterEq, c)))
    requires EvalNode(m, Binop(Equal, l, r)) == Some(VBool(Holds(Equal, c)))
    requires EvalNode(m, Binop(NotEqual, l, r)) == Some(VBool(Holds(NotEqual, c)))
    ensures Compared(m, l, r, c < 0, c == 0)
  {
    hide EvalNode;
  }

  lemma ComparisonIs<F>(m: Machine<F>, op: BinOp, l: Node, a: Value<F>, r: Node, b: Value<F>, c: int)
    requires IsComparison(op) && EvalNode(m, l) == Some(a) && EvalNode(m, r) == Some(b) && !a.Null? && !b.Null?
    requires CompareValues(m, a, b) == Some(c)
    ensures EvalNode(m, Binop(op, l, r)) == Some(VBool(Holds(op, c)))
  {
    IntegerLaws.StrictEvals(m, op, l, r);
    hide EvalNode, CompareValues, Holds, Bitwise, Arith;
  }

  lemma IntegersCompare<F>(m: Machine<F>, l: Node, x: int, r: Node, y: int)
    requires IsInt64(x) && IsInt64(y)
    requires EvalNode(m, l) == Some(VInt(x)) && EvalNode(m, r) == Some(VInt(y))
    ensures Compared(m, l, r, x < y, x == y)
  {
    IntegersOrder(m, x, y);
    hide *;
    ComparedBy(m, l, VInt(x), r, VInt(y), Order(x, y));
    OrderSign(x, y);
  }

  lemma OrderSign(x: int, y: int)
    ensures (Order(x, y) < 0 <==> x < y) && (Order(x, y) == 0 <==> x == y)
  {}

  lemma IntegersOrder<F>(m: Machine<F>, x: int, y: int)
    requires IsInt64(x) && IsInt64(y)
    ensures CompareValues(m, VInt(x), VInt(y)) == Some(Order(x, y))
  {}

  lemma CalendarOrder<F>(m: Machine<F>, d: int, e: int, x: int, y: int)
    requires IsInt32(d) && IsInt32(e) && IsInt64(x) && IsInt64(y)
    ensures CompareValues(m, VDate(d), VDate(e)) == Some(Order(d, e))
    ensures CompareValues(m, VTs(x), VTs(y)) == Some(Order(x, y))
    ensures CompareValues(m, VTime(x), VTime(y)) == Some(Order(x, y))
    ensures CompareValues(m, VDate(d), VTs(y)) == Some(Order(Wrap64(d * 86_400_000_000), y))
    ensures CompareValues(m, VTs(y), VDate(d)) == Some(Order(y, Wrap64(d * 86_400_000_000)))
  {
    hide Wrap64;
  }

  lemma ZeroFits()
    ensures IsInt32(0) && IsInt64(0)
  {}

  /** Dates compare by day, timestamps and times of day by microsecond. */
  lemma CalendarCompares<F>(m: Machine<F>, l: Node, a: Value<F>, r: Node, b: Value<F>)
    requires EvalNode(m, l) == Some(a) && EvalNode(m, r) == Some(b)
    ensures a.VDate? && b.VDate? ==> Compared(m, l, r, a.days < b.days, a.days == b.days)
    ensures a.VTs? && b.VTs? ==> Compared(m, l, r, a.us < b.us, a.us == b.us)
    ensures a.VTime? && b.VTime? ==> Compared(m, l, r, a.us < b.us, a.us == b.us)
  {
    hide *;
    if a.VDate? && b.VDate? {
      ZeroFits();
      CalendarOrder(m, a.days, b.days, 0, 0);
      ComparedBy(m, l, a, r, b, Order(a.days, b.days));
      OrderSign(a.days, b.days);
    }
    if (a.VTs? && b.VTs?) || (a.VTime? && b.VTime?) {
      ZeroFits();
      CalendarOrder(m, 0, 0, a.us, b.us);
      ComparedBy(m, l, a, r, b, Order(a.us, b.us));
      OrderSign(a.us, b.us);
    }
  }

  /** Where a date's midnight is compared as it should be: it has a microsecond count, or the
      count that wrapped still lies on the date's side of the timestamp. */
  predicate MidnightTells(days: int, us: int) {
    var midnight := days * 86_400_000_000;
    if IsInt64(midnight) then true else if days > 0 then Wrap64(midnight) > us else Wrap64(midnight) < us
  }

  /** A date next to a timestamp stands for its midnight, exactly under that condition. */
  lemma MidnightCompares<F>(m: Machine<F>, l: Node, days: int, r: Node, us: int)
    requires IsInt32(days) && IsInt64(us)
    requires EvalNode(m, l) == Some(VDate(days)) && EvalNode(m, r) == Some(VTs(us))
    ensures Compared(m, l, r, days * 86_400_000_000 < us, days * 86_400_000_000 == us) <==> MidnightTells(days, us)
    ensures Compared(m, r, l, us < days * 86_400_000_000, us == days * 86_400_000_000) <==> MidnightTells(days, us)
  {
    hide *;
    var w := Wrap64(days * 86_400_000_000);
    ZeroFits();
    CalendarOrder(m, days, 0, 0, us);
    ComparedBy(m, l, VDate(days), r, VTs(us), Order(w, us));
    ComparedBy(m, r, VTs(us), l, VDate(days), Order(us, w));
    OrderSign(w, us);
    OrderSign(us, w);
    ToldOnce(m, l, r, w < us, w == us, days * 86_400_000_000 < us, days * 86_400_000_000 == us);
    ToldOnce(m, r, l, us < w, us == w, us < days * 86_400_000_000, us == days * 86_400_000_000);
    MidnightSide(days, us);
  }

  lemma MidnightSide(days: int, us: int)
    requires IsInt32(days) && IsInt64(us)
    ensures var d, w := days * 86_400_000_000, Wrap64(days * 86_400_000_000);
            && (MidnightTells(days, us) <==> (w < us <==> d < us) && (w == us <==> d == us))
            && (MidnightTells(days, us) <==> (us < w <==> us < d) && (us == w <==> us == d))
  {
    assert !IsInt64(days * 86_400_000_000) ==> days != 0;
    hide Wrap64;
    assert IsInt64(days * 86_400_000_000) ==> Wrap64(days * 86_400_000_000) == days * 86_400_000_000;
  }

  lemma ToldOnce<F>(m: Machine<F>, l: Node, r: Node, below: bool, same: bool, p: bool, q: bool)
    requires Compared(m, l, r, below, same)
    ensures Compared(m, l, r, p, q) <==> below == p && same == q
  {
    hide EvalNode;
  }

  /** A midnight that wraps: the date is the later one, and compares as the earlier. */
  lemma FarMidnightIsEarly<F>(m: Machine<F>, l: Node, r: Node)
    requires EvalNode(m, l) == Some(VDate(150_000_000)) && EvalNode(m, r) == Some(VTs(0))
    ensures Compared(m, l, r, true, false) && !MidnightTells(150_000_000, 0)
  {
    hide *;
    FarMidnight();
    CalendarOrder(m, 150_000_000, 0, 0, 0);
    ComparedBy(m, l, VDate(150_000_000), r, VTs(0), -1);
  }

  lemma FarMidnight()
    ensures IsInt32(150_000_000) && IsInt32(0) && IsInt64(0) && !MidnightTells(150_000_000, 0)
    ensures Order(Wrap64(150_000_000 * 86_400_000_000), 0) == -1
  {}

  // ---------------------------------------------------------------- text and truth values

  /** Byte by byte the first difference decides; a prefix comes first. */
  ghost predicate Precedes(s: string, t: string) {
    exists k :: FirstDifference(s, t, k)
  }

  predicate FirstDifference(s: string, t: string, k: nat) {
    && k <= |s| && k < |t| && (forall i :: 0 <= i < k ==> s[i] == t[i])
    && (k < |s| ==> s[k] < t[k])
  }

  lemma {:induction false} CompareIsPrecedes(s: string, t: string)
    ensures Compare(s, t) < 0 <==> Precedes(s, t)
    decreases |s|
  {
    if s == "" || t == "" || s[0] != t[0] {
      if Compare(s, t) < 0 { assert FirstDifference(s, t, 0); }
    } else {
      CompareIsPrecedes(s[1..], t[1..]);
      if Precedes(s[1..], t[1..]) {
        var k: nat :| FirstDifference(s[1..], t[1..], k);
        ShiftDifference(s, t, k);
      }
      if Precedes(s, t) {
        var k: nat :| FirstDifference(s, t, k);
        assert k > 0;
        ShiftDifference(s, t, k - 1);
      }
    }
  }

  lemma ShiftDifference(s: string, t: string, k: nat)
    requires s != "" && t != "" && s[0] == t[0]
    ensures FirstDifference(s[1..], t[1..], k) <==> FirstDifference(s, t, k + 1)
  {
    var p, q := s[1..], t[1..];
    if FirstDifference(p, q, k) {
      forall i | 0 <= i < k + 1 ensures s[i] == t[i] { assert i > 0 ==> p[i - 1] == q[i - 1]; }
    }
    if FirstDifference(s, t, k + 1) {
      assert forall i :: 0 <= i < k ==> p[i] == s[i + 1] && q[i] == t[i + 1];
    }
  }

  lemma TextOrder<F>(m: Machine<F>, a: Value<F>, b: Value<F>)
    requires (a.VStr? && b.VStr?) || (a.VUuid? && b.VUuid?) || (a.VBytes? && b.VBytes?)
    ensures CompareValues(m, a, b) == Some(Compare(a.s, b.s))
  {
    hide Compare;
  }

  /** Strings, GUIDs and byte strings each compare in byte order. */
  lemma TextCompares<F>(m: Machine<F>, l: Node, a: Value<F>, r: Node, b: Value<F>)
    requires EvalNode(m, l) == Some(a) && EvalNode(m, r) == Some(b)
    requires (a.VStr? && b.VStr?) || (a.VUuid? && b.VUuid?) || (a.VBytes? && b.VBytes?)
    ensures Compared(m, l, r, Precedes(a.s, b.s), a.s == b.s)
  {
    hide *;
    TextOrder(m, a, b);
    ComparedBy(m, l, a, r, b, Compare(a.s, b.s));
    CompareIsPrecedes(a.s, b.s);
    CompareZeroIsEqual(a.s, b.s);
  }

  lemma BooleansOrder<F>(m: Machine<F>, p: bool, q: bool)
    ensures CompareValues(m, VBool(p), VBool(q)) == Some(if p == q then 0 else if q then -1 else 1)
  {}

  /** False comes before true. */
  lemma BooleansCompare<F>(m: Machine<F>, l: Node, p: bool, r: Node, q: bool)
    requires EvalNode(m, l) == Some(VBool(p)) && EvalNode(m, r) == Some(VBool(q))
    ensures Compared(m, l, r, !p && q, p == q)
  {
    hide *;
    BooleansOrder(m, p, q);
    ComparedBy(m, l, VBool(p), r, VBool(q), if p == q then 0 else if q then -1 else 1);
  }

  // ---------------------------------------------------------------- decimals and floats

  lemma DecimalsOrder<F>(m: Machine<F>, x: Decimal, y: Decimal)
    ensures CompareValues(m, VDec(x), VDec(y))
         == match CompareDec(x, y) { case Some(c) => Some(c) case None => Some(m.order(m.ofDec(x), m.ofDec(y))) }
  {
    hide CompareDec;
  }

  lemma DecSigns(x: Dec, y: Dec)
    ensures CompareDec(x, y).Some? ==> -1 <= CompareDec(x, y).value <= 1
  {
    hide Pow10, Wrap128;
  }

  /** Decimals compare as the rational numbers they stand for, counted in units of 10^-k,
      exactly where the scaled operand compares right; 38 digits of scale apart they are
      compared as floating point. */
  lemma DecimalsCompare<F>(m: Machine<F>, l: Node, x: Decimal, r: Node, y: Decimal, k: nat)
    requires EvalNode(m, l) == Some(VDec(x)) && EvalNode(m, r) == Some(VDec(y)) && x.scale <= k && y.scale <= k
    ensures Abs(x.scale - y.scale) <= 37 ==>
              (Compared(m, l, r, Units(x, k) < Units(y, k), Units(x, k) == Units(y, k)) <==> ScalesRight(x, y))
    ensures Abs(x.scale - y.scale) > 37 ==>
              var c := m.order(m.ofDec(x), m.ofDec(y)); Compared(m, l, r, c < 0, c == 0)
  {
    assert CommonScale(x, y) <= k;
    hide *;
    DecimalsOrder(m, x, y);
    CompareIsExact(x, y, k);
    DecSigns(x, y);
    if CompareDec(x, y).Some? {
      var c, u, v := CompareDec(x, y).value, Units(x, k), Units(y, k);
      ComparedBy(m, l, VDec(x), r, VDec(y), c);
      OrderSign(u, v);
      OrderRange(u, v);
      ToldOnce(m, l, r, c < 0, c == 0, u < v, u == v);
    } else {
      ComparedBy(m, l, VDec(x), r, VDec(y), m.order(m.ofDec(x), m.ofDec(y)));
    }
  }

  lemma OrderRange(x: int, y: int)
    ensures -1 <= Order(x, y) <= 1
  {}

  predicate IsNumber<F>(v: Value<F>) { v.VInt? || v.VFloat? || v.VDec? }

  /** The floating-point number a number is taken for. */
  function FloatOf<F>(m: Machine<F>, v: Value<F>): F
    requires IsNumber(v)
  {
    match v case VInt(i) => m.ofInt(i) case VFloat(f) => f case VDec(d) => m.ofDec(d)
  }

  lemma FloatsOrder<F>(m: Machine<F>, a: Value<F>, b: Value<F>)
    requires IsNumber(a) && IsNumber(b) && !(a.VInt? && b.VInt?) && !(a.VDec? && b.VDec?)
    ensures CompareValues(m, a, b) == Some(m.order(FloatOf(m, a), FloatOf(m, b)))
  {}

  /** Any other two numbers compare as floating point. */
  lemma MixedNumbersCompare<F>(m: Machine<F>, l: Node, a: Value<F>, r: Node, b: Value<F>)
    requires EvalNode(m, l) == Some(a) && EvalNode(m, r) == Some(b)
    requires IsNumber(a) && IsNumber(b) && !(a.VInt? && b.VInt?) && !(a.VDec? && b.VDec?)
    ensures var c := m.order(FloatOf(m, a), FloatOf(m, b)); Compared(m, l, r, c < 0, c == 0)
  {
    hide *;
    NumbersNotNull(a);
    NumbersNotNull(b);
    FloatsOrder(m, a, b);
    ComparedBy(m, l, a, r, b, m.order(FloatOf(m, a), FloatOf(m, b)));
  }

  lemma NumbersNotNull<F>(a: Value<F>)
    requires IsNumber(a)
    ensures !a.Null?
  {}

  // ---------------------------------------------------------------- what can be compared at all

  datatype Family = Textual | Logical | Clock | CalendarDay | Numerical

  /** GUIDs and byte strings count as numbers next to another kind of value. */
  function FamilyOf<F>(v: Value<F>): Family
    requires !v.Null?
  {
    match v
    case VStr(_) => Textual
    case VBool(_) => Logical
    case VTime(_) => Clock
    case VDate(_) => CalendarDay
    case VTs(_) => CalendarDay
    case _ => Numerical
  }

  /** A comparison has a result exactly between values of one family; a null on either side
      makes every operator but && and || null. */
  lemma ComparableExactly<F>(m: Machine<F>, op: BinOp, l: Node, a: Value<F>, r: Node, b: Value<F>)
    requires EvalNode(m, l) == Some(a) && EvalNode(m, r) == Some(b)
    ensures IsComparison(op) && !a.Null? && !b.Null? ==>
              (EvalNode(m, Binop(op, l, r)).Some? <==> FamilyOf(a) == FamilyOf(b))
    ensures op != And && op != Or && (a.Null? || b.Null?) ==> EvalNode(m, Binop(op, l, r)) == Some(Null)
  {
    hide *;
    if op != And && op != Or {
      IntegerLaws.StrictEvals(m, op, l, r);
      StrictNulls(m, op, a, b);
      if IsComparison(op) && !a.Null? && !b.Null? {
        FamiliesCompare(m, a, b);
        StrictlyCompares(m, op, a, b);
      }
    } else {
      NoComparison(op);
    }
  }

  lemma NoComparison(op: BinOp)
    requires op == And || op == Or
    ensures !IsComparison(op)
  {}

  lemma StrictNulls<F>(m: Machine<F>, op: BinOp, a: Value<F>, b: Value<F>)
    requires op != And && op != Or
    ensures a.Null? || b.Null? ==> StrictBinop(m, op, a, b) == Some(Null)
  {}

  lemma StrictlyCompares<F>(m: Machine<F>, op: BinOp, a: Value<F>, b: Value<F>)
    requires IsComparison(op) && !a.Null? && !b.Null?
    ensures StrictBinop(m, op, a, b).Some? <==> CompareValues(m, a, b).Some?
  {
    hide CompareValues;
  }

  lemma FamiliesCompare<F>(m: Machine<F>, a: Value<F>, b: Value<F>)
    requires !a.Null? && !b.Null?
    ensures CompareValues(m, a, b).Some? <==> FamilyOf(a) == FamilyOf(b)
  {
    hide CompareDec, Compare, Micros;
  }

  // ---------------------------------------------------------------- truth tables

  datatype Truth = Yes | No | Unknown

  predicate Says<F>(r: Option<Value<F>>, t: Truth) {
    match t case Yes => r == Some(VBool(true)) case No => r == Some(VBool(false)) case Unknown => r == Some(Null)
  }

  /** The tables of && and ||, with null as the third truth value, and of ! and the choice. */
  lemma TruthTables<F>(m: Machine<F>, l: Node, p: Truth, r: Node, q: Truth)
    requires Says(EvalNode(m, l), p) && Says(EvalNode(m, r), q)
    ensures Says(EvalNode(m, Binop(And, l, r)), if p.No? || q.No? then No else if p.Yes? && q.Yes? then Yes else Unknown)
    ensures Says(EvalNode(m, Binop(Or, l, r)), if p.Yes? || q.Yes? then Yes else if p.No? && q.No? then No else Unknown)
    ensures Says(EvalNode(m, Unary(Not, l)), match p { case Yes => No case No => Yes case Unknown => Unknown })
  {}

  lemma ChoiceTakesBranch<F>(m: Machine<F>, c: Node, p: Truth, t: Node, f: Node)
    requires Says(EvalNode(m, c), p)
    ensures p.Yes? ==> EvalNode(m, Ternary(c, t, f)) == EvalNode(m, t)
    ensures p.No? ==> EvalNode(m, Ternary(c, t, f)) == EvalNode(m, f)
    ensures p.Unknown? ==> EvalNode(m, Ternary(c, t, f)) == Some(Null)
  {}

  /** ISNULL tells whether its argument is null and REPLACENULL gives the second argument for
      a null; every other function and every cast of a null is null. */
  lemma NullFunctions<F>(m: Machine<F>, a: Node, v: Value<F>, b: Node, fn: Fn, to: Dt, len: Option<int>, scale: Option<int>)
    requires EvalNode(m, a) == Some(v)
    ensures EvalNode(m, Call(IsNull, [a])) == Some(VBool(v.Null?))
    ensures EvalNode(m, Call(ReplaceNull, [a, b])) == (if v.Null? then EvalNode(m, b) else Some(v))
    ensures v.Null? && fn != IsNull && fn != ReplaceNull ==> EvalNode(m, Call(fn, [a])) == Some(Null)
    ensures v.Null? ==> EvalNode(m, Cast(to, len, scale, a)) == Some(Null)
  {
    hide *;
    OneArgument(m, a, v);
    NullTests(m, a, v, b);
    NullsPass(m, a, v, fn, to, len, scale);
  }

  lemma NullTests<F>(m: Machine<F>, a: Node, v: Value<F>, b: Node)
    requires EvalNode(m, a) == Some(v)
    ensures EvalNode(m, Call(IsNull, [a])) == Some(VBool(v.Null?))
    ensures EvalNode(m, Call(ReplaceNull, [a, b])) == (if v.Null? then EvalNode(m, b) else Some(v))
  {
    hide EvalArgs, HasNull;
    assert [a][0] == a && [a, b][0] == a && [a, b][1] == b;
  }

  lemma NullsPass<F>(m: Machine<F>, a: Node, v: Value<F>, fn: Fn, to: Dt, len: Option<int>, scale: Option<int>)
    requires EvalNode(m, a) == Some(v) && EvalArgs(m, [a]) == Some([v]) && (HasNull([v]) <==> v.Null?)
    ensures v.Null? && fn != IsNull && fn != ReplaceNull ==> EvalNode(m, Call(fn, [a])) == Some(Null)
    ensures v.Null? ==> EvalNode(m, Cast(to, len, scale, a)) == Some(Null)
  {
    hide EvalArgs, HasNull;
  }

  lemma OneArgument<F>(m: Machine<F>, a: Node, v: Value<F>)
    requires EvalNode(m, a) == Some(v)
    ensures EvalArgs(m, [a]) == Some([v]) && (HasNull([v]) <==> v.Null?)
  {
    assert [a][1..] == [] && [v] + [] == [v] && [v][0] == v;
    hide EvalNode;
    assert EvalArgs(m, []) == Some([]);
  }

  // ---------------------------------------------------------------- integers

  /** Dividing `u` by `v` a whole number of times leaves `e`. */
  predicate Leaves(u: int, v: int, n: int, e: int) {
    u == n * v + e && Abs(e) < Abs(v) && (u >= 0 ==> e >= 0) && (u <= 0 ==> e <= 0)
  }

  lemma LeavesIs(u: int, v: int, n: int, e: int)
    requires e == u - n * v && Abs(e) < Abs(v) && (u >= 0 ==> e >= 0) && (u <= 0 ==> e <= 0)
    ensures Leaves(u, v, n, e)
  {}

  /** `r` is the 64-bit integer that differs from `x` by a multiple of 2^64. */
  predicate WrapsTo<F>(r: Option<Value<F>>, x: int) {
    r.Some? && r.value.VInt? && IsInt64(r.value.i) && (r.value.i - x) % TWO_64 == 0
  }

  lemma Wraps<F>(x: int)
    ensures WrapsTo<F>(Some(VInt(Wrap64(x))), x)
  {
    var k := IntegerLaws.WrapDiffers(x);
    IntegerLaws.ModIs(TWO_64 * k, TWO_64, k, 0);
    hide Wrap64;
  }

  /** Sums, differences, products and negation wrap around; the complement is exact. */
  lemma IntegersWrap<F>(m: Machine<F>, l: Node, x: int, r: Node, y: int)
    requires IsInt64(x) && IsInt64(y)
    requires EvalNode(m, l) == Some(VInt(x)) && EvalNode(m, r) == Some(VInt(y))
    ensures WrapsTo(EvalNode(m, Binop(Add, l, r)), x + y)
    ensures WrapsTo(EvalNode(m, Binop(Sub, l, r)), x - y)
    ensures WrapsTo(EvalNode(m, Binop(Mul, l, r)), x * y)
    ensures WrapsTo(EvalNode(m, Unary(Neg, l)), -x)
    ensures EvalNode(m, Unary(BitNot, l)) == Some(VInt(-x - 1))
  {
    hide *;
    IntegerLaws.IntsEval(m, l, x, r, y);
    UnariesEval(m, l, x);
    RingIsWrap(x, y);
    Wraps<F>(x + y);
    Wraps<F>(x - y);
    Wraps<F>(x * y);
    Wraps<F>(-x);
  }

  lemma RingIsWrap(x: int, y: int)
    requires IsInt64(x) && IsInt64(y)
    ensures IntegerLaws.Plus(x, y) == Wrap64(x + y) && IntegerLaws.Minus(x, y) == Wrap64(x - y)
    ensures IntegerLaws.Times(x, y) == Wrap64(x * y)
  {
    hide Wrap64;
  }

  lemma UnariesEval<F>(m: Machine<F>, l: Node, x: int)
    requires IsInt64(x)
    requires EvalNode(m, l) == Some(VInt(x))
    ensures EvalNode(m, Unary(Neg, l)) == Some(VInt(Wrap64(-x)))
    ensures EvalNode(m, Unary(BitNot, l)) == Some(VInt(-x - 1))
  {}

  /** Division truncates toward zero and the remainder has the dividend's sign. The one
      quotient out of range wraps; division by zero is an error. */
  lemma IntegersDivide<F>(m: Machine<F>, l: Node, x: int, r: Node, y: int)
    requires IsInt64(x) && IsInt64(y)
    requires EvalNode(m, l) == Some(VInt(x)) && EvalNode(m, r) == Some(VInt(y))
    ensures y == 0 ==> EvalNode(m, Binop(Div, l, r)) == None == EvalNode(m, Binop(Mod, l, r))
    ensures y != 0 ==>
              exists q: int, e: int ::
                && IsInt64(e) && EvalNode(m, Binop(Mod, l, r)) == Some(VInt(e)) && Leaves(x, y, q, e)
                && WrapsTo(EvalNode(m, Binop(Div, l, r)), q) && (IsInt64(q) || (x == -TWO_63 && y == -1))
  {
    hide *;
    DivisionEvals(m, l, x, r, y);
    if y != 0 {
      RemainderParts(x, y);
      var q: int, e: int := CInt.Div(x, y), CInt.Mod(x, y);
      QuotientRange(x, y, q, e);
      LeavesIs(x, y, q, e);
      Wraps<F>(q);
    }
  }

  lemma QuotientRange(x: int, y: int, q: int, e: int)
    requires IsInt64(x) && IsInt64(y) && y != 0 && e == x - q * y && Abs(e) < Abs(y)
    requires (x >= 0 ==> e >= 0) && (x <= 0 ==> e <= 0)
    ensures IsInt64(e) && Wrap64(e) == e && x == q * y + e && (IsInt64(q) || (x == -TWO_63 && y == -1))
  {
    if !IsInt64(q) {
      var p := q * y;
      MagnitudeGrows(q, y);
      assert Abs(p) <= Abs(x);
      assert y == -1 ==> p == -q;
      assert y == 1 ==> p == q;
    }
  }

  lemma MagnitudeGrows(q: int, y: int)
    requires y != 0
    ensures Abs(q) <= Abs(q * y) && (Abs(y) >= 2 ==> 2 * Abs(q) <= Abs(q * y))
  {
    MulMagnitude(q, Abs(y));
    assert q * (-y) == -(q * y);
    if Abs(y) >= 2 { FactorBound(Abs(q), Abs(y), 2); }
    FactorBound(Abs(q), Abs(y), 1);
  }

  lemma DivisionEvals<F>(m: Machine<F>, l: Node, x: int, r: Node, y: int)
    requires IsInt64(x) && IsInt64(y) && EvalNode(m, l) == Some(VInt(x)) && EvalNode(m, r) == Some(VInt(y))
    ensures y == 0 ==> EvalNode(m, Binop(Div, l, r)) == None == EvalNode(m, Binop(Mod, l, r))
    ensures y != 0 ==> EvalNode(m, Binop(Div, l, r)) == Some(VInt(Wrap64(CInt.Div(x, y))))
    ensures y != 0 ==> EvalNode(m, Binop(Mod, l, r)) == Some(VInt(Wrap64(CInt.Mod(x, y))))
  {
    hide *;
    IntegerLaws.StrictEvals(m, Div, l, r);
    IntegerLaws.StrictEvals(m, Mod, l, r);
    IntegersDivideBy(m, x, y);
  }

  lemma IntegersDivideBy<F>(m: Machine<F>, x: int, y: int)
    requires IsInt64(x) && IsInt64(y)
    ensures y == 0 ==> StrictBinop(m, Div, VInt(x), VInt(y)) == None == StrictBinop(m, Mod, VInt(x), VInt(y))
    ensures y != 0 ==> StrictBinop(m, Div, VInt(x), VInt(y)) == Some(VInt(Wrap64(CInt.Div(x, y))))
    ensures y != 0 ==> StrictBinop(m, Mod, VInt(x), VInt(y)) == Some(VInt(Wrap64(CInt.Mod(x, y))))
  {
    hide CInt.Div, CInt.Mod, Wrap64, CompareOp, DecArith, Bitwise;
  }

  // ---------------------------------------------------------------- bits

  /** The 64-bit word of an integer in two's complement. */
  function Word(x: int): bv64 { (x % TWO_64) as bv64 }

  lemma WordBack(w: bv64)
    ensures (w as int) as bv64 == w
  {}

  lemma WrapIsModulo(n: int)
    requires 0 <= n < TWO_64
    ensures Wrap64(n) % TWO_64 == n
  {}

  /** The integer whose word is `w`. */
  function Back(w: bv64): (r: int)
    ensures IsInt64(r)
  {
    Wrap64(w as int)
  }

  lemma WordOfBack(w: bv64)
    ensures Word(Back(w)) == w
  {
    var n := w as int;
    WrapIsModulo(n);
    WordBack(w);
    hide Wrap64;
  }

  lemma WordIsUnsigned(x: int)
    ensures Word(x) == Unsigned(x)
  {}

  lemma AndsBack<F>(x: int, y: int)
    requires IsInt64(x) && IsInt64(y)
    ensures Bitwise<F>(BitAnd, VInt(x), VInt(y)) == Some(VInt(Back(Unsigned(x) & Unsigned(y))))
  {
    hide Unsigned, Wrap64;
  }

  lemma OrsBack<F>(x: int, y: int)
    requires IsInt64(x) && IsInt64(y)
    ensures Bitwise<F>(BitOr, VInt(x), VInt(y)) == Some(VInt(Back(Unsigned(x) | Unsigned(y))))
  {
    hide Unsigned, Wrap64;
  }

  lemma XorsBack<F>(x: int, y: int)
    requires IsInt64(x) && IsInt64(y)
    ensures Bitwise<F>(BitXor, VInt(x), VInt(y)) == Some(VInt(Back(Unsigned(x) ^ Unsigned(y))))
  {
    hide Unsigned, Wrap64;
  }

  lemma StrictlyBitwise<F>(m: Machine<F>, op: BinOp, a: Value<F>, b: Value<F>)
    requires IsBitwise(op)
    ensures StrictBinop(m, op, a, b) == Bitwise(op, a, b)
  {
    hide Bitwise, CompareOp, Arith;
  }

  lemma BitwiseEvals<F>(m: Machine<F>, op: BinOp, l: Node, x: int, r: Node, y: int)
    requires IsInt64(x) && IsInt64(y) && IsBitwise(op)
    requires EvalNode(m, l) == Some(VInt(x)) && EvalNode(m, r) == Some(VInt(y))
    ensures EvalNode(m, Binop(op, l, r)) == Bitwise(op, VInt(x), VInt(y))
  {
    IntegerLaws.StrictEvals(m, op, l, r);
    hide EvalNode, Bitwise, StrictBinop;
    StrictlyBitwise<F>(m, op, VInt(x), VInt(y));
  }

  lemma AreBitwise()
    ensures IsBitwise(BitAnd) && IsBitwise(BitOr) && IsBitwise(BitXor)
  {}

  /** The words of the operands combine bit by bit into the word of the result. */
  lemma AndsCombine<F>(m: Machine<F>, l: Node, x: int, r: Node, y: int)
    requires IsInt64(x) && IsInt64(y) && EvalNode(m, l) == Some(VInt(x)) && EvalNode(m, r) == Some(VInt(y))
    ensures exists z: int ::
              IsInt64(z) && EvalNode(m, Binop(BitAnd, l, r)) == Some(VInt(z)) && Word(z) == Word(x) & Word(y)
  {
    hide *;
    AreBitwise();
    BitwiseEvals(m, BitAnd, l, x, r, y);
    AndsBack<F>(x, y);
    WordOfBack(Unsigned(x) & Unsigned(y));
    WordIsUnsigned(x);
    WordIsUnsigned(y);
  }

  lemma OrsCombine<F>(m: Machine<F>, l: Node, x: int, r: Node, y: int)
    requires IsInt64(x) && IsInt64(y) && EvalNode(m, l) == Some(VInt(x)) && EvalNode(m, r) == Some(VInt(y))
    ensures exists z: int ::
              IsInt64(z) && EvalNode(m, Binop(BitOr, l, r)) == Some(VInt(z)) && Word(z) == Word(x) | Word(y)
  {
    hide *;
    AreBitwise();
    BitwiseEvals(m, BitOr, l, x, r, y);
    OrsBack<F>(x, y);
    WordOfBack(Unsigned(x) | Unsigned(y));
    WordIsUnsigned(x);
    WordIsUnsigned(y);
  }

  lemma XorsCombine<F>(m: Machine<F>, l: Node, x: int, r: Node, y: int)
    requires IsInt64(x) && IsInt64(y) && EvalNode(m, l) == Some(VInt(x)) && EvalNode(m, r) == Some(VInt(y))
    ensures exists z: int ::
              IsInt64(z) && EvalNode(m, Binop(BitXor, l, r)) == Some(VInt(z)) && Word(z) == Word(x) ^ Word(y)
  {
    hide *;
    AreBitwise();
    BitwiseEvals(m, BitXor, l, x, r, y);
    XorsBack<F>(x, y);
    WordOfBack(Unsigned(x) ^ Unsigned(y));
    WordIsUnsigned(x);
    WordIsUnsigned(y);
  }

  // ---------------------------------------------------------------- text

  /** Concatenation holds the first text and then the second; text next to anything else, and
      booleans in any arithmetic, are refused, as are dates and the like next to integers and
      floats. */
  lemma TextAdds<F>(m: Machine<F>, l: Node, s: string, r: Node, t: string)
    requires EvalNode(m, l) == Some(VStr(s)) && EvalNode(m, r) == Some(VStr(t))
    ensures exists u: string ::
              && EvalNode(m, Binop(Add, l, r)) == Some(VStr(u)) && |u| == |s| + |t|
              && (forall i :: 0 <= i < |s| ==> u[i] == s[i]) && (forall i :: 0 <= i < |t| ==> u[|s| + i] == t[i])
  {
    IntegerLaws.StrictEvals(m, Add, l, r);
    hide EvalNode;
    assert StrictBinop(m, Add, VStr(s), VStr(t)) == Some(VStr(s + t));
  }

  predicate IsArithmetic(op: BinOp) { op == Add || op == Sub || op == Mul || op == Div || op == Mod }

  lemma ArithmeticRefuses<F>(m: Machine<F>, op: BinOp, l: Node, a: Value<F>, r: Node, b: Value<F>)
    requires EvalNode(m, l) == Some(a) && EvalNode(m, r) == Some(b) && !a.Null? && !b.Null? && IsArithmetic(op)
    ensures (a.VStr? || b.VStr?) && !(op == Add && a.VStr? && b.VStr?) ==> EvalNode(m, Binop(op, l, r)) == None
    ensures a.VBool? || b.VBool? ==> EvalNode(m, Binop(op, l, r)) == None
    ensures !IsNumber(a) && !b.VDec? && !(a.VStr? && b.VStr?) ==> EvalNode(m, Binop(op, l, r)) == None
    ensures !IsNumber(b) && !a.VDec? && !(a.VStr? && b.VStr?) ==> EvalNode(m, Binop(op, l, r)) == None
  {
    hide *;
    ArithmeticOnly(op);
    IntegerLaws.StrictEvals(m, op, l, r);
    Refusals(m, op, a, b);
  }

  lemma Refusals<F>(m: Machine<F>, op: BinOp, a: Value<F>, b: Value<F>)
    requires !a.Null? && !b.Null? && IsArithmetic(op)
    ensures (a.VStr? || b.VStr?) && !(op == Add && a.VStr? && b.VStr?) ==> StrictBinop(m, op, a, b) == None
    ensures a.VBool? || b.VBool? ==> StrictBinop(m, op, a, b) == None
    ensures !IsNumber(a) && !b.VDec? && !(a.VStr? && b.VStr?) ==> StrictBinop(m, op, a, b) == None
    ensures !IsNumber(b) && !a.VDec? && !(a.VStr? && b.VStr?) ==> StrictBinop(m, op, a, b) == None
  {
    hide DecArith, IntArith, CompareOp, Bitwise;
  }

  /** Arithmetic in which a float takes part is floating point throughout. */
  lemma FloatsCompute<F>(m: Machine<F>, op: BinOp, l: Node, a: Value<F>, r: Node, b: Value<F>)
    requires EvalNode(m, l) == Some(a) && EvalNode(m, r) == Some(b) && IsArithmetic(op)
    requires IsNumber(a) && IsNumber(b) && (a.VFloat? || b.VFloat?)
    ensures EvalNode(m, Binop(op, l, r)) == Some(VFloat(m.arith(op, FloatOf(m, a), FloatOf(m, b))))
  {
    hide *;
    ArithmeticOnly(op);
    IntegerLaws.StrictEvals(m, op, l, r);
    FloatsArith(m, op, a, b);
  }

  lemma FloatsArith<F>(m: Machine<F>, op: BinOp, a: Value<F>, b: Value<F>)
    requires IsArithmetic(op) && IsNumber(a) && IsNumber(b) && (a.VFloat? || b.VFloat?)
    ensures StrictBinop(m, op, a, b) == Some(VFloat(m.arith(op, FloatOf(m, a), FloatOf(m, b))))
  {
    hide DecArith, IntArith, CompareOp, Bitwise;
  }

  // ---------------------------------------------------------------- decimal arithmetic

  /** A decimal, or the integer that it stands for next to a decimal. */
  predicate Denotes<F>(v: Value<F>, d: Decimal) { v == VDec(d) || (v.VInt? && d == Dec(v.i, 0)) }

  predicate DecimalOperands<F>(m: Machine<F>, l: Node, x: Decimal, r: Node, y: Decimal) {
    && EvalNode(m, l).Some? && EvalNode(m, r).Some?
    && Denotes(EvalNode(m, l).value, x) && Denotes(EvalNode(m, r).value, y)
    && (EvalNode(m, l).value.VDec? || EvalNode(m, r).value.VDec?)
  }

  predicate Gives<F>(r: Option<Value<F>>, d: Option<Dec>) {
    match d case None => r == None case Some(e) => ValidDec(e) && r == Some(VDec(e))
  }

  lemma DecimalsEval<F>(m: Machine<F>, op: BinOp, l: Node, x: Decimal, r: Node, y: Decimal)
    requires DecimalOperands(m, l, x, r, y) && IsArithmetic(op)
    ensures Gives(EvalNode(m, Binop(op, l, r)), DecArith(op, x, y))
  {
    hide EvalNode, StrictBinop, DecArith, Denotes, Gives;
    ArithmeticOnly(op);
    IntegerLaws.StrictEvals(m, op, l, r);
    DecimalsCompute(m, op, EvalNode(m, l).value, x, EvalNode(m, r).value, y);
  }

  lemma ArithmeticOps()
    ensures IsArithmetic(BinOp.Add) && IsArithmetic(BinOp.Sub) && IsArithmetic(BinOp.Mul)
    ensures IsArithmetic(BinOp.Div) && IsArithmetic(BinOp.Mod)
  {}

  lemma ArithmeticOnly(op: BinOp)
    requires IsArithmetic(op)
    ensures op != And && op != Or && !IsBitwise(op) && !IsComparison(op)
  {}

  lemma DecimalsCompute<F>(m: Machine<F>, op: BinOp, a: Value<F>, x: Decimal, b: Value<F>, y: Decimal)
    requires IsArithmetic(op) && Denotes(a, x) && Denotes(b, y) && (a.VDec? || b.VDec?)
    ensures Gives(StrictBinop(m, op, a, b), DecArith(op, x, y))
  {
    hide DecArith, CompareOp, Bitwise, IntArith;
  }

  lemma DecArithIs(x: Decimal, y: Decimal)
    ensures DecArith(BinOp.Add, x, y) == DecimalArith.Add(x, y) && DecArith(BinOp.Sub, x, y) == DecimalArith.Sub(x, y)
    ensures DecArith(BinOp.Mul, x, y) == DecimalArith.Mul(x, y)
    ensures DecArith(BinOp.Div, x, y) == Quotient(x, y) && DecArith(BinOp.Mod, x, y) == Remainder(x, y)
  {
    hide DecimalArith.Add, DecimalArith.Sub, DecimalArith.Mul, Quotient, Remainder;
  }

  /** Sums and differences of decimals are exact, at the larger scale; they fail exactly when
      an operand or the result does not fit 128 bits there. */
  lemma DecimalsAdd<F>(m: Machine<F>, l: Node, x: Decimal, r: Node, y: Decimal)
    requires DecimalOperands(m, l, x, r, y)
    ensures var k := Max(x.scale, y.scale); var u, v := Units(x, k), Units(y, k);
            && EvalNode(m, Binop(BinOp.Add, l, r))
               == (if IsInt128(u) && IsInt128(v) && IsInt128(u + v) then Some(VDec(Dec(u + v, k))) else None)
            && EvalNode(m, Binop(BinOp.Sub, l, r))
               == (if IsInt128(u) && IsInt128(v) && IsInt128(u - v) then Some(VDec(Dec(u - v, k))) else None)
  {
    hide *;
    ArithmeticOps();
    DecimalsEval(m, BinOp.Add, l, x, r, y);
    DecimalsEval(m, BinOp.Sub, l, x, r, y);
    DecArithIs(x, y);
    SumIs(x, y);
    Unpack(EvalNode(m, Binop(BinOp.Add, l, r)), DecimalArith.Add(x, y));
    Unpack(EvalNode(m, Binop(BinOp.Sub, l, r)), DecimalArith.Sub(x, y));
  }

  lemma Unpack<F>(r: Option<Value<F>>, d: Option<Dec>)
    requires Gives(r, d)
    ensures d.None? <==> r.None?
    ensures d.Some? ==> ValidDec(d.value) && r == Some(VDec(d.value))
  {}

  lemma SumIs(x: Decimal, y: Decimal)
    ensures var k := Max(x.scale, y.scale); var u, v := Units(x, k), Units(y, k);
            && DecimalArith.Add(x, y) == (if IsInt128(u) && IsInt128(v) && IsInt128(u + v) then Some(Dec(u + v, k)) else None)
            && DecimalArith.Sub(x, y) == (if IsInt128(u) && IsInt128(v) && IsInt128(u - v) then Some(Dec(u - v, k)) else None)
            && k <= 38
  {
    hide Pow10;
  }

  /** A product is exact up to 38 fraction digits and beyond that cut toward zero by less than
      one unit in the last place; it fails exactly when the unscaled product does not fit. */
  lemma DecimalsMultiply<F>(m: Machine<F>, l: Node, x: Decimal, r: Node, y: Decimal)
    requires DecimalOperands(m, l, x, r, y)
    ensures var s, exact := x.scale + y.scale, x.v * y.v;
            if !IsInt128(exact) then EvalNode(m, Binop(BinOp.Mul, l, r)) == None
            else if s <= 38 then EvalNode(m, Binop(BinOp.Mul, l, r)) == Some(VDec(Dec(exact, s)))
            else exists d: Decimal ::
                   && EvalNode(m, Binop(BinOp.Mul, l, r)) == Some(VDec(d)) && d.scale == 38
                   && Abs(exact - Units(d, s)) < Units(Dec(1, 38), s)
                   && (exact >= 0 ==> 0 <= Units(d, s) <= exact) && (exact <= 0 ==> exact <= Units(d, s) <= 0)
  {
    hide *;
    ArithmeticOps();
    DecimalsEval(m, BinOp.Mul, l, x, r, y);
    DecArithIs(x, y);
    MulIsTruncated(x, y);
    Unpack(EvalNode(m, Binop(BinOp.Mul, l, r)), DecimalArith.Mul(x, y));
    if IsInt128(x.v * y.v) {
      MulScale(x, y);
      var d: Decimal := DecimalArith.Mul(x, y).value;
    }
  }

  lemma MulScale(x: Decimal, y: Decimal)
    requires DecimalArith.Mul(x, y).Some?
    ensures Min(x.scale + y.scale, 38) == if x.scale + y.scale <= 38 then x.scale + y.scale else 38
    ensures var s := x.scale + y.scale;
            s <= 38 ==> DecimalArith.Mul(x, y) == Some(Dec(x.v * y.v, s))
  {}

  /** A quotient has scale max(6, the dividend's); times the divisor it misses the dividend by
      at most half the divisor, ties away from zero, exactly where rounding goes right. It
      fails exactly when the divisor is zero or the dividend does not fit 128 bits at the
      product's scale. */
  lemma DecimalsDivide<F>(m: Machine<F>, l: Node, x: Decimal, r: Node, y: Decimal)
    requires DecimalOperands(m, l, x, r, y)
    ensures var k := Max(x.scale, 6) + y.scale; var num := Units(x, k);
            if y.v == 0 || k - x.scale > 38 || !IsInt128(num) then EvalNode(m, Binop(BinOp.Div, l, r)) == None
            else exists d: Decimal ::
                   && EvalNode(m, Binop(BinOp.Div, l, r)) == Some(VDec(d)) && d.scale == Max(x.scale, 6)
                   && (2 * Abs(d.v * y.v - num) <= Abs(y.v)
                         && (2 * Abs(d.v * y.v - num) == Abs(y.v) ==> Abs(d.v * y.v) >= Abs(num))
                       <==> RoundsRight(num, y.v))
  {
    hide *;
    DivScaleFits(x, y);
    ArithmeticOps();
    DecimalsEval(m, BinOp.Div, l, x, r, y);
    DecArithIs(x, y);
    DivIsNearest(x, y);
    Unpack(EvalNode(m, Binop(BinOp.Div, l, r)), Quotient(x, y));
    var num := Units(x, Max(x.scale, 6) + y.scale);
    if Quotient(x, y).Some? {
      var d: Decimal := Quotient(x, y).value;
      NearestIs(d.v, num, y.v);
    }
  }

  lemma DivScaleFits(x: Dec, y: Dec)
    ensures x.scale <= Max(x.scale, 6) + y.scale
  {}

  lemma NearestIs(q: int, num: int, b: int)
    ensures Nearest(q, num, b) <==> 2 * Abs(q * b - num) <= Abs(b) && (2 * Abs(q * b - num) == Abs(b) ==> Abs(q * b) >= Abs(num))
  {}

  /** A remainder is the dividend less a whole multiple of the divisor, smaller than the
      divisor and with the dividend's sign, all at the larger scale; it fails exactly when the
      divisor is zero or an operand does not fit there. */
  lemma DecimalsLeave<F>(m: Machine<F>, l: Node, x: Decimal, r: Node, y: Decimal)
    requires DecimalOperands(m, l, x, r, y)
    ensures var k := CommonScale(x, y); var u, v := Units(x, k), Units(y, k);
            if y.v == 0 || !IsInt128(u) || !IsInt128(v) then EvalNode(m, Binop(BinOp.Mod, l, r)) == None
            else exists e: Dec, n: int ::
                   && ValidDec(e) && EvalNode(m, Binop(BinOp.Mod, l, r)) == Some(VDec(e)) && e.scale == k
                   && Leaves(u, v, n, e.v)
  {
    CommonScaleCovers(x, y);
    hide *;
    ArithmeticOps();
    DecimalsEval(m, BinOp.Mod, l, x, r, y);
    DecArithIs(x, y);
    RemainderIs(x, y);
    Unpack(EvalNode(m, Binop(BinOp.Mod, l, r)), Remainder(x, y));
    var k := CommonScale(x, y);
    var u, v := Units(x, k), Units(y, k);
    if y.v != 0 && IsInt128(u) && IsInt128(v) {
      RemainderParts(u, v);
      var e, n := Remainder(x, y).value, CInt.Div(u, v);
      LeavesIs(u, v, n, e.v);
    }
  }

  lemma CommonScaleCovers(x: Dec, y: Dec)
    ensures x.scale <= CommonScale(x, y) && y.scale <= CommonScale(x, y)
  {}

  lemma RemainderIs(x: Decimal, y: Decimal)
    ensures var k := CommonScale(x, y); var u, v := Units(x, k), Units(y, k);
            && (y.v != 0 ==> v != 0)
            && Remainder(x, y) == if y.v != 0 && IsInt128(u) && IsInt128(v) then Some(Dec(CInt.Mod(u, v), k)) else None
  {
    hide Pow10, CInt.Mod;
    var k := CommonScale(x, y);
    PowNonzero(k - y.scale);
    if y.v != 0 { NonzeroProduct(y.v, Pow10(k - y.scale)); }
  }
}
