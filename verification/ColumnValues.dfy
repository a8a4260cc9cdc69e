/**
 What the cells of an output column hold (providers/betl-ssisexpr/ssisexpr_provider.c), told
 from the values alone, and the evaluation of a whole batch.
 */
module ColumnValues {
  import opened CInt
  import opened Text
  import opened IsoText
  import opened IsoTheorems
  import IntegerLaws
  import opened Eval
  import opened Columns
  import Syntax

  /** The integers an integer column has room for. */
  predicate HasRoom(t: ColType, i: int) {
    match t
    case I8 => -128 <= i <= 127
    case U8 => 0 <= i <= 255
    case I16 => -32_768 <= i <= 32_767
    case U16 => 0 <= i <= 65_535
    case I32 => -2_147_483_648 <= i <= 2_147_483_647
    case U32 => 0 <= i <= 4_294_967_295
    case I64 => -9_223_372_036_854_775_808 <= i <= 9_223_372_036_854_775_807
    case U64 => 0 <= i <= 9_223_372_036_854_775_807
    case _ => false
  }

  /** The integer that an integer column takes a value for. */
  predicate CountsAs<F>(x: FloatOut<F>, v: Value<F>, i: int) {
    match v
    case VInt(j) => i == j
    case VBool(b) => i == if b then 1 else 0
    case VTime(us) => i == us
    case VFloat(f) => x.toInt(f).Some? && i == x.toInt(f).value
    case _ => false
  }

  /** Decimal digits without leading zeros, behind a minus sign when negative. */
  predicate Spells(s: string, i: int) {
    if i < 0 then s != "" && s[0] == '-' && SpellsNat(s[1..], -i) else SpellsNat(s, i)
  }

  predicate SpellsNat(s: string, i: int) {
    s != "" && AllDigits(s) && NumberOf(s) == i && (|s| > 1 ==> s[0] != '0')
  }

  /** The text of a value that is none itself. */
  predicate IsTextOf<F>(x: FloatOut<F>, v: Value<F>, s: string) {
    match v
    case VStr(u) => s == u
    case VInt(i) => Spells(s, i)
    case VFloat(f) => s == x.text(f)
    case VBool(true) => s == "True"
    case VBool(false) => s == "False"
    case VDate(days) => s == FormatDate(days) && (FourDigitYear(days) ==> ParseDate(s) == Some(days))
    case VTs(us) => s == FormatTs(us) && (FourDigitYear(SplitTs(us).0) ==> ParseTs(s) == Some(us))
    case VTime(us) => ParseTime(s) == Some(us) && FormatTime(us) == Some(s)
    case _ => s == ""
  }

  /** Values that a column of the type refuses. */
  ghost predicate Refused<F>(x: FloatOut<F>, t: ColType, v: Value<F>) {
    if v.Null? then false
    else if t == Bits then !v.VBool? && !v.VInt? && !v.VFloat?
    else if t == Date32 then !v.VDate?
    else if t == TimestampUs then !v.VTs? && !v.VDate?
    else if t == Utf8Text then v.VTime? && !(0 <= v.us < 86_400_000_000)
    else !exists i: int :: CountsAs(x, v, i) && HasRoom(t, i)
  }

  /** A cell read back from a column of the type holds the value: nulls stay null, integers
      keep their value, truth is being true or not zero, a date in a timestamp column is its
      midnight modulo 2^64, and text columns hold text that reads back. */
  ghost predicate CellHolds<F>(x: FloatOut<F>, t: ColType, v: Value<F>, cell: Value<F>) {
    if v.Null? || cell.Null? then v.Null? && cell.Null?
    else if t == Bits then
      cell == VBool(v == VBool(true) || (v.VInt? && v.i != 0) || (v.VFloat? && x.isNonzero(v.f)))
    else if t == Date32 then v.VDate? && cell == v
    else if t == TimestampUs then
      cell.VTs? && (cell == v || (v.VDate? && (cell.us - v.days * 86_400_000_000) % TWO_64 == 0))
    else if t == Utf8Text then cell.VStr? && IsTextOf(x, v, cell.s)
    else cell.VInt? && CountsAs(x, v, cell.i) && HasRoom(t, cell.i)
  }

  lemma CoercedHolds<F>(x: FloatOut<F>, t: ColType, v: Value<F>)
    ensures Coerced(x, t, v).None? <==> Refused(x, t, v)
    ensures Coerced(x, t, v).Some? ==> CellHolds(x, t, v, Coerced(x, t, v).value)
  {
    hide *;
    if IsIntType(t) {
      IntColumnHolds(x, t, v);
    } else if t == Utf8Text {
      TextColumnHolds(x, v);
    } else {
      OtherTypes(t);
      OtherColumnHolds(x, t, v);
    }
  }

  lemma OtherTypes(t: ColType)
    ensures IsIntType(t) || t == Utf8Text || t == Bits || t == Date32 || t == TimestampUs
  {}

  lemma IntColumnHolds<F>(x: FloatOut<F>, t: ColType, v: Value<F>)
    requires IsIntType(t)
    ensures Coerced(x, t, v).None? <==> Refused(x, t, v)
    ensures Coerced(x, t, v).Some? ==> CellHolds(x, t, v, Coerced(x, t, v).value)
  {
    RoomIsRange(t);
    CountIsToInt(x, v);
    hide HasRoom, Lowest, Highest, ToInt, CountsAs, ToText, IsTextOf;
    if ToInt(x, v).Some? {
      var i: int := ToInt(x, v).value;
      assert CountsAs(x, v, i);
    }
  }

  lemma RoomIsRange(t: ColType)
    requires IsIntType(t)
    ensures forall i: int :: IsInt64(i) ==> (HasRoom(t, i) <==> Lowest(t) <= i <= Highest(t))
  {}

  lemma CountIsToInt<F>(x: FloatOut<F>, v: Value<F>)
    ensures forall i: int :: CountsAs(x, v, i) <==> ToInt(x, v).Some? && ToInt(x, v).value == i
  {}

  lemma OtherColumnHolds<F>(x: FloatOut<F>, t: ColType, v: Value<F>)
    requires t == Bits || t == Date32 || t == TimestampUs
    ensures Coerced(x, t, v).None? <==> Refused(x, t, v)
    ensures Coerced(x, t, v).Some? ==> CellHolds(x, t, v, Coerced(x, t, v).value)
  {
    if t == TimestampUs && v.VDate? {
      var days: int := v.days;
      MidnightWraps(days);
    }
    hide ToText, IsTextOf, ToInt, CountsAs, Wrap64;
  }

  lemma MidnightWraps(days: int)
    ensures (Wrap64(days * DAY_US) - days * 86_400_000_000) % TWO_64 == 0
  {
    var k := IntegerLaws.WrapDiffers(days * DAY_US);
    IntegerLaws.ModIs(TWO_64 * k, TWO_64, k, 0);
    hide Wrap64;
  }

  lemma TextColumnHolds<F>(x: FloatOut<F>, v: Value<F>)
    ensures Coerced(x, Utf8Text, v).None? <==> Refused(x, Utf8Text, v)
    ensures Coerced(x, Utf8Text, v).Some? ==> CellHolds(x, Utf8Text, v, Coerced(x, Utf8Text, v).value)
  {
    if !v.Null? { TextIs(x, v); }
    hide ToText, IsTextOf, ToInt, CountsAs;
  }

  lemma TextIs<F>(x: FloatOut<F>, v: Value<F>)
    requires !v.Null?
    ensures ToText(x, v).None? <==> v.VTime? && !(0 <= v.us < 86_400_000_000)
    ensures ToText(x, v).Some? ==> IsTextOf(x, v, ToText(x, v).value)
  {
    hide FormatDate, FormatTs, FormatTime, ParseDate, ParseTs, ParseTime, FourDigitYear, SplitTs, IntText, Spells;
    match v
    case VInt(i) => IntTextSpells(i);
    case VDate(days) => DateRoundTrip(days);
    case VTs(us) => TsRoundTrip(us);
    case VTime(us) => TimeRoundTrip(us);
    case _ =>
  }

  lemma IntTextSpells(i: int)
    ensures Spells(IntText(i), i)
  {
    PaddedSpells(Abs(i));
    hide Padded, SpellsNat;
    assert i < 0 ==> IntText(i)[1..] == Padded(-i, 1);
  }

  lemma {:induction false} PaddedSpells(n: nat)
    ensures SpellsNat(Padded(n, 1), n)
  {
    NumberOfPadded(n, 1);
    NoLeadingZero(n);
    hide Padded;
  }

  lemma {:induction false} NoLeadingZero(n: nat)
    ensures Padded(n, 1) != "" && Padded(n, 0) == Padded(n, 1)
    ensures n > 0 ==> Padded(n, 1)[0] != '0'
    ensures n == 0 ==> Padded(n, 1) == "0"
    decreases n
  {
    if n >= 10 { NoLeadingZero(n / 10); }
  }

  /** A date's midnight in a timestamp column splits into that day and no time. */
  lemma MidnightSplits<F>(x: FloatOut<F>, days: Int32, cell: Value<F>)
    requires IsInt64(days as int * 86_400_000_000) && CellHolds(x, TimestampUs, VDate(days), cell)
    ensures cell.VTs? && SplitTs(cell.us) == (days, 0)
  {
    var d: int, us: int := days, cell.us;
    SameWord(us, d * 86_400_000_000);
    SplitUnique(us, d, 0);
    hide SplitTs;
  }

  lemma SameWord(a: int, b: int)
    requires IsInt64(a) && IsInt64(b) && (a - b) % TWO_64 == 0
    ensures a == b
  {}

  /** A decimal, GUID or byte string is not refused by a string column: it is stored as no
      characters. */
  lemma UnprintableBecomesEmpty<F>(x: FloatOut<F>, v: Value<F>)
    requires v.VDec? || v.VUuid? || v.VBytes?
    ensures Coerced(x, Utf8Text, v) == Some(VStr(""))
    ensures forall t: ColType :: t != Utf8Text ==> Coerced(x, t, v).None?
  {}

  // ---------------------------------------------------------------- a batch

  /** What the tree evaluates to in each row, every row seen through its own machine. */
  function RowValues<F>(n: Syntax.Node, batch: seq<Machine<F>>): (rows: seq<Option<Value<F>>>)
    ensures |rows| == |batch| && forall r :: 0 <= r < |batch| ==> rows[r] == EvalNode(batch[r], n)
  {
    seq(|batch|, r requires 0 <= r < |batch| => EvalNode(batch[r], n))
  }

  /** Row-by-row evaluation fails, or its value is refused by the column. */
  ghost predicate RowFails<F>(x: FloatOut<F>, t: ColType, n: Syntax.Node, m: Machine<F>) {
    EvalNode(m, n).None? || Refused(x, t, EvalNode(m, n).value)
  }

  /** ssisexpr_evaluate: one tree over a batch. The column exists exactly when every row
      evaluates and its value is not refused, and then every cell holds its row's value. */
  method Evaluate<F>(x: FloatOut<F>, t: ColType, n: Syntax.Node, batch: seq<Machine<F>>) returns (leaf: Option<Leaf>)
    ensures leaf.None? <==> exists r :: 0 <= r < |batch| && RowFails(x, t, n, batch[r])
    ensures leaf.Some? ==> leaf.value.length == |batch| && WellFormed(t, leaf.value)
    ensures leaf.Some? ==> forall r :: 0 <= r < |batch| ==> EvalNode(batch[r], n).Some?
    ensures leaf.Some? && |leaf.value.data| < 0x8000_0000 ==>
              forall r :: 0 <= r < |batch| ==> CellHolds(x, t, EvalNode(batch[r], n).value, ReadCell(t, leaf.value, r))
  {
    var rows := RowValues(n, batch);
    hide EvalNode, Coerced, ReadCell, WellFormed, RowValues, CellHolds, Refused, RowFails;
    leaf := BuildColumn(x, t, rows);
    forall r | 0 <= r < |batch|
      ensures RowFails(x, t, n, batch[r]) <==> rows[r].None? || Coerced(x, t, rows[r].value).None?
    {
      RowFailsExactly(x, t, n, batch[r]);
    }
    if leaf.None? {
      var r :| 0 <= r < |rows| && (rows[r].None? || Coerced(x, t, rows[r].value).None?);
      assert RowFails(x, t, n, batch[r]);
    } else {
      assert forall r :: 0 <= r < |batch| ==> rows[r].Some?;
      forall r | 0 <= r < |batch| && |leaf.value.data| < 0x8000_0000
        ensures CellHolds(x, t, EvalNode(batch[r], n).value, ReadCell(t, leaf.value, r))
      {
        CoercedHolds(x, t, EvalNode(batch[r], n).value);
      }
    }
  }

  lemma RowFailsExactly<F>(x: FloatOut<F>, t: ColType, n: Syntax.Node, m: Machine<F>)
    ensures RowFails(x, t, n, m) <==> EvalNode(m, n).None? || Coerced(x, t, EvalNode(m, n).value).None?
  {
    if EvalNode(m, n).Some? { CoercedHolds(x, t, EvalNode(m, n).value); }
    hide EvalNode, Coerced, Refused;
  }
}
