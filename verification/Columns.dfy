/**
 Columnar output of the expression engine (providers/betl-ssisexpr/ssisexpr_provider.c): each
 row's value is coerced and staged, the staged buffers become an Arrow leaf, and reading the
 leaf gives back what the rows evaluated to.
 */
module Columns {
  import opened CInt
  import opened Text
  import opened IsoText
  import opened Eval

  datatype ColType = I8 | U8 | I16 | U16 | I32 | U32 | I64 | U64 | Bits | Date32 | TimestampUs | Utf8Text

  /** What the engine takes from floating point here. */
  datatype FloatOut<!F> = FloatOut(toInt: F -> Option<Int64>, isNonzero: F -> bool, text: F -> string)

  // ---------------------------------------------------------------- coercion

  predicate IsIntType(t: ColType) {
    t == I8 || t == U8 || t == I16 || t == U16 || t == I32 || t == U32 || t == I64 || t == U64
  }

  function Lowest(t: ColType): int {
    match t case I8 => -0x80 case I16 => -0x8000 case I32 => -0x8000_0000 case I64 => -TWO_63 case _ => 0
  }

  function Highest(t: ColType): int {
    match t
    case I8 => 0x7F
    case U8 => 0xFF
    case I16 => 0x7FFF
    case U16 => 0xFFFF
    case I32 => 0x7FFF_FFFF
    case U32 => 0xFFFF_FFFF
    case _ => TWO_63 - 1
  }

  /** value_to_int64. */
  function ToInt<F>(x: FloatOut<F>, v: Value<F>): Option<Int64> {
    match v
    case VInt(i) => Some(i)
    case VFloat(f) => x.toInt(f)
    case VBool(b) => Some(if b then 1 else 0)
    case VTime(us) => Some(us)
    case _ => None
  }

  function IntText(i: int): string { if i < 0 then "-" + Padded(-i, 1) else Padded(i, 1) }

  /** The text of a value in a string column. Decimals, GUIDs and byte strings come out as
      no characters at all. */
  function ToText<F>(x: FloatOut<F>, v: Value<F>): Option<string> {
    match v
    case VStr(s) => Some(s)
    case VInt(i) => Some(IntText(i))
    case VFloat(f) => Some(x.text(f))
    case VBool(b) => Some(if b then "True" else "False")
    case VDate(days) => Some(FormatDate(days))
    case VTs(us) => Some(FormatTs(us))
    case VTime(us) => FormatTime(us)
    case _ => Some("")
  }

  /** What store_value makes of a value, as the reader should see it; None is the error. */
  function Coerced<F>(x: FloatOut<F>, t: ColType, v: Value<F>): Option<Value<F>> {
    if v.Null? then Some(Null)
    else if IsIntType(t) then
      match ToInt(x, v)
      case None => None
      case Some(i) => if Lowest(t) <= i <= Highest(t) then Some(VInt(i)) else None
    else
      match t
      case Bits =>
        if v.VBool? then Some(v)
        else if v.VInt? then Some(VBool(v.i != 0))
        else if v.VFloat? then Some(VBool(x.isNonzero(v.f)))
        else None
      case Date32 => if v.VDate? then Some(v) else None
      case TimestampUs =>
        if v.VTs? then Some(v)
        else if v.VDate? then (var days: int := v.days; Some(VTs(Wrap64(days * DAY_US))))
        else None
      case _ =>
        match ToText(x, v)
        case None => None
        case Some(s) => Some(VStr(s))
  }

  // ---------------------------------------------------------------- fixed-width buffers

  /** How an element of the type's buffer reads; signed and unsigned types of a width share
      one buffer, and a 64-bit unsigned value above the signed range reads negative. */
  function Modulus(t: ColType): int {
    match t
    case I8 => 0x100
    case U8 => 0x100
    case I16 => 0x1_0000
    case U16 => 0x1_0000
    case I32 => 0x1_0000_0000
    case U32 => 0x1_0000_0000
    case Date32 => 0x1_0000_0000
    case _ => TWO_64
  }

  predicate IsUnsigned(t: ColType) { t == U8 || t == U16 || t == U32 }

  /** The C cast to the buffer's signed element type. */
  function Narrowed(t: ColType, i: int): int {
    var w := Modulus(t);
    (i + w / 2) % w - w / 2
  }

  function Widened(t: ColType, raw: int): int { if IsUnsigned(t) then raw % Modulus(t) else raw }

  /** A value in the type's range survives its buffer, unsigned ones through the signed
      element type. */
  lemma BufferKeeps(t: ColType, i: int)
    requires (IsIntType(t) && Lowest(t) <= i <= Highest(t)) || (t == Date32 && IsInt32(i)) || (t == TimestampUs && IsInt64(i))
    ensures Widened(t, Narrowed(t, i)) == i
  {}

  // ---------------------------------------------------------------- bitmaps

  /** `1u << k`. */
  function Mask(k: nat): bv8
    requires k < 8
  {
    match k case 0 => 1 case 1 => 2 case 2 => 4 case 3 => 8 case 4 => 16 case 5 => 32 case 6 => 64 case _ => 128
  }

  predicate BitOf(b: bv8, k: nat)
    requires k < 8
  {
    b & Mask(k) != 0
  }

  lemma MasksDiffer(k: nat, j: nat)
    requires k < 8 && j < 8
    ensures if k == j then Mask(k) == Mask(j) else Mask(k) & Mask(j) == 0
    ensures Mask(k) != 0 && Mask(j) != 0
  {}

  lemma OrBit(b: bv8, p: bv8, q: bv8)
    requires q != 0 && (p == q || p & q == 0)
    ensures (b | p) & q != 0 <==> p == q || b & q != 0
  {}

  lemma AndNotBit(b: bv8, p: bv8, q: bv8)
    requires q != 0 && (p == q || p & q == 0)
    ensures (b & !p) & q != 0 <==> p != q && b & q != 0
    ensures 0xFF & q != 0 && 0 & q == 0
  {}

  lemma OrSets(b: bv8, k: nat, j: nat)
    requires k < 8 && j < 8
    ensures BitOf(b | Mask(k), j) <==> j == k || BitOf(b, j)
  {
    hide Mask;
    MasksDiffer(k, j);
    OrBit(b, Mask(k), Mask(j));
  }

  lemma AndNotClears(b: bv8, k: nat, j: nat)
    requires k < 8 && j < 8
    ensures BitOf(b & !Mask(k), j) <==> j != k && BitOf(b, j)
    ensures BitOf(0xFF, j) && !BitOf(0, j)
  {
    hide Mask;
    MasksDiffer(k, j);
    AndNotBit(b, Mask(k), Mask(j));
  }

  predicate BitAt(bytes: seq<bv8>, i: nat)
    requires i / 8 < |bytes|
  {
    BitOf(bytes[i / 8], i % 8)
  }

  function BytesFor(n: nat): nat { (n + 7) / 8 }

  lemma InBytes(i: nat, n: nat)
    requires i < n
    ensures i / 8 < BytesFor(n)
  {}

  /** The validity bitmap: all ones, then a zero for each null. */
  method PackValidity(nulls: array<bool>, n: nat) returns (bytes: seq<bv8>)
    requires n <= nulls.Length
    ensures |bytes| == BytesFor(n) && forall i :: 0 <= i < n ==> i / 8 < |bytes| && BitAt(bytes, i) == !nulls[i]
  {
    var bm := new bv8[BytesFor(n)](_ => 0xFF);
    assert forall k, j :: 0 <= k < bm.Length && 0 <= j < 8 ==> BitOf(bm[k], j) by {
      forall k, j | 0 <= k < bm.Length && 0 <= j < 8 ensures BitOf(bm[k], j) { AndNotClears(0xFF, j, j); }
    }
    for i := 0 to n
      invariant forall k, j :: 0 <= k < bm.Length && 0 <= j < 8 ==>
                  BitOf(bm[k], j) == !(k * 8 + j < i && nulls[k * 8 + j])
    {
      InBytes(i, n);
      if nulls[i] { ClearBit(bm, i); }
    }
    return bm[..];
  }

  method ClearBit(bm: array<bv8>, i: nat)
    requires i / 8 < bm.Length
    modifies bm
    ensures forall k, j :: 0 <= k < bm.Length && 0 <= j < 8 ==>
              BitOf(bm[k], j) == (k * 8 + j != i && BitOf(old(bm[k]), j))
  {
    forall j | 0 <= j < 8
      ensures BitOf(bm[i / 8] & !Mask(i % 8), j) == (j != i % 8 && BitOf(bm[i / 8], j))
    {
      AndNotClears(bm[i / 8], i % 8, j);
    }
    bm[i / 8] := bm[i / 8] & !Mask(i % 8);
    hide BitOf, Mask;
  }

  method SetBit(bm: array<bv8>, i: nat)
    requires i / 8 < bm.Length
    modifies bm
    ensures forall k, j :: 0 <= k < bm.Length && 0 <= j < 8 ==>
              BitOf(bm[k], j) == (k * 8 + j == i || BitOf(old(bm[k]), j))
  {
    forall j | 0 <= j < 8
      ensures BitOf(bm[i / 8] | Mask(i % 8), j) == (j == i % 8 || BitOf(bm[i / 8], j))
    {
      OrSets(bm[i / 8], i % 8, j);
    }
    bm[i / 8] := bm[i / 8] | Mask(i % 8);
    hide BitOf, Mask;
  }

  /** Booleans as a bitmap: all zeros, then a one for each true. */
  method PackBools(vals: array<bool>, n: nat) returns (bytes: seq<bv8>)
    requires n <= vals.Length
    ensures |bytes| == BytesFor(n) && forall i :: 0 <= i < n ==> i / 8 < |bytes| && BitAt(bytes, i) == vals[i]
  {
    var bm := new bv8[BytesFor(n)](_ => 0);
    assert forall k, j :: 0 <= k < bm.Length && 0 <= j < 8 ==> !BitOf(bm[k], j) by {
      forall k, j | 0 <= k < bm.Length && 0 <= j < 8 ensures !BitOf(bm[k], j) { AndNotClears(0, j, j); }
    }
    for i := 0 to n
      invariant forall k, j :: 0 <= k < bm.Length && 0 <= j < 8 ==>
                  BitOf(bm[k], j) == (k * 8 + j < i && vals[k * 8 + j])
    {
      InBytes(i, n);
      if vals[i] { SetBit(bm, i); }
    }
    return bm[..];
  }

  // ---------------------------------------------------------------- the leaf

  /** An Arrow array of one type. A leaf without nulls has no validity bitmap. */
  datatype Leaf = Leaf(
    length: nat,
    nullCount: nat,
    validity: Option<seq<bv8>>,
    ints: seq<int>,
    bits: seq<bv8>,
    offsets: seq<int>,
    data: string)

  predicate WellFormed(t: ColType, l: Leaf) {
    && (l.nullCount > 0 ==> l.validity.Some? && |l.validity.value| == BytesFor(l.length))
    && (t == Bits ==> |l.bits| == BytesFor(l.length))
    && (t == Utf8Text ==> |l.offsets| == l.length + 1)
    && (t != Bits && t != Utf8Text ==> |l.ints| >= l.length)
    && forall i :: 0 <= i < |l.ints| ==> IsInt64(Widened(t, l.ints[i])) && (t == Date32 ==> IsInt32(l.ints[i]))
  }

  /** read_col_cell, for a leaf read at offset zero. */
  function ReadCell<F>(t: ColType, l: Leaf, r: nat): Value<F>
    requires WellFormed(t, l) && r < l.length
  {
    InBytes(r, l.length);
    if l.nullCount > 0 && !BitAt(l.validity.value, r) then Null
    else
      match t
      case Bits => VBool(BitAt(l.bits, r))
      case Date32 => VDate(l.ints[r])
      case TimestampUs => VTs(l.ints[r])
      case Utf8Text =>
        if 0 <= l.offsets[r] <= l.offsets[r + 1] <= |l.data| then VStr(l.data[l.offsets[r]..l.offsets[r + 1]])
        else VStr("")
      case _ => VInt(Widened(t, l.ints[r]))
  }

  // ---------------------------------------------------------------- staging

  function IntOf<F>(v: Value<F>): int {
    match v case VInt(i) => i case VDate(days) => days case VTs(us) => us case _ => 0
  }

  /** The bytes appended for the first `r` rows. */
  function TextUpTo<F>(x: FloatOut<F>, vs: seq<Value<F>>, r: nat): string
    requires r <= |vs|
  {
    if r == 0 then ""
    else TextUpTo(x, vs, r - 1) + (if vs[r - 1].Null? || ToText(x, vs[r - 1]).None? then "" else ToText(x, vs[r - 1]).value)
  }

  lemma {:induction false} TextGrows<F>(x: FloatOut<F>, vs: seq<Value<F>>, r: nat, q: nat)
    requires r <= q <= |vs|
    ensures |TextUpTo(x, vs, r)| <= |TextUpTo(x, vs, q)| && TextUpTo(x, vs, q)[..|TextUpTo(x, vs, r)|] == TextUpTo(x, vs, r)
    decreases q - r
  {
    hide ToText;
    if r < q {
      TextGrows(x, vs, r, q - 1);
      TextStep(x, vs, q);
      hide TextUpTo;
    }
  }

  lemma TextStep<F>(x: FloatOut<F>, vs: seq<Value<F>>, q: nat)
    requires 0 < q <= |vs|
    ensures |TextUpTo(x, vs, q - 1)| <= |TextUpTo(x, vs, q)|
    ensures TextUpTo(x, vs, q)[..|TextUpTo(x, vs, q - 1)|] == TextUpTo(x, vs, q - 1)
  {
    hide ToText;
  }

  predicate IsNumeric(t: ColType) { t != Bits && t != Utf8Text }

  /** What the buffers of LmCol hold for row `i`. */
  predicate RowStaged<F>(x: FloatOut<F>, t: ColType, v: Value<F>, isNull: bool, raw: int, flag: bool)
  {
    && isNull == v.Null? && Coerced(x, t, v).Some?
    && (!isNull && IsNumeric(t) ==> raw == Narrowed(t, IntOf(Coerced(x, t, v).value)))
    && (!isNull && t == Bits ==> Coerced(x, t, v).value == VBool(flag))
  }

  predicate RawFits(t: ColType, raw: int) { IsInt64(Widened(t, raw)) && (t == Date32 ==> IsInt32(raw)) }

  lemma CoercedShape<F>(x: FloatOut<F>, t: ColType, v: Value<F>)
    requires !v.Null? && Coerced(x, t, v).Some?
    ensures var c := Coerced(x, t, v).value;
            && !c.Null?
            && (IsIntType(t) ==> c.VInt? && Lowest(t) <= c.i <= Highest(t))
            && (t == Bits ==> c.VBool?) && (t == Date32 ==> c.VDate?) && (t == TimestampUs ==> c.VTs?)
            && (t == Utf8Text ==> ToText(x, v).Some? && c == VStr(ToText(x, v).value))
  {
    hide ToText, ToInt, Lowest, Highest;
  }

  lemma NarrowedFits<F>(x: FloatOut<F>, t: ColType, v: Value<F>)
    requires !v.Null? && Coerced(x, t, v).Some? && IsNumeric(t)
    ensures RawFits(t, Narrowed(t, IntOf(Coerced(x, t, v).value)))
    ensures Widened(t, Narrowed(t, IntOf(Coerced(x, t, v).value))) == IntOf(Coerced(x, t, v).value)
  {
    CoercedShape(x, t, v);
    BufferKeeps(t, IntOf(Coerced(x, t, v).value));
    hide Coerced;
  }

  class LmCol<F> {
    const t: ColType
    const x: FloatOut<F>
    const nulls: array<bool>
    const ints: array<int>
    const bools: array<bool>
    const offsets: array<int>
    var data: string

    /** lm_col_init: every buffer starts out zero. */
    constructor (x: FloatOut<F>, t: ColType, n: nat)
      ensures this.x == x && this.t == t && fresh(nulls) && fresh(ints) && fresh(bools) && fresh(offsets)
      ensures nulls.Length == ints.Length == bools.Length == n && offsets.Length == n + 1
      ensures Staged([], n)
    {
      this.x, this.t, data := x, t, "";
      nulls := new bool[n](_ => false);
      ints := new int[n](_ => 0);
      bools := new bool[n](_ => false);
      offsets := new int[n + 1](_ => 0);
    }

    ghost predicate Separate() { nulls != bools && ints != offsets }

    ghost predicate Sized(n: nat) {
      Separate() && nulls.Length == ints.Length == bools.Length == n && offsets.Length == n + 1
    }

    ghost predicate RowsStaged(vs: seq<Value<F>>)
      requires Sized(nulls.Length)
      reads nulls, ints, bools
    {
      && |vs| <= nulls.Length
      && (forall i :: 0 <= i < |vs| ==> RowStaged(x, t, vs[i], nulls[i], ints[i], bools[i]))
      && (forall i :: |vs| <= i < nulls.Length ==> !nulls[i])
    }

    ghost predicate RawsFit()
      reads ints
    {
      forall i :: 0 <= i < ints.Length ==> RawFits(t, ints[i])
    }

    ghost predicate TextStaged(vs: seq<Value<F>>)
      reads this, offsets
    {
      t == Utf8Text ==>
        && data == TextUpTo(x, vs, |vs|) && |vs| < offsets.Length
        && forall i :: 0 <= i <= |vs| ==> offsets[i] == Wrap32(|TextUpTo(x, vs, i)|)
    }

    /** The first rows hold `vs`, the others are untouched. */
    ghost predicate Staged(vs: seq<Value<F>>, n: nat)
      reads this, nulls, ints, bools, offsets
    {
      Sized(n) && RowsStaged(vs) && RawsFit() && TextStaged(vs)
    }

    /** The next text offset is where the bytes now end. */
    method MarkEnd(r: nat, v: Value<F>, ghost vs: seq<Value<F>>)
      requires t == Utf8Text && r == |vs| < offsets.Length - 1
      requires forall i :: 0 <= i <= |vs| ==> offsets[i] == Wrap32(|TextUpTo(x, vs, i)|)
      requires data == TextUpTo(x, vs + [v], |vs| + 1)
      modifies offsets
      ensures TextStaged(vs + [v])
    {
      TextAfter(x, vs, v);
      offsets[r + 1] := Wrap32(|data|);
      hide TextUpTo, Wrap32;
    }

    lemma RowsGrow(vs: seq<Value<F>>, v: Value<F>)
      requires Sized(nulls.Length) && RowsStaged(vs) && |vs| < nulls.Length
      requires RowStaged(x, t, v, nulls[|vs|], ints[|vs|], bools[|vs|])
      ensures RowsStaged(vs + [v])
    {
      hide RowStaged;
    }

    method MarkNull(r: nat, ghost vs: seq<Value<F>>)
      requires Sized(nulls.Length) && RowsStaged(vs) && r == |vs| < nulls.Length
      modifies nulls
      ensures RowsStaged(vs + [Null])
    {
      NullCoerces(x, t);
      hide Coerced, Narrowed;
      nulls[r] := true;
    }

    /** The null branch of the row loop. */
    method StoreNull(r: nat, ghost vs: seq<Value<F>>)
      requires Staged(vs, nulls.Length) && r == |vs| < nulls.Length
      modifies nulls, offsets
      ensures Staged(vs + [Null], nulls.Length)
    {
      TextAfter(x, vs, Null);
      assert TextUpTo(x, vs, |vs|) + "" == TextUpTo(x, vs, |vs|);
      hide RowsStaged, RawFits, TextUpTo, Wrap32;
      MarkNull(r, vs);
      if t == Utf8Text { MarkEnd(r, Null, vs); }
    }

    method StoreInt(r: nat, v: Value<F>, ghost vs: seq<Value<F>>)
      requires Staged(vs, nulls.Length) && r == |vs| < nulls.Length && !v.Null?
      requires IsNumeric(t) && Coerced(x, t, v).Some?
      modifies ints
      ensures Staged(vs + [v], nulls.Length)
    {
      NarrowedFits(x, t, v);
      hide Coerced, TextUpTo, RawFits, Narrowed;
      ints[r] := Narrowed(t, IntOf(Coerced(x, t, v).value));
    }

    method StoreBool(r: nat, v: Value<F>, ghost vs: seq<Value<F>>)
      requires Staged(vs, nulls.Length) && r == |vs| < nulls.Length && !v.Null?
      requires t == Bits && Coerced(x, t, v).Some?
      modifies bools
      ensures Staged(vs + [v], nulls.Length)
    {
      CoercedShape(x, t, v);
      hide Coerced, TextUpTo, RawFits, Narrowed;
      bools[r] := Coerced(x, t, v).value.b;
    }

    method StoreText(r: nat, v: Value<F>, ghost vs: seq<Value<F>>)
      requires Staged(vs, nulls.Length) && r == |vs| < nulls.Length && !v.Null?
      requires t == Utf8Text && Coerced(x, t, v).Some?
      modifies this`data, offsets
      ensures Staged(vs + [v], nulls.Length)
    {
      CoercedShape(x, t, v);
      TextAfter(x, vs, v);
      assert RowStaged(x, t, v, nulls[r], ints[r], bools[r]);
      RowsGrow(vs, v);
      hide Coerced, TextUpTo, RawsFit, RowsStaged, Wrap32, ToText;
      data := data + ToText(x, v).value;
      MarkEnd(r, v, vs);
    }

    /** store_value. */
    method Store(r: nat, v: Value<F>, ghost vs: seq<Value<F>>) returns (ok: bool)
      requires Staged(vs, nulls.Length) && r == |vs| < nulls.Length && !v.Null?
      modifies this`data, ints, bools, offsets
      ensures ok == Coerced(x, t, v).Some?
      ensures ok ==> Staged(vs + [v], nulls.Length)
    {
      hide Coerced, RowsStaged, RawsFit, TextStaged;
      if Coerced(x, t, v) == None { return false; }
      if IsNumeric(t) {
        StoreInt(r, v, vs);
      } else if t == Bits {
        StoreBool(r, v, vs);
      } else {
        StoreText(r, v, vs);
      }
      return true;
    }

    /** One turn of the row loop; a row that failed to evaluate is None. */
    method StoreRow(r: nat, row: Option<Value<F>>, ghost vs: seq<Value<F>>) returns (ok: bool)
      requires Staged(vs, nulls.Length) && r == |vs| < nulls.Length
      modifies this`data, nulls, ints, bools, offsets
      ensures ok <==> row.Some? && Coerced(x, t, row.value).Some?
      ensures ok ==> Staged(vs + [row.value], nulls.Length)
    {
      hide *;
      if row == None { return false; }
      if row.value.Null? {
        StoreNull(r, vs);
        NullCoerces(x, t);
        return true;
      }
      ok := Store(r, row.value, vs);
    }

    /** The offset smoothing of lm_col_finalize; rising offsets stay as they are. */
    method Smooth(n: nat)
      requires offsets.Length == n + 1
      modifies offsets
      ensures Rising(old(offsets[..])) ==> offsets[..] == old(offsets[..])
    {
      var last := 0;
      ghost var start := offsets[..];
      for i := 1 to n + 1
        invariant Rising(start) ==> offsets[..] == start && last <= (if i == 1 then 0 else start[i - 1])
      {
        if offsets[i] < last { offsets[i] := last; } else { last := offsets[i]; }
      }
    }

    /** lm_col_finalize. */
    method Finalize(n: nat) returns (l: Leaf)
      requires Separate() && nulls.Length == ints.Length == bools.Length == n && offsets.Length == n + 1
      requires forall i :: 0 <= i < n ==> RawFits(t, ints[i])
      modifies offsets
      ensures WellFormed(t, l) && l.length == n
      ensures forall i :: 0 <= i < n ==> IsNullIn(l, i) == nulls[i]
      ensures IsNumeric(t) ==> l.ints == ints[..]
      ensures t == Bits ==> forall i :: 0 <= i < n ==> i / 8 < |l.bits| && BitAt(l.bits, i) == bools[i]
      ensures t == Utf8Text ==> l.data == data && (Rising(old(offsets[..])) ==> l.offsets == old(offsets[..]))
    {
      var count := 0;
      for i := 0 to n
        invariant count >= 0 && (count == 0 <==> forall k :: 0 <= k < i ==> !nulls[k])
      {
        if nulls[i] { count := count + 1; }
      }
      var validity: Option<seq<bv8>> := None;
      if count > 0 {
        var v := PackValidity(nulls, n);
        validity := Some(v);
      }
      var bits: seq<bv8> := [];
      if t == Bits { bits := PackBools(bools, n); }
      if t == Utf8Text { Smooth(n); }
      l := Leaf(n, count, validity, if IsNumeric(t) then ints[..] else [], bits,
                if t == Utf8Text then offsets[..] else [], if t == Utf8Text then data else "");
      hide BitAt, Widened, RawFits;
      FinalizedFits(t, l);
    }
  }

  predicate Rising(s: seq<int>) { forall i, j :: 0 <= i <= j < |s| ==> 0 <= s[i] <= s[j] }

  /** How a reader of the leaf decides that a row is null. */
  predicate IsNullIn(l: Leaf, r: nat) {
    l.nullCount > 0 && l.validity.Some? && r / 8 < |l.validity.value| && !BitAt(l.validity.value, r)
  }

  lemma FinalizedFits(t: ColType, l: Leaf)
    requires forall i :: 0 <= i < |l.ints| ==> RawFits(t, l.ints[i])
    ensures forall i :: 0 <= i < |l.ints| ==> IsInt64(Widened(t, l.ints[i])) && (t == Date32 ==> IsInt32(l.ints[i]))
  {}

  lemma TextAfter<F>(x: FloatOut<F>, vs: seq<Value<F>>, v: Value<F>)
    ensures forall i :: 0 <= i <= |vs| ==> TextUpTo(x, vs + [v], i) == TextUpTo(x, vs, i)
    ensures TextUpTo(x, vs + [v], |vs| + 1)
         == TextUpTo(x, vs, |vs|) + (if v.Null? || ToText(x, v).None? then "" else ToText(x, v).value)
  {
    forall i | 0 <= i <= |vs| ensures TextUpTo(x, vs + [v], i) == TextUpTo(x, vs, i) { TextPrefix(x, vs, v, i); }
  }

  lemma {:induction false} TextPrefix<F>(x: FloatOut<F>, vs: seq<Value<F>>, v: Value<F>, i: nat)
    requires i <= |vs|
    ensures TextUpTo(x, vs + [v], i) == TextUpTo(x, vs, i)
    decreases i
  {
    if i > 0 { TextPrefix(x, vs, v, i - 1); }
  }

  // ---------------------------------------------------------------- a whole column

  /** Text of all rows stays within what 32-bit offsets can name. */
  predicate TextFits<F>(x: FloatOut<F>, t: ColType, vs: seq<Value<F>>) {
    t == Utf8Text ==> |TextUpTo(x, vs, |vs|)| < 0x8000_0000
  }

  /** Offsets of text that fits rise, and cut out each row's bytes. */
  lemma OffsetsRise<F>(x: FloatOut<F>, vs: seq<Value<F>>, offsets: seq<int>)
    requires |offsets| == |vs| + 1 && TextFits(x, Utf8Text, vs)
    requires forall i :: 0 <= i <= |vs| ==> offsets[i] == Wrap32(|TextUpTo(x, vs, i)|)
    ensures Rising(offsets) && forall i :: 0 <= i <= |vs| ==> offsets[i] == |TextUpTo(x, vs, i)|
  {
    forall i | 0 <= i <= |vs| ensures offsets[i] == |TextUpTo(x, vs, i)| { TextGrows(x, vs, i, |vs|); }
    hide TextUpTo, Wrap32;
    forall i, j | 0 <= i <= j < |offsets| ensures 0 <= offsets[i] <= offsets[j] { TextGrows(x, vs, i, j); }
  }

  lemma RowText<F>(x: FloatOut<F>, vs: seq<Value<F>>, r: nat)
    requires r < |vs| && !vs[r].Null? && ToText(x, vs[r]).Some?
    ensures |TextUpTo(x, vs, r)| <= |TextUpTo(x, vs, r + 1)| <= |TextUpTo(x, vs, |vs|)|
    ensures TextUpTo(x, vs, |vs|)[|TextUpTo(x, vs, r)|..|TextUpTo(x, vs, r + 1)|] == ToText(x, vs[r]).value
  {
    TextGrows(x, vs, r + 1, |vs|);
    var all, upto := TextUpTo(x, vs, |vs|), TextUpTo(x, vs, r + 1);
    assert upto == TextUpTo(x, vs, r) + ToText(x, vs[r]).value;
    hide TextUpTo, ToText;
    assert all[|TextUpTo(x, vs, r)|..|upto|] == all[..|upto|][|TextUpTo(x, vs, r)|..];
  }

  /** A row staged and finalized reads back as what it was coerced to. */
  lemma RowReadsBack<F>(x: FloatOut<F>, t: ColType, vs: seq<Value<F>>, r: nat, raw: int, flag: bool, l: Leaf)
    requires r < |vs| && RowStaged(x, t, vs[r], vs[r].Null?, raw, flag)
    requires WellFormed(t, l) && l.length == |vs| && IsNullIn(l, r) == vs[r].Null?
    requires IsNumeric(t) ==> l.ints[r] == raw
    requires t == Bits ==> r / 8 < |l.bits| && BitAt(l.bits, r) == flag
    requires t == Utf8Text ==> TextFits(x, t, vs) && l.data == TextUpTo(x, vs, |vs|)
    requires t == Utf8Text ==> l.offsets[r] == |TextUpTo(x, vs, r)| && l.offsets[r + 1] == |TextUpTo(x, vs, r + 1)|
    ensures Coerced(x, t, vs[r]) == Some(ReadCell(t, l, r))
  {
    InBytes(r, l.length);
    if !vs[r].Null? {
      CoercedShape(x, t, vs[r]);
      if IsNumeric(t) { NarrowedFits(x, t, vs[r]); }
      if t == Utf8Text { RowText(x, vs, r); }
      DateNarrow(t);
      hide Coerced, BitAt, TextUpTo, Narrowed, Widened;
    } else {
      hide BitAt, TextUpTo, Narrowed, Widened;
    }
  }

  lemma DateNarrow(t: ColType)
    ensures t == Date32 || t == TimestampUs ==> forall raw :: Widened(t, raw) == raw
  {}

  /** The row loop of ssisexpr_evaluate, then the leaf. `rows` holds what each row evaluated
      to, None being an error. The batch fails exactly when some row fails to evaluate or
      cannot be coerced; otherwise every cell of the leaf reads as the row's coerced value. */
  method BuildColumn<F>(x: FloatOut<F>, t: ColType, rows: seq<Option<Value<F>>>) returns (leaf: Option<Leaf>)
    ensures leaf.None? <==> exists i :: 0 <= i < |rows| && (rows[i].None? || Coerced(x, t, rows[i].value).None?)
    ensures leaf.Some? ==> leaf.value.length == |rows| && WellFormed(t, leaf.value) && forall i :: 0 <= i < |rows| ==> rows[i].Some?
    ensures leaf.Some? && |leaf.value.data| < 0x8000_0000 ==>
              forall i :: 0 <= i < |rows| ==> Coerced(x, t, rows[i].value) == Some(ReadCell(t, leaf.value, i))
  {
    var n := |rows|;
    var col := new LmCol(x, t, n);
    ghost var vs: seq<Value<F>> := [];
    hide *;
    for r := 0 to n
      invariant |vs| == r && col.Staged(vs, n) && col.t == t && col.x == x && col.nulls.Length == n
      invariant fresh(col) && fresh(col.nulls) && fresh(col.ints) && fresh(col.bools) && fresh(col.offsets)
      invariant forall i :: 0 <= i < r ==> rows[i] == Some(vs[i]) && Coerced(x, t, vs[i]).Some?
    {
      var ok := col.StoreRow(r, rows[r], vs);
      if !ok { return None; }
      vs := vs + [rows[r].value];
    }
    leaf := FinishColumn(col, vs);
  }

  lemma NullCoerces<F>(x: FloatOut<F>, t: ColType)
    ensures Coerced(x, t, Null) == Some(Null)
  {}

  method FinishColumn<F>(col: LmCol<F>, ghost vs: seq<Value<F>>) returns (leaf: Option<Leaf>)
    requires col.Staged(vs, |vs|)
    modifies col.offsets
    ensures leaf.Some? && leaf.value.length == |vs| && WellFormed(col.t, leaf.value)
    ensures |leaf.value.data| < 0x8000_0000 ==>
              forall i :: 0 <= i < |vs| ==> Coerced(col.x, col.t, vs[i]) == Some(ReadCell(col.t, leaf.value, i))
  {
    hide Coerced, RawFits, TextUpTo, RowStaged, BitAt, ReadCell;
    ghost var offsets := col.offsets[..];
    var l := col.Finalize(col.nulls.Length);
    leaf := Some(l);
    if TextFits(col.x, col.t, vs) {
      if col.t == Utf8Text { OffsetsRise(col.x, vs, offsets); }
      forall i | 0 <= i < |vs|
        ensures Coerced(col.x, col.t, vs[i]) == Some(ReadCell(col.t, l, i))
      {
        NullFlag(col.x, col.t, vs[i], col.nulls[i], col.ints[i], col.bools[i]);
        RowReadsBack(col.x, col.t, vs, i, col.ints[i], col.bools[i], l);
      }
    }
  }

  lemma NullFlag<F>(x: FloatOut<F>, t: ColType, v: Value<F>, isNull: bool, raw: int, flag: bool)
    requires RowStaged(x, t, v, isNull, raw, flag)
    ensures isNull == v.Null?
  {}
}
