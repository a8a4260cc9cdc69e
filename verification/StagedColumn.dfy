/**
 The growable output column of the .NET provider (providers/betl-dotnet/dotnet_provider.c) as it
 is updated in place. Each method is proved against its function on the column's contents.
 */
module StagedColumn {
  import opened Text
  import Staging

  class OutCol {
    const kind: Staging.Kind
    var n: nat
    var cap: nat
    var nulls: array<bool>
    var vals: array<Option<int>>
    var offsets: array<Option<nat>>
    var data: string

    ghost function View(): Staging.Col
      reads this, nulls, vals, offsets
    {
      Staging.Col(kind, n, cap, nulls[..], vals[..], offsets[..], data)
    }

    ghost predicate Valid()
      reads this, nulls, vals, offsets
    {
      Staging.Shaped(View()) && vals != offsets && (kind != Staging.Fixed ==> vals.Length == 0) && (kind == Staging.Fixed ==> offsets.Length == 0)
    }

    constructor (kind: Staging.Kind)
      ensures Valid() && View() == Staging.NewCol(kind) && fresh(nulls) && fresh(vals) && fresh(offsets)
    {
      this.kind := kind;
      n, cap, data := 0, 0, "";
      nulls := new bool[0];
      vals := new Option<int>[0];
      offsets := new Option<nat>[0];
      new;
      assert nulls[..] == [] && vals[..] == [] && offsets[..] == [];
    }

    /** ds_out_reserve. */
    method Reserve(want: nat)
      requires Valid()
      modifies this
      ensures Valid() && View() == Staging.Reserve(old(View()), want)
      ensures nulls == old(nulls) || fresh(nulls)
      ensures vals == old(vals) || fresh(vals)
      ensures offsets == old(offsets) || fresh(offsets)
    {
      if want <= cap { return; }
      var nc := if cap > 0 then cap else 64;
      ghost var start := nc;
      while nc < want
        invariant nc >= start > 0 && Staging.Doubled(start, want) == Staging.Doubled(nc, want)
        decreases want - nc
      {
        nc := nc * 2;
      }
      ghost var before := View();
      nulls := GrownFlags(nulls, nc);
      if kind == Staging.Fixed {
        vals := GrownBuffer(vals, nc);
      } else {
        offsets := GrownBuffer(offsets, nc + 1);
        if cap == 0 { offsets[0] := Some(0); }
      }
      cap := nc;
      assert kind != Staging.Fixed ==> offsets[..] == Staging.GrownOffsets(before.offsets, nc + 1);
      assert View() == Staging.Reserve(before, want);
    }

    /** emit_set_int64; the other fixed-width setters differ in the buffer's type only. */
    method SetInt(v: int)
      requires Valid() && kind == Staging.Fixed
      modifies this, nulls, vals, offsets
      ensures Valid() && View() == Staging.PutInt(old(View()), v)
      ensures Kept(old(nulls), old(vals), old(offsets))
    {
      hide Staging.Reserve;
      ghost var before := View();
      Reserve(n + 1);
      vals[n] := Some(v);
      assert View() == Staging.PutInt(before, v);
    }

    /** emit_set_utf8. */
    method SetBytes(s: string)
      requires Valid() && kind != Staging.Fixed
      modifies this, nulls, vals, offsets
      ensures Valid() && View() == Staging.PutBytes(old(View()), s)
      ensures Kept(old(nulls), old(vals), old(offsets))
    {
      hide Staging.Reserve;
      ghost var before := View();
      Reserve(n + 1);
      data := data + s;
      offsets[n + 1] := Some(|data|);
      assert View() == Staging.PutBytes(before, s);
    }

    /** emit_set_null. */
    method SetNull()
      requires Valid()
      modifies this, nulls, vals, offsets
      ensures Valid() && View() == Staging.PutNull(old(View()))
      ensures Kept(old(nulls), old(vals), old(offsets))
    {
      hide Staging.Reserve;
      ghost var before := View();
      Reserve(n + 1);
      nulls[n] := true;
      if kind == Staging.Utf8 { offsets[n + 1] := Some(|data|); }
      assert View() == Staging.PutNull(before);
    }

    /** Committing the row. */
    method Advance()
      requires Valid() && n < cap
      modifies this`n
      ensures Valid() && View() == Staging.Advance(old(View()))
    {
      n := n + 1;
    }

    /** What dpc_copy_cell takes from a row of this column. */
    method ReadRow(i: nat) returns (isNull: bool, v: Option<int>, piece: string)
      requires Valid() && i < cap
      ensures isNull == nulls[i]
      ensures kind == Staging.Fixed ==> v == vals[i]
      ensures kind != Staging.Fixed ==> piece == Staging.Piece(View(), i)
    {
      isNull, v, piece := nulls[i], None, "";
      if kind == Staging.Fixed {
        v := vals[i];
      } else {
        var lo, hi := offsets[i], offsets[i + 1];
        if lo.Some? && hi.Some? && lo.value <= hi.value { piece := data[lo.value..hi.value]; }
      }
    }

    /** What it does with it at the next row of this one. */
    method WriteRow(isNull: bool, v: Option<int>, piece: string)
      requires Valid() && n < cap
      modifies this`data, nulls, vals, offsets
      ensures Valid() && View() == WithRow(old(View()), isNull, v, piece)
    {
      ghost var before := View();
      nulls[n] := isNull;
      if kind == Staging.Fixed {
        vals[n] := v;
      } else if kind == Staging.Utf8 {
        data := data + piece;
        offsets[n + 1] := Some(|data|);
      }
      assert nulls[..] == before.nulls[before.n := isNull];
    }

    /** dpc_copy_cell, into this column's next row. */
    method CopyFrom(src: OutCol, i: nat)
      requires Valid() && src.Valid() && i < src.cap && src.kind == kind
      modifies this, nulls, vals, offsets
      ensures Valid() && View() == Staging.CopyCell(old(src.View()), i, old(View()))
      ensures Kept(old(nulls), old(vals), old(offsets))
    {
      ghost var before, source := View(), src.View();
      assert Staging.Shaped(before) && Staging.Shaped(source);
      hide Staging.CopyCell, Staging.Reserve, Staging.Shaped, Staging.Piece, WithRow;
      var isNull, v, piece := src.ReadRow(i);
      Reserve(n + 1);
      WriteRow(isNull, v, piece);
      CopyIs(source, i, before, isNull, v, piece);
    }

    /** Every buffer is the one it was or newly allocated. */
    twostate predicate Kept(nulls0: array<bool>, vals0: array<Option<int>>, offsets0: array<Option<nat>>)
      reads this
    {
      && (nulls == nulls0 || fresh(nulls)) && (vals == vals0 || fresh(vals)) && (offsets == offsets0 || fresh(offsets))
    }
  }

  /** A column with its next row written as dpc_copy_cell writes it. */
  function WithRow(c: Staging.Col, isNull: bool, v: Option<int>, piece: string): Staging.Col
    requires Staging.Shaped(c) && c.n < c.cap
  {
    c.(nulls := c.nulls[c.n := isNull],
       vals := if c.kind == Staging.Fixed then c.vals[c.n := v] else c.vals,
       data := if c.kind == Staging.Utf8 then c.data + piece else c.data,
       offsets := if c.kind == Staging.Utf8 then c.offsets[c.n + 1 := Some(|c.data + piece|)] else c.offsets)
  }

  lemma CopyIs(src: Staging.Col, i: nat, dst: Staging.Col, isNull: bool, v: Option<int>, piece: string)
    requires Staging.Shaped(src) && Staging.Shaped(dst) && i < src.cap && src.kind == dst.kind && isNull == src.nulls[i]
    requires src.kind == Staging.Fixed ==> v == src.vals[i]
    requires src.kind != Staging.Fixed ==> piece == Staging.Piece(src, i)
    ensures WithRow(Staging.Reserve(dst, dst.n + 1), isNull, v, piece) == Staging.CopyCell(src, i, dst)
  {
    hide Staging.Reserve;
  }

  /** realloc, then memset of the new part. */
  method GrownFlags(a: array<bool>, len: nat) returns (b: array<bool>)
    requires a.Length <= len
    ensures fresh(b) && b[..] == Staging.Grown(a[..], len, false)
  {
    b := new bool[len](_ => false);
    for i := 0 to a.Length
      invariant b[..i] == a[..i] && forall k :: i <= k < len ==> !b[k]
    {
      b[i] := a[i];
      assert b[..i + 1] == b[..i] + [a[i]];
    }
    assert b[..] == Staging.Grown(a[..], len, false);
  }

  /** realloc: the old elements survive, the new part is undefined. */
  method GrownBuffer<T(==)>(a: array<Option<T>>, len: nat) returns (b: array<Option<T>>)
    requires a.Length <= len
    ensures fresh(b) && b[..] == Staging.Grown(a[..], len, None)
  {
    b := new Option<T>[len](_ => None);
    for i := 0 to a.Length
      invariant b[..i] == a[..i] && forall k :: i <= k < len ==> b[k] == None
    {
      b[i] := a[i];
      assert b[..i + 1] == b[..i] + [a[i]];
    }
    assert b[..] == Staging.Grown(a[..], len, None);
  }
}
