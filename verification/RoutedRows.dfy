/**
 What both outputs hold under any calls whatever of user code, tags and repeated setters
 included, in columns of numbers and text: each cell is told by a slot that collects what is
 written to it until its row is committed to the main output. A tagged row leaves the slots
 as they are, and a copy of them with its code and column in the error output.
 */
module RoutedRows {
  import opened Text
  import opened Staging
  import opened Ports
  import opened PortsTheorems
  import opened StagedRows
  import opened StagedLeaves

  /** What was written to a cell: whether a null was among it, the last number, all text. */
  datatype Slot = Slot(nulled: bool, last: Option<int>, bytes: string)

  const FRESH := Slot(false, None, "")

  function After(s: Slot, x: Option<Cell>): Slot {
    match x
    case None => s.(nulled := true)
    case Some(IntCell(i)) => s.(last := Some(i))
    case Some(BytesCell(b)) => s.(bytes := s.bytes + b)
  }

  /** What a reader sees of it: null once null, else the last number or all the text. */
  function Seen(kind: Kind, s: Slot): Read {
    if s.nulled then Null
    else if kind != Fixed then Value(BytesCell(s.bytes))
    else if s.last.Some? then Value(IntCell(s.last.value))
    else Undefined
  }

  /** A cell written once is seen as written. */
  lemma OnceIsSeen(kind: Kind, x: Option<Cell>)
    requires FitsKind(x, kind)
    ensures Seen(kind, After(FRESH, x)) == ReadOf(x)
  {
    if x.Some? && x.value.BytesCell? { assert "" + x.value.s == x.value.s; }
  }

  predicate Plain(kind: Kind) { kind == Fixed || kind == Utf8 }

  // ---------------------------------------------------------------- one column

  function TextTo(rows: seq<Slot>, r: nat): string
    requires r <= |rows|
  {
    if r == 0 then "" else TextTo(rows, r - 1) + rows[r - 1].bytes
  }

  predicate RowIn(c: Col, rows: seq<Slot>, r: nat)
    requires Shaped(c) && r < |rows| <= c.cap
  {
    && c.nulls[r] == rows[r].nulled && (c.kind == Fixed ==> c.vals[r] == rows[r].last)
    && (c.kind == Utf8 ==> c.offsets[r + 1] == Some(|TextTo(rows, r + 1)|))
  }

  /** The next row's slot; `ended` says that its end is recorded. */
  predicate OpenIn(c: Col, open: Slot, ended: bool)
    requires Shaped(c)
  {
    if c.n == c.cap then open == FRESH && !ended
    else
      && c.nulls[c.n] == open.nulled && (c.kind == Fixed ==> c.vals[c.n] == open.last)
      && (c.kind == Utf8 && ended ==> c.offsets[c.n + 1] == Some(|c.data|))
  }

  predicate Untouched(c: Col, from: nat)
    requires Shaped(c)
  {
    forall r :: from <= r < c.cap ==> !c.nulls[r] && (c.kind == Fixed ==> c.vals[r] == None)
  }

  predicate RowsCommitted(c: Col, rows: seq<Slot>)
    requires Shaped(c)
  {
    |rows| <= c.cap && forall r :: 0 <= r < |rows| ==> RowIn(c, rows, r)
  }

  /** The buffers hold the committed rows and the open slot, and nothing behind it. */
  predicate SlotIn(c: Col, rows: seq<Slot>, open: Slot, ended: bool) {
    && Shaped(c) && Plain(c.kind) && c.n == |rows| && RowsCommitted(c, rows)
    && OpenIn(c, open, ended) && Untouched(c, c.n + 1)
    && (c.kind == Utf8 ==> c.data == TextTo(rows, |rows|) + open.bytes)
  }

  lemma NewHoldsNothing(kind: Kind)
    requires Plain(kind)
    ensures SlotIn(NewCol(kind), [], FRESH, false)
  {}

  lemma ReserveKeepsSlot(c: Col, rows: seq<Slot>, open: Slot, ended: bool, want: nat)
    requires SlotIn(c, rows, open, ended)
    ensures SlotIn(Reserve(c, want), rows, open, ended)
  {
    if want > c.cap {
      GrownKeeps(c, rows, want);
      GrownOpens(c, want);
      hide Reserve, TextTo, RowsCommitted, Untouched;
    }
  }

  lemma GrownKeeps(c: Col, rows: seq<Slot>, want: nat)
    requires Shaped(c) && Plain(c.kind) && c.n == |rows| && RowsCommitted(c, rows) && want > c.cap
    ensures RowsCommitted(Reserve(c, want), rows)
  {
    var g := Reserve(c, want);
    assert forall r :: 0 <= r < c.cap ==> g.nulls[r] == g.nulls[..c.cap][r];
    if c.kind == Fixed { assert forall r :: 0 <= r < c.cap ==> g.vals[r] == g.vals[..c.cap][r]; }
    hide Doubled, Grown, TextTo;
    assert forall r :: 0 <= r < |rows| && RowIn(c, rows, r) ==> RowIn(g, rows, r);
  }

  /** The open slot and what is behind it. */
  lemma GrownOpens(c: Col, want: nat)
    requires Shaped(c) && Plain(c.kind) && Untouched(c, c.n + 1) && want > c.cap
    ensures var g := Reserve(c, want);
            && g.cap > c.n && Untouched(g, c.n + 1)
            && (c.n < c.cap ==> g.nulls[c.n] == c.nulls[c.n]) && (c.n == c.cap ==> !g.nulls[c.n])
            && (c.kind == Fixed ==> g.vals[c.n] == if c.n < c.cap then c.vals[c.n] else None)
            && (c.kind == Utf8 && c.n < c.cap ==> g.offsets[c.n + 1] == c.offsets[c.n + 1])
  {
    var g := Reserve(c, want);
    assert forall r :: 0 <= r < c.cap ==> g.nulls[r] == g.nulls[..c.cap][r];
    if c.kind == Fixed { assert forall r :: 0 <= r < c.cap ==> g.vals[r] == g.vals[..c.cap][r]; }
    hide Doubled, Grown;
  }

  lemma PutSlot(c: Col, rows: seq<Slot>, open: Slot, ended: bool, x: Option<Cell>)
    requires SlotIn(c, rows, open, ended) && FitsKind(x, c.kind)
    ensures SlotIn(Put(c, x), rows, After(open, x), true)
  {
    ReserveKeepsSlot(c, rows, open, ended, c.n + 1);
    PutIsIn(c, x);
    var g := Reserve(c, c.n + 1);
    hide Reserve, Put, SlotIn;
    PutInSlot(g, rows, open, ended, x);
  }

  lemma PutInSlot(g: Col, rows: seq<Slot>, open: Slot, ended: bool, x: Option<Cell>)
    requires SlotIn(g, rows, open, ended) && g.n < g.cap && FitsKind(x, g.kind)
    ensures SlotIn(PutIn(g, x), rows, After(open, x), true)
  {
    var r := PutIn(g, x);
    assert |g.data| <= |r.data|;
    assert TextTo(rows, |rows|) + open.bytes + BytesOf(x) == TextTo(rows, |rows|) + (open.bytes + BytesOf(x));
    assert open.bytes + "" == open.bytes;
    hide TextTo;
    assert forall k :: 0 <= k < |rows| && RowIn(g, rows, k) ==> RowIn(r, rows, k);
  }

  lemma {:induction false} TextPrefix(rows: seq<Slot>, more: seq<Slot>, r: nat)
    requires r <= |rows|
    ensures TextTo(rows + more, r) == TextTo(rows, r)
  {
    if r > 0 { TextPrefix(rows, more, r - 1); }
  }

  lemma AdvanceSlot(c: Col, rows: seq<Slot>, open: Slot)
    requires SlotIn(c, rows, open, true)
    ensures Shaped(c) && c.n < c.cap && SlotIn(Advance(c), rows + [open], FRESH, false)
  {
    var d, all := Advance(c), rows + [open];
    forall r | 0 <= r < |all| ensures RowIn(d, all, r) {
      TextPrefix(rows, [open], if r < |rows| then r + 1 else r);
      if r < |rows| { assert RowIn(c, rows, r); }
    }
    TextPrefix(rows, [open], |rows|);
    assert TextTo(all, |all|) + "" == TextTo(all, |all|);
    hide TextTo;
  }

  /** The bytes of the open slot. */
  lemma PieceOfSlot(c: Col, rows: seq<Slot>, open: Slot)
    requires SlotIn(c, rows, open, true) && c.kind == Utf8
    ensures c.n < c.cap && Piece(c, c.n) == open.bytes
  {
    if |rows| > 0 { assert RowIn(c, rows, |rows| - 1); }
    assert c.data[|TextTo(rows, |rows|)|..] == open.bytes;
  }

  /** A copy of a slot in a column with room. */
  function CopyIn(g: Col, open: Slot): Col
    requires Shaped(g) && Plain(g.kind) && g.n < g.cap
  {
    var data := if g.kind == Utf8 then g.data + open.bytes else g.data;
    g.(nulls := g.nulls[g.n := open.nulled],
       vals := if g.kind == Fixed then g.vals[g.n := open.last] else g.vals,
       offsets := if g.kind == Utf8 then g.offsets[g.n + 1 := Some(|data|)] else g.offsets,
       data := data)
  }

  lemma CopyIsIn(src: Col, rows: seq<Slot>, open: Slot, dst: Col)
    requires SlotIn(src, rows, open, true) && Shaped(dst) && src.kind == dst.kind
    ensures Shaped(src) && src.n < src.cap && CopyCell(src, src.n, dst) == CopyIn(Reserve(dst, dst.n + 1), open)
  {
    if src.kind == Utf8 { PieceOfSlot(src, rows, open); }
    hide Reserve, TextTo, Piece, RowsCommitted, Untouched;
  }

  lemma CopyInSlot(g: Col, done: seq<Slot>, open: Slot)
    requires SlotIn(g, done, FRESH, false) && g.n < g.cap
    ensures SlotIn(CopyIn(g, open), done, open, true)
  {
    var r := CopyIn(g, open);
    assert |g.data| <= |r.data|;
    assert TextTo(done, |done|) + "" == TextTo(done, |done|);
    hide TextTo;
    assert forall k :: 0 <= k < |done| && RowIn(g, done, k) ==> RowIn(r, done, k);
  }

  /** Copied behind the error rows, the open slot stands there as it is. */
  lemma CopySlot(src: Col, rows: seq<Slot>, open: Slot, dst: Col, done: seq<Slot>)
    requires SlotIn(src, rows, open, true) && SlotIn(dst, done, FRESH, false) && src.kind == dst.kind
    ensures Shaped(src) && src.n < src.cap && SlotIn(CopyCell(src, src.n, dst), done, open, true)
  {
    CopyIsIn(src, rows, open, dst);
    ReserveKeepsSlot(dst, done, FRESH, false, dst.n + 1);
    CopyInSlot(Reserve(dst, dst.n + 1), done, open);
    hide *;
  }

  lemma NumberSlot(dst: Col, done: seq<Slot>, v: int)
    requires SlotIn(dst, done, FRESH, false) && dst.kind == Fixed
    ensures SlotIn(Unnull(PutInt(dst, v)), done, Slot(false, Some(v), ""), true)
  {
    PutSlot(dst, done, FRESH, false, Some(IntCell(v)));
    var p := PutInt(dst, v);
    hide PutInt, TextTo;
    assert p.nulls[p.n := false] == p.nulls;
  }

  // ---------------------------------------------------------------- reading a column

  /** The committed rows alone. */
  predicate Carries(c: Col, rows: seq<Slot>) {
    && Shaped(c) && Plain(c.kind) && c.n == |rows| && RowsCommitted(c, rows)
    && (c.kind == Utf8 ==>
          |TextTo(rows, |rows|)| <= |c.data| && c.data[..|TextTo(rows, |rows|)|] == TextTo(rows, |rows|))
  }

  lemma SlotCarries(c: Col, rows: seq<Slot>, open: Slot, ended: bool)
    requires SlotIn(c, rows, open, ended)
    ensures Carries(c, rows)
  {
    hide TextTo, RowIn;
  }

  lemma {:induction false} TextGrows(rows: seq<Slot>, r: nat, q: nat)
    requires r <= q <= |rows|
    ensures |TextTo(rows, r)| <= |TextTo(rows, q)| && TextTo(rows, q)[..|TextTo(rows, r)|] == TextTo(rows, r)
    decreases q - r
  {
    hide *;
    if r == q {
      ItsOwnPrefix(TextTo(rows, q));
    } else {
      TextGrows(rows, r, q - 1);
      TextStep(rows, q);
      PrefixChains(TextTo(rows, r), TextTo(rows, q - 1), TextTo(rows, q));
    }
  }

  lemma TextStep(rows: seq<Slot>, q: nat)
    requires 0 < q <= |rows|
    ensures TextTo(rows, q) == TextTo(rows, q - 1) + rows[q - 1].bytes
    ensures |TextTo(rows, q - 1)| <= |TextTo(rows, q)| && TextTo(rows, q)[..|TextTo(rows, q - 1)|] == TextTo(rows, q - 1)
  {}

  lemma {:induction false} StartOfText(c: Col, rows: seq<Slot>, junk: nat -> int, r: nat)
    requires Carries(c, rows) && c.kind == Utf8 && r <= |rows| && c.cap > 0
    ensures Highest(Settled(c.offsets, junk), r) == |TextTo(rows, r)|
  {
    if r > 0 {
      StartOfText(c, rows, junk, r - 1);
      assert RowIn(c, rows, r - 1);
      TextGrows(rows, r - 1, r);
      hide TextTo;
    }
  }

  lemma TextOfRow(data: string, rows: seq<Slot>, r: nat)
    requires r < |rows|
    requires |TextTo(rows, |rows|)| <= |data| && data[..|TextTo(rows, |rows|)|] == TextTo(rows, |rows|)
    ensures Slice(data, |TextTo(rows, r)|, |TextTo(rows, r + 1)|) == Value(BytesCell(rows[r].bytes))
  {
    hide *;
    TextStep(rows, r + 1);
    TextGrows(rows, r + 1, |rows|);
    PrefixChains(TextTo(rows, r + 1), TextTo(rows, |rows|), data);
    CutRow(data, TextTo(rows, r), rows[r].bytes);
  }

  lemma CutRow(data: string, a: string, b: string)
    requires |a + b| <= |data| && data[..|a + b|] == a + b
    ensures Slice(data, |a|, |a + b|) == Value(BytesCell(b))
  {
    assert data[|a|..|a + b|] == data[..|a + b|][|a|..] == b;
  }

  /** Whatever memory held before, a column reads as the slots of its rows. */
  lemma CarriedReads(c: Col, rows: seq<Slot>, junk: nat -> int, r: nat)
    requires Carries(c, rows) && r < |rows|
    ensures ReadCell(Finalized(c, junk), r) == Seen(c.kind, rows[r])
  {
    assert RowIn(c, rows, r);
    if c.kind == Utf8 {
      StartOfText(c, rows, junk, r);
      StartOfText(c, rows, junk, r + 1);
      TextOfRow(c.data, rows, r);
    }
    hide TextTo, Highest, Settled, Slice;
  }
}
