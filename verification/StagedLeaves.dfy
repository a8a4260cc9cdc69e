/**
 What a reader sees of a staged column once it has been handed out as an Arrow leaf. Offsets
 that a null left unwritten hold whatever the memory held before; every statement is for any
 such content.
 */
module StagedLeaves {
  import opened CInt
  import opened Text
  import opened Staging
  import opened Ports
  import opened PortsTheorems
  import opened StagedRows

  // ---------------------------------------------------------------- the leaf

  /** The offsets as memory has them, `junk` where nothing was written. */
  function Settled(offsets: seq<Option<nat>>, junk: nat -> int): (s: seq<int>)
    ensures |s| == |offsets|
  {
    seq(|offsets|, i requires 0 <= i < |offsets| => if offsets[i].Some? then offsets[i].value else junk(i))
  }

  /** The largest of zero and the offsets from the second up to the `i`-th. */
  function Highest(s: seq<int>, i: nat): (h: int)
    requires i < |s|
    ensures h >= 0
  {
    if i == 0 then 0 else Max(Highest(s, i - 1), s[i])
  }

  /** The smoothing loop of ds_finalize_col: an offset below one before it is raised to it. */
  method SmoothOffsets(offsets: array<int>, n: nat)
    requires n < offsets.Length
    modifies offsets
    ensures offsets[0] == old(offsets[0])
    ensures forall i :: 1 <= i <= n ==> offsets[i] == Highest(old(offsets[..]), i)
    ensures forall i :: n < i < offsets.Length ==> offsets[i] == old(offsets[i])
  {
    var last := 0;
    ghost var before := offsets[..];
    var i := 1;
    while i <= n
      invariant 1 <= i <= n + 1 && last == Highest(before, i - 1)
      invariant offsets[0] == before[0]
      invariant forall k :: 1 <= k < i ==> offsets[k] == Highest(before, k)
      invariant forall k :: i <= k < offsets.Length ==> offsets[k] == before[k]
    {
      if offsets[i] < last {
        offsets[i] := last;
      } else {
        last := offsets[i];
      }
      i := i + 1;
    }
  }

  /** What the consumer gets. GUIDs and decimals come without offsets. */
  datatype Leaf = Leaf(kind: Kind, length: nat, nulls: seq<bool>, vals: seq<Option<int>>, offsets: seq<int>, data: string)

  predicate WellFormed(l: Leaf) {
    && |l.nulls| == l.length
    && (l.kind == Fixed ==> |l.vals| == l.length)
    && (l.kind == Utf8 || l.kind == Binary ==> |l.offsets| == l.length + 1)
  }

  /** ds_finalize_col. */
  function Finalized(c: Col, junk: nat -> int): (l: Leaf)
    requires Shaped(c)
    ensures WellFormed(l) && l.length == c.n
  {
    var s := Settled(c.offsets, junk);
    Leaf(c.kind, c.n, c.nulls[..c.n], if c.kind == Fixed then c.vals[..c.n] else [],
         if c.kind == Fixed || c.kind == Fixed16 then []
         else if c.cap == 0 then [0]
         else seq(c.n + 1, i requires 0 <= i <= c.n => Highest(s, i)),
         c.data)
  }

  /** A cell as read; Undefined stands for memory never written or not there at all. */
  datatype Read = Null | Value(cell: Cell) | Undefined

  function Slice(data: string, lo: int, hi: int): Read {
    if lo == hi then Value(BytesCell(""))
    else if 0 <= lo <= hi <= |data| then Value(BytesCell(data[lo..hi]))
    else Undefined
  }

  /** Every reader finds a GUID or decimal at sixteen times its row. */
  function ReadCell(l: Leaf, r: nat): Read
    requires WellFormed(l) && r < l.length
  {
    if l.nulls[r] then Null
    else
      match l.kind
      case Fixed => if l.vals[r].Some? then Value(IntCell(l.vals[r].value)) else Undefined
      case Fixed16 => Slice(l.data, 16 * r, 16 * r + 16)
      case _ => Slice(l.data, l.offsets[r], l.offsets[r + 1])
  }

  function ReadOf(x: Option<Cell>): Read { match x case None => Null case Some(c) => Value(c) }

  // ---------------------------------------------------------------- where a row's bytes are

  /** The largest of zero and what memory held where the nulls of the first `r` rows should
      have recorded an end. */
  function Drift(rows: seq<Option<Cell>>, junk: nat -> int, r: nat): (d: int)
    requires r <= |rows|
    ensures d >= 0
  {
    if r == 0 then 0
    else if rows[r - 1].None? then Max(Drift(rows, junk, r - 1), junk(r)) else Drift(rows, junk, r - 1)
  }

  function Nulls(rows: seq<Option<Cell>>, r: nat): (k: nat)
    requires r <= |rows|
    ensures k <= r
  {
    if r == 0 then 0 else Nulls(rows, r - 1) + (if rows[r - 1].None? then 1 else 0)
  }

  /** All cells are as long as a GUID or decimal. */
  predicate Sixteen(rows: seq<Option<Cell>>) {
    forall r :: 0 <= r < |rows| && rows[r].Some? ==> |BytesOf(rows[r])| == 16
  }

  lemma PrefixChains(a: string, b: string, c: string)
    requires |a| <= |b| <= |c| && b[..|a|] == a && c[..|b|] == b
    ensures c[..|a|] == a
  {
    assert c[..|a|] == c[..|b|][..|a|];
  }

  lemma {:induction false} BytesGrow(rows: seq<Option<Cell>>, r: nat, q: nat)
    requires r <= q <= |rows|
    ensures |BytesUpTo(rows, r)| <= |BytesUpTo(rows, q)| && BytesUpTo(rows, q)[..|BytesUpTo(rows, r)|] == BytesUpTo(rows, r)
    decreases q - r
  {
    hide *;
    if r == q {
      ItsOwnPrefix(BytesUpTo(rows, q));
    } else {
      BytesGrow(rows, r, q - 1);
      BytesStep(rows, q);
      PrefixChains(BytesUpTo(rows, r), BytesUpTo(rows, q - 1), BytesUpTo(rows, q));
    }
  }

  lemma ItsOwnPrefix(c: string)
    ensures c[..|c|] == c
  {}

  lemma BytesStep(rows: seq<Option<Cell>>, q: nat)
    requires 0 < q <= |rows|
    ensures BytesUpTo(rows, q) == BytesUpTo(rows, q - 1) + BytesOf(rows[q - 1])
    ensures |BytesUpTo(rows, q - 1)| <= |BytesUpTo(rows, q)|
    ensures BytesUpTo(rows, q)[..|BytesUpTo(rows, q - 1)|] == BytesUpTo(rows, q - 1)
  {}

  lemma RowEnds(rows: seq<Option<Cell>>, r: nat)
    requires r < |rows|
    ensures |BytesUpTo(rows, r + 1)| == |BytesUpTo(rows, r)| + |BytesOf(rows[r])| <= |BytesUpTo(rows, |rows|)|
  {
    BytesGrow(rows, r + 1, |rows|);
  }

  /** A row's own bytes lie between the ends of its predecessors' and its own. */
  lemma RowBytes(rows: seq<Option<Cell>>, r: nat)
    requires r < |rows|
    ensures |BytesUpTo(rows, r + 1)| == |BytesUpTo(rows, r)| + |BytesOf(rows[r])| <= |BytesUpTo(rows, |rows|)|
    ensures BytesUpTo(rows, |rows|)[|BytesUpTo(rows, r)|..|BytesUpTo(rows, r + 1)|] == BytesOf(rows[r])
  {
    BytesGrow(rows, r + 1, |rows|);
    assert BytesUpTo(rows, r + 1) == BytesUpTo(rows, r) + BytesOf(rows[r]);
    hide *;
    CutOut(BytesUpTo(rows, r), BytesOf(rows[r]), BytesUpTo(rows, |rows|));
  }

  lemma CutOut(a: string, b: string, d: string)
    requires |a + b| <= |d| && d[..|a + b|] == a + b
    ensures d[|a|..|a + b|] == b
  {
    assert d[|a|..|a + b|] == d[..|a + b|][|a|..];
  }

  /** The smoothed start of a row: the bytes before it, unless something larger was left
      where a null should have recorded its end. */
  lemma {:induction false} StartOf(c: Col, rows: seq<Option<Cell>>, junk: nat -> int, r: nat)
    requires Written(c, rows) && c.kind != Fixed && r <= |rows| && c.cap > 0
    ensures Highest(Settled(c.offsets, junk), r)
         == Max(|BytesUpTo(rows, r)|, if c.kind == Utf8 then 0 else Drift(rows, junk, r))
  {
    if r > 0 {
      StartOf(c, rows, junk, r - 1);
      assert CellWritten(c, rows, r - 1);
      BytesGrow(rows, r - 1, r);
      assert rows[r - 1].None? ==> BytesUpTo(rows, r) == BytesUpTo(rows, r - 1) + "";
      hide BytesUpTo;
    }
  }

  lemma {:induction false} SixteenEach(rows: seq<Option<Cell>>, r: nat)
    requires Sixteen(rows) && r <= |rows|
    ensures |BytesUpTo(rows, r)| == 16 * (r - Nulls(rows, r))
  {
    if r > 0 { SixteenEach(rows, r - 1); }
  }

  // ---------------------------------------------------------------- one row

  /** The offsets a leaf is handed out with. */
  lemma LeafOffset(c: Col, rows: seq<Option<Cell>>, junk: nat -> int, r: nat)
    requires Open(c, rows) && r <= |rows| && (c.kind == Utf8 || c.kind == Binary) && c.cap > 0
    ensures Finalized(c, junk).offsets[r] == Max(|BytesUpTo(rows, r)|, if c.kind == Utf8 then 0 else Drift(rows, junk, r))
  {
    StartOf(c, rows, junk, r);
    hide BytesUpTo, Highest, Settled, Drift, CellWritten;
  }

  lemma LeafCell(c: Col, rows: seq<Option<Cell>>, junk: nat -> int, r: nat)
    requires Open(c, rows) && r < |rows| && rows[r].Some?
    ensures c.cap > 0 && Finalized(c, junk).data == c.data && (c.kind != Fixed ==> c.data == BytesUpTo(rows, |rows|))
    ensures c.kind != Fixed ==> rows[r] == Some(BytesCell(BytesOf(rows[r])))
    ensures c.kind == Utf8 || c.kind == Binary ==>
              var l := Finalized(c, junk); ReadCell(l, r) == Slice(l.data, l.offsets[r], l.offsets[r + 1])
  {
    assert CellWritten(c, rows, r);
    hide BytesUpTo, Highest, Settled, Slice;
  }

  /** Where the reader looks for a row of text or bytes. */
  lemma ReadsSlice(c: Col, rows: seq<Option<Cell>>, junk: nat -> int, r: nat)
    requires Open(c, rows) && r < |rows| && (c.kind == Utf8 || c.kind == Binary) && rows[r].Some?
    ensures rows[r] == Some(BytesCell(BytesOf(rows[r])))
    ensures var a, d := |BytesUpTo(rows, r)|, if c.kind == Utf8 then 0 else Drift(rows, junk, r);
            ReadCell(Finalized(c, junk), r)
            == Slice(BytesUpTo(rows, |rows|), Max(a, d), Max(a + |BytesOf(rows[r])|, d))
  {
    hide *;
    OpenShaped(c, rows);
    LeafCell(c, rows, junk, r);
    DriftPasses(rows, junk, r);
    LeafOffset(c, rows, junk, r);
    LeafOffset(c, rows, junk, r + 1);
    RowEnds(rows, r);
  }

  lemma DriftPasses(rows: seq<Option<Cell>>, junk: nat -> int, r: nat)
    requires r < |rows| && rows[r].Some?
    ensures Drift(rows, junk, r + 1) == Drift(rows, junk, r)
  {}

  lemma ReadsNull(c: Col, rows: seq<Option<Cell>>, junk: nat -> int, r: nat)
    requires Open(c, rows) && r < |rows| && rows[r].None?
    ensures ReadCell(Finalized(c, junk), r) == ReadOf(rows[r])
  {
    assert CellWritten(c, rows, r);
    hide BytesUpTo, Highest, Settled, Slice;
  }

  lemma ReadsNumber(c: Col, rows: seq<Option<Cell>>, junk: nat -> int, r: nat)
    requires Open(c, rows) && r < |rows| && c.kind == Fixed
    ensures ReadCell(Finalized(c, junk), r) == ReadOf(rows[r])
  {
    assert CellWritten(c, rows, r);
    hide BytesUpTo, Highest, Settled, Slice;
  }

  /** A stretch that starts too late is not the one meant, unless that is empty. */
  lemma LateSlice(data: string, a: nat, n: nat, d: int)
    requires a + n <= |data|
    ensures Slice(data, Max(a, d), Max(a + n, d)) == Value(BytesCell(data[a..a + n])) <==> n == 0 || d <= a
  {
    if n == 0 {
      assert data[a..a] == "";
    } else if d > a {
      assert |data[a..a + n]| == n;
    }
  }

  lemma SliceOfRow(rows: seq<Option<Cell>>, r: nat, d: int)
    requires r < |rows|
    ensures var a, own := |BytesUpTo(rows, r)|, BytesOf(rows[r]);
            Slice(BytesUpTo(rows, |rows|), Max(a, d), Max(a + |own|, d)) == Value(BytesCell(own)) <==> own == "" || d <= a
  {
    hide *;
    RowBytes(rows, r);
    LateSlice(BytesUpTo(rows, |rows|), |BytesUpTo(rows, r)|, |BytesOf(rows[r])|, d);
  }

  lemma SliceExact(data: string, lo: nat, hi: nat, own: string)
    requires lo < hi <= |data| && data[lo..hi] == own
    ensures Slice(data, lo, hi) == Value(BytesCell(own))
  {}

  /** Numbers and text always read back. */
  lemma PlainReads(c: Col, rows: seq<Option<Cell>>, junk: nat -> int, r: nat)
    requires Open(c, rows) && r < |rows| && (c.kind == Fixed || c.kind == Utf8)
    ensures ReadCell(Finalized(c, junk), r) == ReadOf(rows[r])
  {
    assert Shaped(c) && c.n == |rows|;
    hide Finalized, ReadCell, Slice, BytesUpTo, Written, Shaped;
    if rows[r].None? {
      ReadsNull(c, rows, junk, r);
    } else if c.kind == Fixed {
      ReadsNumber(c, rows, junk, r);
    } else {
      ReadsSlice(c, rows, junk, r);
      SliceOfRow(rows, r, 0);
    }
  }

  /** A byte string reads back exactly when it is null or empty, or nothing larger than its
      start was left where an earlier null should have recorded its end. */
  lemma BinaryReads(c: Col, rows: seq<Option<Cell>>, junk: nat -> int, r: nat)
    requires Open(c, rows) && r < |rows| && c.kind == Binary
    ensures ReadCell(Finalized(c, junk), r) == ReadOf(rows[r])
       <==> BytesOf(rows[r]) == "" || Drift(rows, junk, r) <= |BytesUpTo(rows, r)|
  {
    assert Shaped(c) && c.n == |rows|;
    hide Finalized, ReadCell, Slice, BytesUpTo, Written, Shaped, Drift;
    if rows[r].None? {
      ReadsNull(c, rows, junk, r);
    } else {
      ReadsSlice(c, rows, junk, r);
      SliceOfRow(rows, r, Drift(rows, junk, r));
    }
  }

  lemma SixteenAt(c: Col, rows: seq<Option<Cell>>, junk: nat -> int, r: nat)
    requires Open(c, rows) && r < |rows| && c.kind == Fixed16 && Sixteen(rows) && rows[r].Some?
    ensures ReadCell(Finalized(c, junk), r) == Slice(c.data, 16 * r, 16 * r + 16)
    ensures c.data == BytesUpTo(rows, |rows|) && rows[r] == Some(BytesCell(BytesOf(rows[r])))
    ensures |BytesUpTo(rows, r)| == 16 * (r - Nulls(rows, r)) && |BytesUpTo(rows, r + 1)| == 16 * (r + 1 - Nulls(rows, r))
  {
    assert CellWritten(c, rows, r);
    SixteenEach(rows, r);
    SixteenEach(rows, r + 1);
    hide BytesUpTo;
  }

  /** A GUID or decimal with no null before it reads back. */
  lemma SixteenReads(c: Col, rows: seq<Option<Cell>>, junk: nat -> int, r: nat)
    requires Open(c, rows) && r < |rows| && c.kind == Fixed16 && Sixteen(rows) && (rows[r].Some? ==> Nulls(rows, r) == 0)
    ensures ReadCell(Finalized(c, junk), r) == ReadOf(rows[r])
  {
    hide *;
    OpenShaped(c, rows);
    if rows[r].Some? {
      SixteenAt(c, rows, junk, r);
      RowBytes(rows, r);
      SliceExact(c.data, 16 * r, 16 * r + 16, BytesOf(rows[r]));
      ReadOfSome(rows[r]);
    } else {
      ReadsNull(c, rows, junk, r);
    }
  }

  lemma ReadOfSome(x: Option<Cell>)
    ensures x.Some? ==> ReadOf(x) == Value(x.value)
  {}

  /** The last cell of a GUID or decimal column that is not null lies past the bytes handed out
      when any null is before it. */
  lemma LastSixteenIsMissing(c: Col, rows: seq<Option<Cell>>, junk: nat -> int, r: nat)
    requires Open(c, rows) && r < |rows| && c.kind == Fixed16 && Sixteen(rows) && rows[r].Some?
    requires Nulls(rows, r) > 0 && forall q :: r < q < |rows| ==> rows[q].None?
    ensures ReadCell(Finalized(c, junk), r) == Undefined
  {
    SixteenAt(c, rows, junk, r);
    NoMoreBytes(rows, r + 1, |rows|);
    hide BytesUpTo, Written;
  }

  lemma {:induction false} NoMoreBytes(rows: seq<Option<Cell>>, r: nat, q: nat)
    requires r <= q <= |rows| && forall k :: r <= k < q ==> rows[k].None?
    ensures BytesUpTo(rows, q) == BytesUpTo(rows, r)
    decreases q - r
  {
    if r < q {
      NoMoreBytes(rows, r, q - 1);
      assert BytesUpTo(rows, q) == BytesUpTo(rows, q - 1) + "";
    }
  }

  lemma {:induction false} LastSet(rows: seq<Option<Cell>>, r: nat) returns (q: nat)
    requires r < |rows| && rows[r].Some?
    ensures r <= q < |rows| && rows[q].Some? && forall k :: q < k < |rows| ==> rows[k].None?
    decreases |rows| - r
  {
    if k :| r < k < |rows| && rows[k].Some? { q := LastSet(rows, k); } else { q := r; }
  }

  lemma {:induction false} NullsCounted(rows: seq<Option<Cell>>, r: nat)
    requires r <= |rows|
    ensures Nulls(rows, r) > 0 <==> exists k :: 0 <= k < r && rows[k].None?
  {
    if r > 0 { NullsCounted(rows, r - 1); }
  }

  // ---------------------------------------------------------------- a whole column

  /** When every row of a leaf reads back: for byte strings, what memory held where nulls left
      their end unwritten must not exceed the start of a later row that is not empty; for
      GUIDs and decimals nothing but nulls may follow a null. */
  predicate Readable(kind: Kind, rows: seq<Option<Cell>>, junk: nat -> int) {
    match kind
    case Binary =>
      forall r :: 0 <= r < |rows| && BytesOf(rows[r]) != "" ==> Drift(rows, junk, r) <= |BytesUpTo(rows, r)|
    case Fixed16 => forall i, j :: 0 <= i < j < |rows| && rows[i].None? ==> rows[j].None?
    case _ => true
  }

  predicate ReadsBack(c: Col, rows: seq<Option<Cell>>, junk: nat -> int)
    requires Shaped(c) && c.n == |rows|
  {
    forall r :: 0 <= r < |rows| ==> ReadCell(Finalized(c, junk), r) == ReadOf(rows[r])
  }

  /** A leaf reads as the rows its column holds exactly when they are readable, whatever
      memory held before. */
  lemma LeafReads(c: Col, rows: seq<Option<Cell>>, junk: nat -> int)
    requires Open(c, rows) && (c.kind == Fixed16 ==> Sixteen(rows))
    ensures ReadsBack(c, rows, junk) <==> Readable(c.kind, rows, junk)
  {
    match c.kind
    case Binary =>
      forall r | 0 <= r < |rows|
        ensures ReadCell(Finalized(c, junk), r) == ReadOf(rows[r])
           <==> BytesOf(rows[r]) == "" || Drift(rows, junk, r) <= |BytesUpTo(rows, r)|
      {
        BinaryReads(c, rows, junk, r);
      }
    case Fixed16 => SixteenLeafReads(c, rows, junk);
    case _ =>
      forall r | 0 <= r < |rows| ensures ReadCell(Finalized(c, junk), r) == ReadOf(rows[r]) {
        PlainReads(c, rows, junk, r);
      }
    hide Written, Finalized, ReadCell, BytesUpTo, Drift;
  }

  lemma SixteenLeafReads(c: Col, rows: seq<Option<Cell>>, junk: nat -> int)
    requires Open(c, rows) && c.kind == Fixed16 && Sixteen(rows)
    ensures ReadsBack(c, rows, junk) <==> Readable(Fixed16, rows, junk)
  {
    assert Shaped(c) && c.n == |rows|;
    hide Written, Finalized, ReadCell, BytesUpTo, Drift, Sixteen;
    if i, j :| 0 <= i < j < |rows| && rows[i].None? && rows[j].Some? {
      var q := LastSet(rows, j);
      NullsCounted(rows, q);
      LastSixteenIsMissing(c, rows, junk, q);
    } else {
      forall r | 0 <= r < |rows| ensures ReadCell(Finalized(c, junk), r) == ReadOf(rows[r]) {
        NullsCounted(rows, r);
        SixteenReads(c, rows, junk, r);
      }
    }
  }

  /** Columns of any kind read back whatever memory held exactly when no cell with bytes follows
      a null, or the column holds numbers or text. */
  lemma ReadableAnyway(kind: Kind, rows: seq<Option<Cell>>)
    requires kind == Fixed16 ==> Sixteen(rows)
    ensures (forall junk: nat -> int :: Readable(kind, rows, junk))
       <==> kind == Fixed || kind == Utf8 || forall i, j :: 0 <= i < j < |rows| && rows[i].None? ==> BytesOf(rows[j]) == ""
  {
    if kind == Binary {
      if i, j :| 0 <= i < j < |rows| && rows[i].None? && BytesOf(rows[j]) != "" {
        var k := |BytesUpTo(rows, j)| + 1;
        var junk: nat -> int := _ => k;
        DriftAt(rows, junk, i, j);
        assert !Readable(kind, rows, junk);
      } else {
        forall junk: nat -> int, r | 0 <= r < |rows| && BytesOf(rows[r]) != ""
          ensures Drift(rows, junk, r) <= |BytesUpTo(rows, r)|
        {
          NoDrift(rows, junk, r);
        }
      }
    } else if kind == Fixed16 {
      var junk: nat -> int := _ => 0;
      assert Readable(kind, rows, junk) <==> forall i, j :: 0 <= i < j < |rows| && rows[i].None? ==> BytesOf(rows[j]) == "";
    }
    hide BytesUpTo, Drift;
  }

  lemma {:induction false} DriftAt(rows: seq<Option<Cell>>, junk: nat -> int, i: nat, r: nat)
    requires i < r <= |rows| && rows[i].None?
    ensures Drift(rows, junk, r) >= junk(i + 1)
    decreases r
  {
    if r > i + 1 { DriftAt(rows, junk, i, r - 1); }
  }

  lemma {:induction false} NoDrift(rows: seq<Option<Cell>>, junk: nat -> int, r: nat)
    requires r <= |rows| && forall i :: 0 <= i < r ==> rows[i].Some?
    ensures Drift(rows, junk, r) == 0
  {
    if r > 0 { NoDrift(rows, junk, r - 1); }
  }

  /** A GUID column with a null in row 0 and a value in row 1: the value's sixteen bytes are
      the first handed out, the reader looks for the second sixteen. */
  lemma NullThenGuid(c: Col, g: string, junk: nat -> int)
    requires c.kind == Fixed16 && |g| == 16 && Open(c, [None, Some(BytesCell(g))])
    ensures c.data == g && ReadCell(Finalized(c, junk), 1) == Undefined
  {
    var rows := [None, Some(BytesCell(g))];
    assert Nulls(rows, 1) == 1;
    assert BytesUpTo(rows, 1) == "" + "" && BytesUpTo(rows, 2) == BytesUpTo(rows, 1) + g;
    hide BytesUpTo, Nulls;
    LastSixteenIsMissing(c, rows, junk, 1);
  }

  /** The same with a byte string: it reads back exactly if memory happened to hold nothing
      above zero where the null left its end unwritten. */
  lemma NullThenBytes(c: Col, b: string, junk: nat -> int)
    requires c.kind == Binary && b != "" && Open(c, [None, Some(BytesCell(b))])
    ensures ReadCell(Finalized(c, junk), 1) == Value(BytesCell(b)) <==> junk(1) <= 0
  {
    var rows := [None, Some(BytesCell(b))];
    BinaryReads(c, rows, junk, 1);
    assert BytesUpTo(rows, 1) == "" && Drift(rows, junk, 1) == Max(0, junk(1));
    hide Written, Finalized, ReadCell;
  }

  // ---------------------------------------------------------------- whole runs

  function ReadsOf(rows: seq<Option<Cell>>): (s: seq<Read>)
    ensures |s| == |rows|
  {
    seq(|rows|, r requires 0 <= r < |rows| => ReadOf(rows[r]))
  }

  function LeafCells(c: Col, junk: nat -> int): (s: seq<Read>)
    requires Shaped(c)
    ensures |s| == c.n
  {
    seq(c.n, r requires 0 <= r < c.n => ReadCell(Finalized(c, junk), r))
  }

  /** What a consumer reads in one column of all batches; memory may differ at each. */
  function ReadAll(batches: seq<seq<Col>>, n: nat, i: nat, junk: nat -> nat -> int): seq<Read>
    requires Shapely(batches, n) && i < n
  {
    if batches == [] then []
    else
      var k := |batches| - 1;
      ReadAll(batches[..k], n, i, junk) + LeafCells(batches[k][i], junk(k))
  }

  /** The rows of each batch are readable. */
  predicate AllReadable(batches: seq<seq<Col>>, n: nat, i: nat, rows: seq<Option<Cell>>, junk: nat -> nat -> int)
    requires Shapely(batches, n) && i < n
  {
    batches == [] ||
    var k := |batches| - 1;
    var c := batches[k][i];
    && c.n <= |rows| && Readable(c.kind, rows[|rows| - c.n..], junk(k))
    && AllReadable(batches[..k], n, i, rows[..|rows| - c.n], junk)
  }

  lemma CellsRead(c: Col, rows: seq<Option<Cell>>, junk: nat -> int)
    requires Open(c, rows) && (c.kind == Fixed16 ==> Sixteen(rows))
    ensures LeafCells(c, junk) == ReadsOf(rows) <==> Readable(c.kind, rows, junk)
  {
    LeafReads(c, rows, junk);
    hide Readable, Written, Finalized, ReadCell;
    if LeafCells(c, junk) == ReadsOf(rows) {
      forall r | 0 <= r < |rows| ensures ReadCell(Finalized(c, junk), r) == ReadOf(rows[r]) {
        assert LeafCells(c, junk)[r] == ReadsOf(rows)[r];
      }
    }
  }

  lemma BothEqual(a: seq<Read>, b: seq<Read>, c: seq<Read>, d: seq<Read>)
    requires |b| == |d|
    ensures a + b == c + d <==> a == c && b == d
  {
    if a + b == c + d {
      assert |a| == |c|;
      assert a == (a + b)[..|a|] == c && b == (a + b)[|a|..] == d;
    }
  }

  lemma ReadsSplit(rows: seq<Option<Cell>>, n: nat)
    requires n <= |rows|
    ensures ReadsOf(rows) == ReadsOf(rows[..|rows| - n]) + ReadsOf(rows[|rows| - n..])
  {}

  /** All batches of a column read as the rows they hold exactly when all are readable. */
  lemma {:induction false} BatchesRead(batches: seq<seq<Col>>, n: nat, i: nat, kind: Kind, rows: seq<Option<Cell>>, junk: nat -> nat -> int)
    requires Shapely(batches, n) && i < n && Told(batches, n, i, kind, rows) && (kind == Fixed16 ==> Sixteen(rows))
    ensures ReadAll(batches, n, i, junk) == ReadsOf(rows) <==> AllReadable(batches, n, i, rows, junk)
    decreases |batches|
  {
    hide *;
    if batches == [] {
      NothingRead(batches, n, i, kind, rows, junk);
    } else {
      var k := |batches| - 1;
      ToldUnfolds(batches, n, i, kind, rows);
      var c := batches[k][i];
      ReadsUnfold(batches, n, i, rows, junk);
      ReadsSplit(rows, c.n);
      SixteenParts(rows, c.n);
      CellsRead(c, rows[|rows| - c.n..], junk(k));
      BatchesRead(batches[..k], n, i, kind, rows[..|rows| - c.n], junk);
      BothEqual(ReadAll(batches[..k], n, i, junk), LeafCells(c, junk(k)),
                ReadsOf(rows[..|rows| - c.n]), ReadsOf(rows[|rows| - c.n..]));
    }
  }

  lemma NothingRead(batches: seq<seq<Col>>, n: nat, i: nat, kind: Kind, rows: seq<Option<Cell>>, junk: nat -> nat -> int)
    requires Shapely(batches, n) && i < n && Told(batches, n, i, kind, rows) && batches == []
    ensures ReadAll(batches, n, i, junk) == ReadsOf(rows) && AllReadable(batches, n, i, rows, junk)
  {}

  lemma ToldUnfolds(batches: seq<seq<Col>>, n: nat, i: nat, kind: Kind, rows: seq<Option<Cell>>)
    requires Shapely(batches, n) && i < n && Told(batches, n, i, kind, rows) && batches != []
    ensures var k := |batches| - 1;
            && |batches[k]| == n && Shapely(batches[..k], n)
            && var c := batches[k][i];
               && Shaped(c) && c.kind == kind && c.n <= |rows| && Open(c, rows[|rows| - c.n..]) && |rows[|rows| - c.n..]| == c.n
               && Told(batches[..k], n, i, kind, rows[..|rows| - c.n])
  {
    hide Open, Shaped;
  }

  lemma ReadsUnfold(batches: seq<seq<Col>>, n: nat, i: nat, rows: seq<Option<Cell>>, junk: nat -> nat -> int)
    requires Shapely(batches, n) && i < n && batches != []
    ensures var k := |batches| - 1; var c := batches[k][i];
            && ReadAll(batches, n, i, junk) == ReadAll(batches[..k], n, i, junk) + LeafCells(c, junk(k))
            && (c.n <= |rows| ==>
                  (AllReadable(batches, n, i, rows, junk)
                   <==> Readable(c.kind, rows[|rows| - c.n..], junk(k)) && AllReadable(batches[..k], n, i, rows[..|rows| - c.n], junk)))
  {
    hide LeafCells, Readable, Shaped;
  }

  lemma SixteenParts(rows: seq<Option<Cell>>, n: nat)
    requires n <= |rows|
    ensures Sixteen(rows) ==> Sixteen(rows[..|rows| - n]) && Sixteen(rows[|rows| - n..])
  {}

  lemma {:induction false} PlainBatchesRead(batches: seq<seq<Col>>, n: nat, i: nat, kind: Kind, rows: seq<Option<Cell>>, junk: nat -> nat -> int)
    requires Shapely(batches, n) && i < n && Told(batches, n, i, kind, rows) && (kind == Fixed || kind == Utf8)
    ensures AllReadable(batches, n, i, rows, junk)
    decreases |batches|
  {
    if batches != [] {
      var k := |batches| - 1;
      PlainBatchesRead(batches[..k], n, i, kind, rows[..|rows| - batches[k][i].n], junk);
      hide Open;
    }
  }

  /** However the ports are asked, what a consumer reads in a column of port 0's batches is
      exactly what user code wrote there, row by row and in order, up to the rows still staged,
      when and only when each batch is readable. Numbers and text always are; byte strings and
      GUIDs or decimals are not behind a null. */
  lemma RunsDeliverTheRows(m: Machine, asked: seq<nat>, i: nat, junk: nat -> nat -> int)
    requires Good(m) && PortsOf(m.e, asked) && Tells(m) && AllClean(m) && i < |m.e.out|
    requires m.e.out[i].kind == Fixed16 ==> Sixteen(RowsWritten(Ask(m, asked).m.executed, |m.e.out|, i))
    ensures var t, n := Ask(m, asked).m, |m.e.out|;
            var rows := RowsWritten(t.executed, n, i);
            && |t.e.out| == n && Shapely(t.main, n) && RowCount(t.e, 0) <= |rows|
            && var delivered := rows[..|rows| - RowCount(t.e, 0)];
               && (ReadAll(t.main, n, i, junk) == ReadsOf(delivered) <==> AllReadable(t.main, n, i, delivered, junk))
               && (m.e.out[i].kind == Fixed || m.e.out[i].kind == Utf8 ==> ReadAll(t.main, n, i, junk) == ReadsOf(delivered))
  {
    hide *;
    RunsHoldTheRows(m, asked);
    AskKeepsKinds(m, asked, i);
    ReadsRows(Ask(m, asked).m, i, junk);
  }

  lemma AskKeepsKinds(m: Machine, asked: seq<nat>, i: nat)
    requires Good(m) && PortsOf(m.e, asked) && i < |m.e.out|
    ensures var e := Ask(m, asked).m.e; |e.out| == |m.e.out| && e.out[i].kind == m.e.out[i].kind
  {
    hide Good, Ask;
  }

  /** Between two calls, in one column. */
  lemma ReadsRows(t: Machine, i: nat, junk: nat -> nat -> int)
    requires Tells(t) && i < |t.e.out|
    requires t.e.out[i].kind == Fixed16 ==> Sixteen(RowsWritten(t.executed, |t.e.out|, i))
    ensures var n := |t.e.out|; var rows := RowsWritten(t.executed, n, i);
            && Shapely(t.main, n) && RowCount(t.e, 0) <= |rows|
            && var delivered := rows[..|rows| - RowCount(t.e, 0)];
               && (ReadAll(t.main, n, i, junk) == ReadsOf(delivered) <==> AllReadable(t.main, n, i, delivered, junk))
               && (t.e.out[i].kind == Fixed || t.e.out[i].kind == Utf8 ==> ReadAll(t.main, n, i, junk) == ReadsOf(delivered))
  {
    hide *;
    TellsParts(t, i);
    var n, kind := |t.e.out|, t.e.out[i].kind;
    var rows := RowsWritten(t.executed, n, i);
    var delivered := rows[..|rows| - RowCount(t.e, 0)];
    SixteenPrefix(rows, |rows| - RowCount(t.e, 0));
    BatchesRead(t.main, n, i, kind, delivered, junk);
    if kind == Fixed || kind == Utf8 { PlainBatchesRead(t.main, n, i, kind, delivered, junk); }
  }

  lemma TellsParts(t: Machine, i: nat)
    requires Tells(t) && i < |t.e.out|
    ensures var rows := RowsWritten(t.executed, |t.e.out|, i);
            && Shapely(t.main, |t.e.out|) && RowCount(t.e, 0) == t.e.out[i].n <= |rows|
            && Told(t.main, |t.e.out|, i, t.e.out[i].kind, rows[..|rows| - RowCount(t.e, 0)])
  {
    assert TellsColumn(t.main, t.e.out, t.executed, i);
    hide Told, RowsWritten, Open, Shapely;
  }

  lemma SixteenPrefix(rows: seq<Option<Cell>>, n: nat)
    requires n <= |rows|
    ensures Sixteen(rows) ==> Sixteen(rows[..n])
  {}

  /** For a component just created, and once port 0 has reported its end, nothing is missing:
      the consumer has read all rows ever written, under the same condition. */
  lemma FreshRunsDeliverAll(kinds: seq<Kind>, errEnabled: bool, errWired: bool, pulls: seq<Pull>, post: Pull, cleanupOk: bool,
                            m: Machine, asked: seq<nat>, i: nat, junk: nat -> nat -> int)
    requires kinds != [] && m == Begin(kinds, errEnabled, errWired, pulls, post, cleanupOk) && Typed(m) && Good(m)
    requires AllClean(m) && PortsOf(m.e, asked) && i < |kinds| && Over(Ask(m, asked).m, 0)
    requires kinds[i] == Fixed16 ==> Sixteen(RowsWritten(Ask(m, asked).m.executed, |kinds|, i))
    ensures var t, n := Ask(m, asked).m, |kinds|;
            var rows := RowsWritten(t.executed, n, i);
            && Shapely(t.main, n)
            && (ReadAll(t.main, n, i, junk) == ReadsOf(rows) <==> AllReadable(t.main, n, i, rows, junk))
            && (kinds[i] == Fixed || kinds[i] == Utf8 ==> ReadAll(t.main, n, i, junk) == ReadsOf(rows))
  {
    hide *;
    BeginTells(kinds, errEnabled, errWired, pulls, post, cleanupOk);
    BeginKinds(kinds, errEnabled, errWired, pulls, post, cleanupOk, i);
    OverIsEmpty(Ask(m, asked).m);
    var rows := RowsWritten(Ask(m, asked).m.executed, |kinds|, i);
    assert rows[..|rows|] == rows;
    RunsDeliverTheRows(m, asked, i, junk);
  }

  lemma BeginKinds(kinds: seq<Kind>, errEnabled: bool, errWired: bool, pulls: seq<Pull>, post: Pull, cleanupOk: bool, i: nat)
    requires kinds != [] && i < |kinds|
    ensures var e := Begin(kinds, errEnabled, errWired, pulls, post, cleanupOk).e; |e.out| == |kinds| && e.out[i].kind == kinds[i]
  {}

  lemma OverIsEmpty(t: Machine)
    requires Over(t, 0)
    ensures RowCount(t.e, 0) == 0
  {}

  // ---------------------------------------------------------------- after a tagged row

  /** How much later than the bytes before it a row of the column starts. */
  function Skip(kind: Kind, rows: seq<Option<Cell>>, junk: nat -> int): int {
    if kind == Binary then Max(0, Drift(rows, junk, |rows|) - |BytesUpTo(rows, |rows|)|) else 0
  }

  /** When a cell reads as the one written over an uncommitted cell of the same slot: null flags
      and bytes of the first are not taken back. Bytes of both stand one behind the other, and
      must be cut between them; for a GUID or decimal, by exactly one null before. */
  predicate Shows(kind: Kind, base: seq<Option<Cell>>, x: Option<Cell>, y: Option<Cell>, junk: nat -> int) {
    || y.None?
    || (&& x.Some?
        && match kind
           case Fixed => true
           case Fixed16 => Nulls(base, |base|) == 1 || (Nulls(base, |base|) == 0 && x == y)
           case _ => Min(Skip(kind, base, junk), |BytesOf(x)| + |BytesOf(y)|) == |BytesOf(x)|)
  }

  /** The buffers after both cells and the commit. */
  predicate Overwritten(c: Col, base: seq<Option<Cell>>, x: Option<Cell>, y: Option<Cell>, junk: nat -> int) {
    && Shaped(c) && c.n == |base| + 1 && FitsKind(x, c.kind) && FitsKind(y, c.kind)
    && c.nulls[|base|] == (x.None? || y.None?)
    && (c.kind == Fixed && x.Some? && y.Some? ==> c.vals[|base|] == Some(y.value.i))
    && (c.kind != Fixed ==>
          && c.data == BytesUpTo(base, |base|) + BytesOf(x) + BytesOf(y)
          && (x.Some? && y.Some? ==> c.offsets[|base| + 1] == Some(|c.data|))
          && Highest(Settled(c.offsets, junk), |base|)
             == Max(|BytesUpTo(base, |base|)|, if c.kind == Utf8 then 0 else Drift(base, junk, |base|)))
  }

  lemma OverwritingLeaves(c: Col, base: seq<Option<Cell>>, x: Option<Cell>, y: Option<Cell>, junk: nat -> int)
    requires Open(c, base) && FitsKind(x, c.kind) && FitsKind(y, c.kind)
    ensures Overwritten(Advance(Put(Put(c, x), y)), base, x, y, junk)
  {
    var g := Reserve(c, c.n + 1);
    ReserveKeeps(c, base, c.n + 1);
    hide *;
    OpenShaped(c, base);
    OpenShaped(g, base);
    PutTwice(c, x, y);
    IsRoom(g, x, y);
    if c.kind != Fixed { OverwrittenOffsets(g, base, x, y, junk); }
    OverwrittenCells(g, base, x, y, junk);
  }

  lemma IsRoom(g: Col, x: Option<Cell>, y: Option<Cell>)
    requires Shaped(g) && g.n < g.cap && FitsKind(x, g.kind) && FitsKind(y, g.kind)
    ensures Room(g, x, y)
  {}

  lemma OpenShaped(c: Col, base: seq<Option<Cell>>)
    requires Open(c, base)
    ensures Shaped(c) && c.n == |base| && (forall r :: |base| <= r < c.cap ==> !c.nulls[r])
    ensures c.kind != Fixed ==> c.data == BytesUpTo(base, |base|)
  {
    hide BytesUpTo;
  }

  lemma PutTwice(c: Col, x: Option<Cell>, y: Option<Cell>)
    requires Shaped(c) && FitsKind(x, c.kind) && FitsKind(y, c.kind)
    ensures var g := Reserve(c, c.n + 1);
            && Shaped(g) && g.n == c.n < g.cap && g.kind == c.kind
            && Shaped(PutIn(g, x)) && PutIn(g, x).n < PutIn(g, x).cap && PutIn(g, x).kind == c.kind
            && Put(Put(c, x), y) == PutIn(PutIn(g, x), y)
  {
    PutIsIn(c, x);
    PutIsIn(Put(c, x), y);
    RoomIsKept(Put(c, x));
    hide Put, Reserve, PutIn, Shaped;
  }

  predicate Room(g: Col, x: Option<Cell>, y: Option<Cell>) {
    Shaped(g) && g.n < g.cap && FitsKind(x, g.kind) && FitsKind(y, g.kind)
  }

  lemma InShaped(g: Col, x: Option<Cell>, y: Option<Cell>)
    requires Room(g, x, y)
    ensures Shaped(PutIn(g, x)) && Shaped(PutIn(PutIn(g, x), y))
  {
    assert |g.data| <= |PutIn(g, x).data|;
  }

  lemma OverwrittenOffsets(g: Col, base: seq<Option<Cell>>, x: Option<Cell>, y: Option<Cell>, junk: nat -> int)
    requires Open(g, base) && Room(g, x, y) && g.kind != Fixed
    ensures Shaped(PutIn(g, x))
    ensures Highest(Settled(PutIn(PutIn(g, x), y).offsets, junk), |base|)
         == Max(|BytesUpTo(base, |base|)|, if g.kind == Utf8 then 0 else Drift(base, junk, |base|))
  {
    InShaped(g, x, y);
    StartOf(g, base, junk, |base|);
    HighestBefore(Settled(g.offsets, junk), Settled(PutIn(PutIn(g, x), y).offsets, junk), |base|);
    hide BytesUpTo, Drift, Highest, CellWritten;
  }

  lemma OverwrittenCells(g: Col, base: seq<Option<Cell>>, x: Option<Cell>, y: Option<Cell>, junk: nat -> int)
    requires Open(g, base) && Room(g, x, y) && Shaped(PutIn(g, x))
    requires g.kind != Fixed ==>
               Highest(Settled(PutIn(PutIn(g, x), y).offsets, junk), |base|)
               == Max(|BytesUpTo(base, |base|)|, if g.kind == Utf8 then 0 else Drift(base, junk, |base|))
    ensures Shaped(PutIn(PutIn(g, x), y)) && Overwritten(Advance(PutIn(PutIn(g, x), y)), base, x, y, junk)
  {
    InShaped(g, x, y);
    OpenShaped(g, base);
    hide BytesUpTo, Drift, Highest, Settled, Open;
  }

  lemma RoomIsKept(c: Col)
    requires Shaped(c) && c.n < c.cap
    ensures Reserve(c, c.n + 1) == c
  {}

  lemma {:induction false} HighestBefore(s: seq<int>, t: seq<int>, i: nat)
    requires i < |s| && i < |t| && forall k :: 0 <= k <= i ==> s[k] == t[k]
    ensures Highest(s, i) == Highest(t, i)
  {
    if i > 0 { HighestBefore(s, t, i - 1); }
  }

  lemma {:induction false} NullsAndBytes(base: seq<Option<Cell>>)
    requires Sixteen(base)
    ensures |BytesUpTo(base, |base|)| == 16 * (|base| - Nulls(base, |base|))
  {
    SixteenEach(base, |base|);
  }

  /** Text or bytes behind uncommitted ones. */
  lemma JoinedReads(data: string, lo: int, b: string, s: string, t: string)
    requires data == b + s + t && lo >= |b|
    ensures var hi := Max(lo, |data|);
            Slice(data, lo, hi) == Value(BytesCell(t)) <==> Min(lo - |b|, |s| + |t|) == |s|
  {
    if lo < |data| {
      assert |data[lo..]| == |data| - lo;
      if lo - |b| == |s| { assert data[lo..] == t; }
      assert data[lo..|data|] == data[lo..];
    }
  }

  /** Of two GUIDs in one slot, the reader finds the first, the second or neither. */
  lemma SixteenJoined(data: string, b: string, s: string, t: string, n: nat, k: nat)
    requires data == b + s + t && |s| == 16 && |t| == 16 && k <= n && |b| == 16 * (n - k)
    ensures Slice(data, 16 * n, 16 * n + 16) == Value(BytesCell(t)) <==> k == 1 || (k == 0 && s == t)
  {
    if k == 0 {
      assert data[16 * n..16 * n + 16] == s;
    } else if k == 1 {
      assert data[16 * n..16 * n + 16] == t;
    }
  }

  /** The exact condition, for columns of every kind. */
  lemma OverwritingShows(c: Col, base: seq<Option<Cell>>, x: Option<Cell>, y: Option<Cell>, junk: nat -> int)
    requires Open(c, base) && FitsKind(x, c.kind) && FitsKind(y, c.kind)
    requires c.kind == Fixed16 ==> Sixteen(base) && Sixteen([x, y])
    ensures ReadCell(Finalized(Advance(Put(Put(c, x), y)), junk), |base|) == ReadOf(y) <==> Shows(c.kind, base, x, y, junk)
  {
    OverwritingLeaves(c, base, x, y, junk);
    var d := Advance(Put(Put(c, x), y));
    hide Put, Advance, Open, BytesUpTo, Drift;
    OverwrittenReads(d, base, x, y, junk);
  }

  lemma OverwrittenReads(d: Col, base: seq<Option<Cell>>, x: Option<Cell>, y: Option<Cell>, junk: nat -> int)
    requires Overwritten(d, base, x, y, junk)
    requires d.kind == Fixed16 ==> Sixteen(base) && Sixteen([x, y])
    ensures ReadCell(Finalized(d, junk), |base|) == ReadOf(y) <==> Shows(d.kind, base, x, y, junk)
  {
    var b := BytesUpTo(base, |base|);
    if x.Some? && y.Some? && d.kind != Fixed {
      var s, t := BytesOf(x), BytesOf(y);
      assert y == Some(BytesCell(t)) && x == Some(BytesCell(s));
      if d.kind == Fixed16 {
        NullsAndBytes(base);
        assert [x, y][0] == x && [x, y][1] == y;
        SixteenJoined(d.data, b, s, t, |base|, Nulls(base, |base|));
      } else {
        var lo := Highest(Settled(d.offsets, junk), |base|);
        JoinedReads(d.data, lo, b, s, t);
        assert Highest(Settled(d.offsets, junk), |base| + 1) == Max(lo, |d.data|);
      }
    }
    hide BytesUpTo, Drift, Highest, Settled, Slice, Nulls;
  }

  /** A row tagged after `a` was set in the column, then a row in which `b` was. */
  function TaggedThen(a: Action, code: int, column: int, b: Action): seq<Action> {
    [a] + ([Tag(code, column)] + ([Commit] + ([b] + ([Commit] + []))))
  }

  predicate Sets(e: Emitter, a: Action, col: nat) { IsSetter(a) && a.col == col && Fits(e, a) }

  /** The setter acts on the column alone. */
  lemma SetterPuts(e: Emitter, a: Action, col: nat)
    requires Sound(e) && Sets(e, a, col)
    ensures var r := Act(e, a);
            && FitsKind(CellOf(a), e.out[col].kind) && Sound(r) && SameShape(e, r) && r.tag == e.tag
            && r.out[col] == Put(e.out[col], CellOf(a)) && r.pending[col]
  {
    ActKeepsSound(e, a);
    hide Sound, PutInt, PutBytes, PutNull;
  }

  lemma TaggedCommitStays(e: Emitter, col: nat, code: int, column: int)
    requires Sound(e) && e.errEnabled && col < |e.out| && e.pending[col]
    ensures var t := Act(e, Tag(code, column));
            && Sound(t) && SameShape(e, t)
            && var r := Act(t, Commit); Sound(r) && SameShape(e, r) && r.tag.None? && r.out[col] == e.out[col]
  {
    var t := Act(e, Tag(code, column));
    ActKeepsSound(e, Tag(code, column));
    ActKeepsSound(t, Commit);
    hide PutNull, Advanced, ErrorRow, Shaped;
  }

  lemma CommitAdvances(e: Emitter, col: nat)
    requires Sound(e) && e.tag.None? && col < |e.out| && e.pending[col]
    ensures Sound(Act(e, Commit)) && SameShape(e, Act(e, Commit))
    ensures Shaped(e.out[col]) && e.out[col].n < e.out[col].cap && Act(e, Commit).out[col] == Advance(e.out[col])
  {
    ActKeepsSound(e, Commit);
    hide PutNull, ErrorRow, Shaped;
  }

  lemma SetsCarries(a: Emitter, b: Emitter, x: Action, col: nat)
    requires SameShape(a, b) && Sets(a, x, col)
    ensures Sets(b, x, col)
  {}

  /** The cell set in the row after a tagged one reads as set exactly when it is null, or the
      tagged row left nothing in the way: the slot is reused, its null flag and the bytes
      behind it are not taken back. */
  lemma RowAfterTagged(e: Emitter, col: nat, base: seq<Option<Cell>>, a: Action, code: int, column: int, b: Action, junk: nat -> int)
    requires Sound(e) && e.errEnabled && e.tag.None? && Sets(e, a, col) && Sets(e, b, col) && Open(e.out[col], base)
    requires e.out[col].kind == Fixed16 ==> Sixteen(base) && Sixteen([CellOf(a), CellOf(b)])
    ensures FitsAll(e, TaggedThen(a, code, column, b))
    ensures var r := Acts(e, TaggedThen(a, code, column, b)).out[col];
            && Shaped(r) && r.n == |base| + 1
            && (ReadCell(Finalized(r, junk), |base|) == ReadOf(CellOf(b)) <==> Shows(r.kind, base, CellOf(a), CellOf(b), junk))
  {
    hide *;
    TaggedThenPuts(e, col, base, a, code, column, b);
    OpenShaped(e.out[col], base);
    OverwritingShows(e.out[col], base, CellOf(a), CellOf(b), junk);
  }

  lemma TaggedThenPuts(e: Emitter, col: nat, base: seq<Option<Cell>>, a: Action, code: int, column: int, b: Action)
    requires Sound(e) && e.errEnabled && e.tag.None? && Sets(e, a, col) && Sets(e, b, col) && Open(e.out[col], base)
    ensures FitsAll(e, TaggedThen(a, code, column, b)) && IsSetter(a) && IsSetter(b) && col < |e.out|
    ensures var c, r := e.out[col], Acts(e, TaggedThen(a, code, column, b)).out;
            && FitsKind(CellOf(a), c.kind) && FitsKind(CellOf(b), c.kind) && Shaped(c)
            && |r| == |e.out| && r[col] == Advance(Put(Put(c, CellOf(a)), CellOf(b)))
            && r[col].kind == c.kind && r[col].n == c.n + 1 && Shaped(r[col])
  {
    SetterPuts(e, a, col);
    var e1 := Act(e, a);
    TaggedCommitStays(e1, col, code, column);
    var e2 := Act(e1, Tag(code, column));
    var e3 := Act(e2, Commit);
    SetsCarries(e, e3, b, col);
    SetterPuts(e3, b, col);
    var e4 := Act(e3, b);
    CommitAdvances(e4, col);
    OpenShaped(e.out[col], base);
    hide Sound, Act, Put, Open;
    TaggedThenFits(e, a, code, column, b, col);
    TaggedThenActs(e, a, code, column, b);
  }

  lemma TaggedThenFits(e: Emitter, a: Action, code: int, column: int, b: Action, col: nat)
    requires Sets(e, a, col) && Sets(e, b, col)
    ensures FitsAll(e, TaggedThen(a, code, column, b))
  {}

  lemma TaggedThenActs(e: Emitter, a: Action, code: int, column: int, b: Action)
    requires Sound(e) && FitsAll(e, TaggedThen(a, code, column, b))
    ensures Fits(e, a) && Sound(Act(e, a))
    ensures var e1 := Act(e, a); Sound(Act(e1, Tag(code, column)))
    ensures var e2 := Act(Act(e, a), Tag(code, column)); Sound(Act(e2, Commit))
    ensures var e3 := Act(Act(Act(e, a), Tag(code, column)), Commit); Fits(e3, b) && Sound(Act(e3, b))
    ensures var e4 := Act(Act(Act(Act(e, a), Tag(code, column)), Commit), b);
            Acts(e, TaggedThen(a, code, column, b)) == Act(e4, Commit)
  {
    hide Sound, Act, Acts, Fits, FitsAll;
    ActsCons(e, a, [Tag(code, column)] + ([Commit] + ([b] + ([Commit] + []))));
    var e1 := Act(e, a);
    ActsCons(e1, Tag(code, column), [Commit] + ([b] + ([Commit] + [])));
    var e2 := Act(e1, Tag(code, column));
    ActsCons(e2, Commit, [b] + ([Commit] + []));
    var e3 := Act(e2, Commit);
    ActsCons(e3, b, [Commit] + []);
    var e4 := Act(e3, b);
    ActsCons(e4, Commit, []);
    NoActs(Act(e4, Commit));
  }

  lemma ActsCons(e: Emitter, a: Action, rest: seq<Action>)
    requires Sound(e) && FitsAll(e, [a] + rest)
    ensures Fits(e, a) && Sound(Act(e, a)) && FitsAll(Act(e, a), rest)
    ensures Acts(e, [a] + rest) == Acts(Act(e, a), rest)
  {
    assert ([a] + rest)[0] == a && ([a] + rest)[1..] == rest;
    ActKeepsSound(e, a);
    hide Sound, Act;
    FitsCarries(e, Act(e, a), rest);
  }

  lemma NoActs(e: Emitter)
    requires Sound(e)
    ensures Acts(e, []) == e
  {}

  // ---------------------------------------------------------------- the error output

  /** Byte strings, GUIDs and decimals of tagged rows never reach the error output: whatever
      user code does, no byte is added to such a column. */
  lemma {:induction false} ErrorBytesAreLost(e: Emitter, acts: seq<Action>, i: nat)
    requires Sound(e) && e.errEnabled && FitsAll(e, acts) && i < |e.out|
    requires e.out[i].kind == Binary || e.out[i].kind == Fixed16
    ensures var r := Acts(e, acts); |r.err| == |e.err| && r.err[i].data == e.err[i].data && r.err[i].kind == e.out[i].kind
    decreases |acts|
  {
    if acts != [] {
      var next := Act(e, acts[0]);
      ActKeepsSound(e, acts[0]);
      ActLosesErrorBytes(e, acts[0], i);
      FitsCarries(e, next, acts[1..]);
      hide Sound, Act;
      ErrorBytesAreLost(next, acts[1..], i);
    }
  }

  lemma ActLosesErrorBytes(e: Emitter, a: Action, i: nat)
    requires Sound(e) && e.errEnabled && Fits(e, a) && i < |e.out|
    requires e.out[i].kind == Binary || e.out[i].kind == Fixed16
    ensures var r := Act(e, a); |r.err| == |e.err| && r.err[i].data == e.err[i].data
    ensures Sound(Act(e, a)) && e.err[i].kind == e.out[i].kind
  {
    ActKeepsSound(e, a);
    if a == Commit {
      CommitLosesErrorBytes(e, i);
      hide CommitRow, Sound;
    } else {
      hide PutInt, PutBytes, PutNull, CommitRow, Shaped;
    }
  }

  lemma CommitLosesErrorBytes(e: Emitter, i: nat)
    requires Sound(e) && e.errEnabled && i < |e.out| && (e.out[i].kind == Binary || e.out[i].kind == Fixed16)
    ensures var r := CommitRow(e); |r.err| == |e.err| && r.err[i].data == e.err[i].data
  {
    var filled := Filled(e.out, e.pending);
    if e.tag.Some? && e.errWired {
      CopyLosesBytes(filled[i], filled[i].n, e.err[i]);
      assert ErrorRow(filled, e.err, e.tag.value)[i] == CopyCell(filled[i], filled[i].n, e.err[i]);
    }
    hide PutInt, PutNull, CopyCell, Shaped, Filled;
  }

  lemma CopyLosesBytes(src: Col, k: nat, dst: Col)
    requires Shaped(src) && Shaped(dst) && k < src.cap && src.kind == dst.kind && (src.kind == Binary || src.kind == Fixed16)
    ensures CopyCell(src, k, dst).data == dst.data
  {
    hide Reserve;
  }

  /** So in an error batch every GUID or decimal that is not null is missing, and a byte string
      reads as empty or as memory that was never written. */
  lemma ErrorCellsAreMissing(c: Col, junk: nat -> int, r: nat)
    requires Shaped(c) && (c.kind == Binary || c.kind == Fixed16) && c.data == "" && r < c.n && !c.nulls[r]
    ensures c.kind == Fixed16 ==> ReadCell(Finalized(c, junk), r) == Undefined
    ensures c.kind == Binary ==> ReadCell(Finalized(c, junk), r) in {Undefined, Value(BytesCell(""))}
  {
    hide Highest, Settled;
  }
}
