/**
 What the staged columns hold: for user code that tags no row and sets each cell at most once,
 exactly the rows it wrote, in order, across any number of flushes.
 */
module StagedRows {
  import opened Text
  import opened Staging
  import opened Ports
  import opened PortsTheorems

  datatype Cell = IntCell(i: int) | BytesCell(s: string)

  predicate FitsKind(x: Option<Cell>, kind: Kind) { x.Some? ==> (x.value.IntCell? <==> kind == Fixed) }

  function BytesOf(x: Option<Cell>): string { if x.Some? && x.value.BytesCell? then x.value.s else "" }

  /** The bytes of the first `r` rows: a null has none, in columns of every kind. */
  function BytesUpTo(rows: seq<Option<Cell>>, r: nat): string
    requires r <= |rows|
  {
    if r == 0 then "" else BytesUpTo(rows, r - 1) + BytesOf(rows[r - 1])
  }

  /** The buffers hold row `r`. Where a null ends is recorded in text columns only. */
  predicate CellWritten(c: Col, rows: seq<Option<Cell>>, r: nat)
    requires Shaped(c) && r < |rows| <= c.cap
  {
    && FitsKind(rows[r], c.kind) && c.nulls[r] == rows[r].None?
    && (c.kind == Fixed && rows[r].Some? ==> c.vals[r] == Some(rows[r].value.i))
    && (c.kind != Fixed ==>
          c.offsets[r + 1] == if rows[r].Some? || c.kind == Utf8 then Some(|BytesUpTo(rows, r + 1)|) else None)
  }

  /** The buffers hold these rows, committed or not, and nothing behind them. */
  predicate Written(c: Col, rows: seq<Option<Cell>>) {
    && Shaped(c) && |rows| <= c.cap
    && (forall r :: 0 <= r < |rows| ==> CellWritten(c, rows, r))
    && (forall r :: |rows| <= r < c.cap ==> !c.nulls[r])
    && (c.kind != Fixed ==>
          && c.data == BytesUpTo(rows, |rows|)
          && forall r :: |rows| < r <= c.cap ==> c.offsets[r] == None)
  }

  /** `base` is committed and the next row is untouched. */
  predicate Open(c: Col, base: seq<Option<Cell>>) { Written(c, base) && c.n == |base| }

  /** `base` is committed and the next row holds `x`. */
  predicate Filled1(c: Col, base: seq<Option<Cell>>, x: Option<Cell>) { Written(c, base + [x]) && c.n == |base| }

  lemma {:induction false} BytesPrefix(rows: seq<Option<Cell>>, more: seq<Option<Cell>>, r: nat)
    requires r <= |rows|
    ensures BytesUpTo(rows + more, r) == BytesUpTo(rows, r)
  {
    if r > 0 { BytesPrefix(rows, more, r - 1); }
  }

  lemma BytesSnoc(rows: seq<Option<Cell>>, x: Option<Cell>)
    ensures BytesUpTo(rows + [x], |rows| + 1) == BytesUpTo(rows, |rows|) + BytesOf(x)
  {
    BytesPrefix(rows, [x], |rows|);
  }

  lemma ReserveKeeps(c: Col, base: seq<Option<Cell>>, want: nat)
    requires Open(c, base)
    ensures Open(Reserve(c, want), base)
  {
    var g := Reserve(c, want);
    if want > c.cap {
      assert forall r :: 0 <= r < c.cap ==> g.nulls[r] == g.nulls[..c.cap][r];
      if c.kind == Fixed { assert forall r :: 0 <= r < c.cap ==> g.vals[r] == g.vals[..c.cap][r]; }
      hide Doubled, Grown, BytesUpTo;
      assert forall r :: 0 <= r < |base| && CellWritten(c, base, r) ==> CellWritten(g, base, r);
    }
  }

  /** Writing a cell at the column's next row. */
  function Put(c: Col, x: Option<Cell>): (r: Col)
    requires Shaped(c) && FitsKind(x, c.kind)
    ensures Shaped(r) && r.n == c.n && r.kind == c.kind && r.cap > r.n
  {
    match x
    case None => PutNull(c)
    case Some(IntCell(i)) => PutInt(c, i)
    case Some(BytesCell(s)) => PutBytes(c, s)
  }

  /** The same in a column with room. */
  function PutIn(g: Col, x: Option<Cell>): Col
    requires Shaped(g) && FitsKind(x, g.kind) && g.n < g.cap
  {
    var data := g.data + BytesOf(x);
    g.(nulls := if x.None? then g.nulls[g.n := true] else g.nulls,
       vals := if x.Some? && g.kind == Fixed then g.vals[g.n := Some(x.value.i)] else g.vals,
       offsets := if g.kind == Utf8 || (x.Some? && g.kind != Fixed) then g.offsets[g.n + 1 := Some(|data|)] else g.offsets,
       data := data)
  }

  lemma PutIsIn(c: Col, x: Option<Cell>)
    requires Shaped(c) && FitsKind(x, c.kind)
    ensures Put(c, x) == PutIn(Reserve(c, c.n + 1), x)
  {
    var g := Reserve(c, c.n + 1);
    assert g.data + "" == g.data;
    hide Reserve;
  }

  lemma PutFills(c: Col, base: seq<Option<Cell>>, x: Option<Cell>)
    requires Open(c, base) && FitsKind(x, c.kind)
    ensures Filled1(Put(c, x), base, x)
  {
    ReserveKeeps(c, base, c.n + 1);
    PutIsIn(c, x);
    var g := Reserve(c, c.n + 1);
    hide Reserve, Put;
    InAppends(g, base, x);
  }

  lemma InAppends(g: Col, base: seq<Option<Cell>>, x: Option<Cell>)
    requires Open(g, base) && g.n < g.cap && FitsKind(x, g.kind)
    ensures Filled1(PutIn(g, x), base, x)
  {
    var r, rows := PutIn(g, x), base + [x];
    BytesSnoc(base, x);
    forall k | 0 <= k < |rows|
      ensures CellWritten(r, rows, k)
    {
      if k < |base| {
        BytesPrefix(base, [x], k + 1);
        assert CellWritten(g, base, k);
      }
    }
    assert |g.data| <= |r.data|;
    hide BytesUpTo;
  }

  lemma AdvanceOpens(c: Col, base: seq<Option<Cell>>, x: Option<Cell>)
    requires Filled1(c, base, x)
    ensures Shaped(c) && c.n < c.cap && Open(Advance(c), base + [x])
  {
    assert forall r :: 0 <= r < |base + [x]| && CellWritten(c, base + [x], r) ==> CellWritten(Advance(c), base + [x], r);
    hide BytesUpTo;
  }

  // ---------------------------------------------------------------- rows

  function Blank(n: nat): (row: seq<Option<Cell>>)
    ensures |row| == n
  {
    seq(n, _ => None)
  }

  /** Each column has `base` committed; `row` is what the open row holds so far. */
  predicate Holds(e: Emitter, base: seq<seq<Option<Cell>>>, row: seq<Option<Cell>>) {
    && Sound(e) && e.tag.None? && |base| == |row| == |e.out|
    && forall i :: 0 <= i < |e.out| ==>
         if e.pending[i] then Filled1(e.out[i], base[i], row[i]) else Open(e.out[i], base[i]) && row[i].None?
  }

  predicate IsSetter(a: Action) { a.SetInt? || a.SetBytes? || a.SetNull? }

  function CellOf(a: Action): Option<Cell>
    requires IsSetter(a)
  {
    match a
    case SetInt(_, v) => Some(IntCell(v))
    case SetBytes(_, s) => Some(BytesCell(s))
    case _ => None
  }

  lemma SetterHolds(e: Emitter, a: Action, base: seq<seq<Option<Cell>>>, row: seq<Option<Cell>>)
    requires Holds(e, base, row) && Fits(e, a) && IsSetter(a) && !e.pending[a.col]
    ensures Holds(Act(e, a), base, row[a.col := CellOf(a)])
    ensures Act(e, a).pending == e.pending[a.col := true]
  {
    ActKeepsSound(e, a);
    var c := e.out[a.col];
    assert Open(c, base[a.col]);
    PutFills(c, base[a.col], CellOf(a));
    ColumnSet(e, a.col, Act(e, a).out[a.col], CellOf(a), base, row);
    hide Filled1, Open, Sound, PutInt, PutBytes, PutNull;
  }

  lemma ColumnSet(e: Emitter, col: nat, c: Col, x: Option<Cell>, base: seq<seq<Option<Cell>>>, row: seq<Option<Cell>>)
    requires Holds(e, base, row) && col < |e.out| && Filled1(c, base[col], x) && Sound(WithCol(e, col, c))
    ensures Holds(WithCol(e, col, c), base, row[col := x])
  {
    hide Filled1, Open, Shaped;
  }

  lemma CommitHolds(e: Emitter, base: seq<seq<Option<Cell>>>, row: seq<Option<Cell>>)
    requires Holds(e, base, row)
    ensures var next := seq(|base|, i requires 0 <= i < |base| => base[i] + [row[i]]);
            Holds(Act(e, Commit), next, Blank(|row|)) && NothingOpen(Act(e, Commit))
  {
    ActKeepsSound(e, Commit);
    var r := Act(e, Commit);
    forall i | 0 <= i < |e.out|
      ensures Open(r.out[i], base[i] + [row[i]]) && !r.pending[i]
    {
      if e.pending[i] {
        AdvanceOpens(e.out[i], base[i], row[i]);
      } else {
        PutFills(e.out[i], base[i], None);
        AdvanceOpens(PutNull(e.out[i]), base[i], None);
      }
    }
    hide Filled1, Open, Sound;
  }

  // ---------------------------------------------------------------- scripts

  /** No tag, and no cell set twice in a row; `given` says which are set already. */
  predicate Clean(acts: seq<Action>, given: seq<bool>)
    decreases |acts|
  {
    acts == [] ||
    match acts[0]
    case Tag(_, _) => false
    case Commit => Clean(acts[1..], seq(|given|, _ => false))
    case _ => acts[0].col < |given| && !given[acts[0].col] && Clean(acts[1..], given[acts[0].col := true])
  }

  /** The rows a clean script writes, `row` being what is set already. */
  function RowsOf(acts: seq<Action>, row: seq<Option<Cell>>): (rows: seq<seq<Option<Cell>>>)
    ensures forall k :: 0 <= k < |rows| ==> |rows[k]| == |row|
    decreases |acts|
  {
    if acts == [] then []
    else if acts[0] == Commit then [row] + RowsOf(acts[1..], Blank(|row|))
    else if IsSetter(acts[0]) && acts[0].col < |row| then RowsOf(acts[1..], row[acts[0].col := CellOf(acts[0])])
    else RowsOf(acts[1..], row)
  }

  function Column(rows: seq<seq<Option<Cell>>>, i: nat): (s: seq<Option<Cell>>)
    requires forall k :: 0 <= k < |rows| ==> i < |rows[k]|
    ensures |s| == |rows|
  {
    seq(|rows|, k requires 0 <= k < |rows| => rows[k][i])
  }

  /** What each column holds once more rows are committed behind `base`. */
  function Extended(base: seq<seq<Option<Cell>>>, rows: seq<seq<Option<Cell>>>): (r: seq<seq<Option<Cell>>>)
    requires forall k :: 0 <= k < |rows| ==> |rows[k]| == |base|
    ensures |r| == |base|
  {
    seq(|base|, i requires 0 <= i < |base| => base[i] + Column(rows, i))
  }

  lemma ExtendedTwice(base: seq<seq<Option<Cell>>>, row: seq<Option<Cell>>, rows: seq<seq<Option<Cell>>>)
    requires |row| == |base| && forall k :: 0 <= k < |rows| ==> |rows[k]| == |base|
    ensures var next := seq(|base|, i requires 0 <= i < |base| => base[i] + [row[i]]);
            Extended(next, rows) == Extended(base, [row] + rows)
    ensures Extended(base, []) == base
  {
    forall i | 0 <= i < |base| ensures base[i] + [row[i]] + Column(rows, i) == base[i] + Column([row] + rows, i) {
      assert Column([row] + rows, i) == [row[i]] + Column(rows, i);
    }
    forall i | 0 <= i < |base| ensures base[i] + Column([], i) == base[i] {}
  }

  /** Running a clean script of whole rows appends exactly its rows. */
  lemma {:induction false} ScriptStages(e: Emitter, acts: seq<Action>, base: seq<seq<Option<Cell>>>, row: seq<Option<Cell>>, open: bool)
    requires Holds(e, base, row) && FitsAll(e, acts) && Clean(acts, e.pending)
    requires (!open ==> NothingOpen(e) && row == Blank(|row|)) && !LeavesOpen(acts, open)
    ensures Holds(Acts(e, acts), Extended(base, RowsOf(acts, row)), Blank(|row|)) && NothingOpen(Acts(e, acts))
    decreases |acts|
  {
    ExtendedTwice(base, row, []);
    if acts != [] {
      var a, rest := acts[0], acts[1..];
      var next := Act(e, a);
      ActKeepsSound(e, a);
      FitsCarries(e, next, rest);
      if a == Commit {
        var more := seq(|base|, i requires 0 <= i < |base| => base[i] + [row[i]]);
        CommitHolds(e, base, row);
        ClearedPending(e);
        ExtendedTwice(base, row, RowsOf(rest, Blank(|row|)));
        hide Sound, Holds, Act;
        ScriptStages(next, rest, more, Blank(|row|), false);
      } else {
        SetterHolds(e, a, base, row);
        hide Sound, Holds, Act;
        ScriptStages(next, rest, base, row[a.col := CellOf(a)], true);
      }
    }
  }

  lemma ClearedPending(e: Emitter)
    requires Sound(e)
    ensures Act(e, Commit).pending == seq(|e.pending|, _ => false)
  {
    hide Filled, Advanced, ErrorRow;
  }

  // ---------------------------------------------------------------- whole runs

  lemma {:induction false} RowsConcat(a: seq<Action>, b: seq<Action>, row: seq<Option<Cell>>, open: bool)
    requires !LeavesOpen(a, open) && (!open ==> row == Blank(|row|))
    ensures RowsOf(a + b, row) == RowsOf(a, row) + RowsOf(b, Blank(|row|))
    decreases |a|
  {
    if a == [] {
      assert a + b == b;
    } else {
      assert (a + b)[1..] == a[1..] + b;
      var next := if a[0] == Commit then Blank(|row|)
                  else if IsSetter(a[0]) && a[0].col < |row| then row[a[0].col := CellOf(a[0])] else row;
      RowsConcat(a[1..], b, next, match a[0] case Commit => false case Tag(_, _) => open case _ => true);
      if a[0] == Commit {
        assert [row] + (RowsOf(a[1..], next) + RowsOf(b, Blank(|row|))) == [row] + RowsOf(a[1..], next) + RowsOf(b, Blank(|row|));
      }
    }
  }

  lemma ColumnConcat(a: seq<seq<Option<Cell>>>, b: seq<seq<Option<Cell>>>, i: nat)
    requires (forall k :: 0 <= k < |a| ==> i < |a[k]|) && (forall k :: 0 <= k < |b| ==> i < |b[k]|)
    ensures Column(a + b, i) == Column(a, i) + Column(b, i)
  {}

  lemma {:induction false} LeavesConcat(a: seq<Action>, b: seq<Action>, open: bool)
    requires !LeavesOpen(a, open)
    ensures LeavesOpen(a + b, open) == LeavesOpen(b, false)
    decreases |a|
  {
    if a == [] {
      assert a + b == b;
    } else {
      assert (a + b)[1..] == a[1..] + b;
      LeavesConcat(a[1..], b, match a[0] case Commit => false case Tag(_, _) => open case _ => true);
    }
  }

  predicate Shapely(batches: seq<seq<Col>>, n: nat) {
    forall k :: 0 <= k < |batches| ==> |batches[k]| == n && AllShaped(batches[k])
  }

  /** The batches handed out hold exactly these rows in one column. */
  predicate Told(batches: seq<seq<Col>>, n: nat, i: nat, kind: Kind, rows: seq<Option<Cell>>)
    requires Shapely(batches, n) && i < n
  {
    if batches == [] then rows == []
    else
      var k := |batches| - 1;
      var c := batches[k][i];
      && c.kind == kind && c.n <= |rows| && Open(c, rows[|rows| - c.n..])
      && Told(batches[..k], n, i, kind, rows[..|rows| - c.n])
  }

  predicate CleanPull(p: Pull, n: nat) { p.Rows? ==> Clean(p.actions, seq(n, _ => false)) }

  /** User code never tags a row and sets no cell twice. */
  predicate AllClean(m: Machine) {
    CleanPull(m.post, |m.e.out|) && forall k :: 0 <= k < |m.pulls| ==> CleanPull(m.pulls[k], |m.e.out|)
  }

  function Tail(rows: seq<Option<Cell>>, n: nat): seq<Option<Cell>> { if n <= |rows| then rows[|rows| - n..] else rows }

  /** The batches handed out, then what is staged in the column, hold these rows. */
  predicate TellsRows(main: seq<seq<Col>>, n: nat, i: nat, c: Col, rows: seq<Option<Cell>>)
    requires Shapely(main, n) && i < n
  {
    c.n <= |rows| && Open(c, Tail(rows, c.n)) && Told(main, n, i, c.kind, rows[..|rows| - c.n])
  }

  /** What user code wrote into a column. */
  function RowsWritten(executed: seq<Action>, n: nat, i: nat): seq<Option<Cell>>
    requires i < n
  {
    Column(RowsOf(executed, Blank(n)), i)
  }

  /** One column's batches and staging hold the rows written so far. */
  predicate TellsColumn(main: seq<seq<Col>>, out: seq<Col>, executed: seq<Action>, i: nat)
    requires Shapely(main, |out|) && i < |out|
  {
    TellsRows(main, |out|, i, out[i], RowsWritten(executed, |out|, i))
  }

  /** The same for all columns, between two calls. */
  predicate Tells(m: Machine) {
    && Sound(m.e) && m.e.tag.None? && Shapely(m.main, |m.e.out|) && !LeavesOpen(m.executed, false)
    && forall i :: 0 <= i < |m.e.out| ==> TellsColumn(m.main, m.e.out, m.executed, i)
  }

  function Bases(out: seq<Col>, executed: seq<Action>): (r: seq<seq<Option<Cell>>>)
    ensures |r| == |out|
  {
    seq(|out|, i requires 0 <= i < |out| => Tail(RowsWritten(executed, |out|, i), out[i].n))
  }

  lemma TellsHolds(m: Machine)
    requires Tells(m) && NothingOpen(m.e)
    ensures Holds(m.e, Bases(m.e.out, m.executed), Blank(|m.e.out|)) && m.e.pending == seq(|m.e.out|, _ => false)
  {
    hide Shaped, Told, RowsWritten, Tail;
    forall i | 0 <= i < |m.e.out| ensures Open(m.e.out[i], Bases(m.e.out, m.executed)[i]) {
      assert TellsColumn(m.main, m.e.out, m.executed, i);
    }
    hide Open;
  }

  lemma ColumnTells(m: Machine, acts: seq<Action>, after: Emitter, i: nat)
    requires Tells(m) && i < |m.e.out| && SameShape(m.e, after) && !LeavesOpen(m.executed, false)
    requires Open(after.out[i], Tail(RowsWritten(m.executed, |m.e.out|, i), m.e.out[i].n) + RowsWritten(acts, |m.e.out|, i))
    ensures TellsColumn(m.main, after.out, m.executed + acts, i)
  {
    var n := |m.e.out|;
    assert TellsColumn(m.main, m.e.out, m.executed, i);
    WrittenConcat(m.executed, acts, n, i);
    hide RowsWritten, TellsRows, Open, Tail, Tells;
    TellsMore(m.main, n, i, m.e.out[i], RowsWritten(m.executed, n, i), after.out[i], RowsWritten(acts, n, i));
  }

  lemma WrittenConcat(a: seq<Action>, b: seq<Action>, n: nat, i: nat)
    requires i < n && !LeavesOpen(a, false)
    ensures RowsWritten(a + b, n, i) == RowsWritten(a, n, i) + RowsWritten(b, n, i)
  {
    RowsConcat(a, b, Blank(n), false);
    hide RowsOf, Column, LeavesOpen;
    ColumnConcat(RowsOf(a, Blank(n)), RowsOf(b, Blank(n)), i);
  }

  lemma TellsMore(main: seq<seq<Col>>, n: nat, i: nat, c: Col, rows: seq<Option<Cell>>, d: Col, more: seq<Option<Cell>>)
    requires Shapely(main, n) && i < n && TellsRows(main, n, i, c, rows) && Open(d, Tail(rows, c.n) + more) && d.kind == c.kind
    ensures TellsRows(main, n, i, d, rows + more)
  {
    hide *;
    TellsRowsParts(main, n, i, c, rows);
    OpenCounts(d, Tail(rows, c.n) + more);
    TailMore(rows, more, c.n);
    MakesTells(main, n, i, d, rows + more);
  }

  lemma TellsRowsParts(main: seq<seq<Col>>, n: nat, i: nat, c: Col, rows: seq<Option<Cell>>)
    requires Shapely(main, n) && i < n && TellsRows(main, n, i, c, rows)
    ensures c.n <= |rows| && Open(c, Tail(rows, c.n)) && Told(main, n, i, c.kind, rows[..|rows| - c.n])
  {
    hide Open, Told, Tail, Shapely;
  }

  lemma MakesTells(main: seq<seq<Col>>, n: nat, i: nat, c: Col, rows: seq<Option<Cell>>)
    requires Shapely(main, n) && i < n
    requires c.n <= |rows| && Open(c, Tail(rows, c.n)) && Told(main, n, i, c.kind, rows[..|rows| - c.n])
    ensures TellsRows(main, n, i, c, rows)
  {
    hide Open, Told, Tail, Shapely;
  }

  lemma TailMore(rows: seq<Option<Cell>>, more: seq<Option<Cell>>, n: nat)
    requires n <= |rows|
    ensures |Tail(rows, n)| == n && Tail(rows + more, n + |more|) == Tail(rows, n) + more
    ensures (rows + more)[..|rows + more| - (n + |more|)] == rows[..|rows| - n]
  {
    CutBehind(rows, more, n);
  }

  lemma OpenCounts(c: Col, base: seq<Option<Cell>>)
    requires Open(c, base)
    ensures c.n == |base|
  {}

  lemma CutBehind(rows: seq<Option<Cell>>, more: seq<Option<Cell>>, n: nat)
    requires n <= |rows|
    ensures (rows + more)[..|rows + more| - (n + |more|)] == rows[..|rows| - n]
    ensures (rows + more)[|rows + more| - (n + |more|)..] == rows[|rows| - n..] + more
  {}

  lemma PerformTells(m: Machine, acts: seq<Action>)
    requires Runs(m) && FitsAll(m.e, acts) && !LeavesOpen(acts, false) && Tells(m) && Clean(acts, seq(|m.e.out|, _ => false))
    ensures Tells(Perform(m, acts))
  {
    var r := Perform(m, acts);
    TellsHolds(m);
    ScriptStages(m.e, acts, Bases(m.e.out, m.executed), Blank(|m.e.out|), false);
    LeavesConcat(m.executed, acts, false);
    hide Acts, LeavesOpen, Clean, Typed, FitsAll, Shaped, Open, TellsColumn, RowsOf, Column, Tail, Filled1;
    forall i | 0 <= i < |m.e.out|
      ensures TellsColumn(r.main, r.e.out, r.executed, i)
    {
      ColumnTells(m, acts, r.e, i);
    }
  }

  lemma FinishTells(m: Machine, port: nat)
    requires Runs(m) && Tells(m) && AllClean(m)
    ensures Tells(Finish(m, port).0) && AllClean(Finish(m, port).0)
  {
    var acts := if m.post.Rows? then m.post.actions else [];
    PerformTells(m, acts);
    var p := Perform(m, acts);
    hide Perform, Runs, Tells, LeavesOpen, FitsAll, Clean;
    TellsCarries(p, Finish(m, port).0);
  }

  /** Nothing else in the component matters for what it tells. */
  lemma TellsCarries(a: Machine, b: Machine)
    requires Tells(a) && b.e == a.e && b.main == a.main && b.executed == a.executed
    ensures Tells(b)
  {
    hide TellsColumn, Sound, LeavesOpen, Shapely;
  }

  lemma {:induction false} FillTells(m: Machine, port: nat)
    requires Runs(m) && Tells(m) && AllClean(m)
    ensures Tells(Fill(m, port).0) && AllClean(Fill(m, port).0)
    decreases |m.pulls|, !m.eofSeen
  {
    if RowCount(m.e, port) == 0 {
      if m.eofSeen {
        if !m.posted { FinishTells(m, port); }
        hide Finish, Tells, AllClean;
      } else if m.pulls == [] {
        TellsCarries(m, m.(eofSeen := true));
        FillTells(m.(eofSeen := true), port);
        hide Tells, AllClean;
      } else {
        var rest := m.(pulls := m.pulls[1..]);
        TellsCarries(m, rest);
        assert Runs(rest) && AllClean(rest) && CleanPull(m.pulls[0], |m.e.out|) && PullFits(rest.e, m.pulls[0]) && WholeRows(m.pulls[0]);
        if m.pulls[0].Rows? {
          var acts := m.pulls[0].actions;
          PerformTells(rest, acts);
          var next := Perform(rest, acts);
          assert AllClean(next);
          hide Perform, Tells, AllClean, Runs, Clean;
          if m.pulls[0].ok { FillTells(next, port); }
        }
      }
    }
  }

  lemma ShapelySnoc(main: seq<seq<Col>>, cols: seq<Col>)
    requires Shapely(main, |cols|) && AllShaped(cols)
    ensures Shapely(main + [cols], |cols|)
  {
    hide Shaped;
  }

  lemma NewColumnIsOpen(kind: Kind)
    ensures Open(NewCol(kind), [])
  {}

  /** Handing out the main staging moves its rows to the delivered ones. */
  lemma ColumnFlushTells(main: seq<seq<Col>>, out: seq<Col>, executed: seq<Action>, i: nat)
    requires AllShaped(out) && Shapely(main, |out|) && i < |out| && TellsColumn(main, out, executed, i)
    ensures Shapely(main + [out], |out|) && TellsColumn(main + [out], Emptied(out), executed, i)
  {
    ShapelySnoc(main, out);
    hide Shapely, Shaped, TellsRows, RowsWritten;
    TellsFlushed(main, out, i, RowsWritten(executed, |out|, i));
  }

  lemma TellsFlushed(main: seq<seq<Col>>, out: seq<Col>, i: nat, rows: seq<Option<Cell>>)
    requires Shapely(main, |out|) && Shapely(main + [out], |out|) && i < |out|
    requires TellsRows(main, |out|, i, out[i], rows)
    ensures TellsRows(main + [out], |out|, i, NewCol(out[i].kind), rows)
  {
    NewColumnIsOpen(out[i].kind);
    ToldSnoc(main, out, i, rows);
    assert Tail(rows, 0) == [] && rows[..|rows|] == rows;
    hide Open, Shapely, Told;
  }

  lemma ToldSnoc(main: seq<seq<Col>>, out: seq<Col>, i: nat, rows: seq<Option<Cell>>)
    requires Shapely(main, |out|) && Shapely(main + [out], |out|) && i < |out|
    requires TellsRows(main, |out|, i, out[i], rows)
    ensures Told(main + [out], |out|, i, out[i].kind, rows)
  {
    assert (main + [out])[..|main|] == main && (main + [out])[|main|] == out;
    hide Open, Shapely;
  }

  lemma FlushTells(m: Machine, port: nat)
    requires Runs(m) && PortOf(m.e, port) && Tells(m) && AllClean(m)
    ensures Tells(Flushed(m, port)) && AllClean(Flushed(m, port))
  {
    FlushedEmitter(m, port);
    hide TellsColumn, Typed, Shaped, Shapely, RowCount, Clean, LeavesOpen;
    if port == 0 {
      ShapelySnoc(m.main, m.e.out);
      forall i | 0 <= i < |m.e.out|
        ensures TellsColumn(m.main + [m.e.out], Emptied(m.e.out), m.executed, i)
      {
        ColumnFlushTells(m.main, m.e.out, m.executed, i);
      }
    }
  }

  /** However the ports are asked, the buffers port 0 handed out, followed by those staged for
      it, hold exactly the rows user code wrote, in order. */
  lemma {:induction false} RunsHoldTheRows(m: Machine, asked: seq<nat>)
    requires Good(m) && PortsOf(m.e, asked) && Tells(m) && AllClean(m)
    ensures Tells(Ask(m, asked).m) && AllClean(Ask(m, asked).m)
    decreases |asked|
  {
    if asked != [] {
      var k := |asked| - 1;
      RunsHoldTheRows(m, asked[..k]);
      var before := Ask(m, asked[..k]).m;
      PortCarries(m.e, before.e, asked[k]);
      hide Good, SameShape, Tells, AllClean, GetNext;
      GetNextTells(before, asked[k]);
    }
  }

  lemma GetNextTells(m: Machine, port: nat)
    requires Good(m) && PortOf(m.e, port) && Tells(m) && AllClean(m)
    ensures Tells(GetNext(m, port).0) && AllClean(GetNext(m, port).0)
  {
    var start := m.(e := m.e.(tag := None));
    assert start == m;
    UntaggedIsGood(m);
    FillTells(start, port);
    FillIsGood(start, port);
    GetNextIsFill(m, port);
    var (f, how) := Fill(start, port);
    hide Fill, Tells, AllClean, GetNext, SameShape, Flush, Conserved, Lifecycle, Runs;
    if how == HasRows {
      PortCarries(m.e, f.e, port);
      FlushTells(f, port);
      FlushSucceeds(f, port);
    }
  }

  lemma BeginTells(kinds: seq<Kind>, errEnabled: bool, errWired: bool, pulls: seq<Pull>, post: Pull, cleanupOk: bool)
    requires kinds != [] && Typed(Begin(kinds, errEnabled, errWired, pulls, post, cleanupOk))
    ensures Tells(Begin(kinds, errEnabled, errWired, pulls, post, cleanupOk))
  {
    BeginIsGood(kinds, errEnabled, errWired, pulls, post, cleanupOk);
    hide Typed, Conserved;
  }
}
