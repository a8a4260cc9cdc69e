/**
 Growable output columns and row routing of the .NET pipeline component
 (providers/betl-dotnet/dotnet_provider.c). User code is a list of the setter, tagging and
 commit calls it makes.
 */
module Staging {
  import opened Text

  /** Integers, floats and booleans; text; byte strings; GUIDs and decimals. The last three
      share offsets and bytes, but not the treatment of nulls. */
  datatype Kind = Fixed | Utf8 | Binary | Fixed16

  /** One staged column: `n` committed rows in buffers of `cap`. Fixed-width values of every
      width are one sequence; everything else is offsets into bytes. None is memory that
      nothing has been written to. */
  datatype Col = Col(kind: Kind, n: nat, cap: nat, nulls: seq<bool>, vals: seq<Option<int>>, offsets: seq<Option<nat>>, data: string)

  function NewCol(kind: Kind): Col { Col(kind, 0, 0, [], [], [], "") }

  /** The doubling of ds_out_reserve and sc_col_reserve. */
  function Doubled(nc: nat, want: nat): (r: nat)
    requires nc > 0
    ensures r >= want && r >= nc
    decreases want - nc
  {
    if nc < want then Doubled(nc * 2, want) else nc
  }

  /** Some buffer of the wanted length that keeps what was there; the new part holds `fill`. */
  function Grown<T>(s: seq<T>, len: nat, fill: T): (r: seq<T>)
    requires |s| <= len
    ensures |r| == len && r[..|s|] == s && forall i :: |s| <= i < len ==> r[i] == fill
  {
    s + seq(len - |s|, _ => fill)
  }

  predicate Shaped(c: Col) {
    && |c.nulls| == c.cap && c.n <= c.cap
    && (c.kind == Fixed ==> |c.vals| == c.cap)
    && (c.kind != Fixed ==>
          && |c.offsets| == (if c.cap == 0 then 0 else c.cap + 1)
          && (c.cap > 0 ==> c.offsets[0] == Some(0))
          && forall i :: 0 <= i < |c.offsets| && c.offsets[i].Some? ==> c.offsets[i].value <= |c.data|)
  }

  /** The offsets of a larger buffer; a new one starts with zero. */
  function GrownOffsets(s: seq<Option<nat>>, len: nat): (r: seq<Option<nat>>)
    requires |s| <= len && len > 0
    ensures |r| == len && forall i :: 0 <= i < len ==> r[i] == if i < |s| then s[i] else if i == 0 then Some(0) else None
  {
    if s == [] then Grown([Some(0)], len, None) else Grown(s, len, None)
  }

  /** ds_out_reserve: new null flags are clear, new values and offsets undefined. */
  function Reserve(c: Col, want: nat): (r: Col)
    requires Shaped(c)
    ensures Shaped(r) && r.cap >= want && r.kind == c.kind && r.n == c.n && r.data == c.data
  {
    if want <= c.cap then c
    else
      var nc := Doubled(if c.cap > 0 then c.cap else 64, want);
      c.(cap := nc,
         nulls := Grown(c.nulls, nc, false),
         vals := if c.kind == Fixed then Grown(c.vals, nc, None) else c.vals,
         offsets := if c.kind != Fixed then GrownOffsets(c.offsets, nc + 1) else c.offsets)
  }

  // ---------------------------------------------------------------- one cell at the next row

  function PutInt(c: Col, v: int): (r: Col)
    requires Shaped(c) && c.kind == Fixed
    ensures Shaped(r) && r.n == c.n && r.kind == c.kind && r.cap > r.n
  {
    var g := Reserve(c, c.n + 1);
    g.(vals := g.vals[g.n := Some(v)])
  }

  /** emit_set_utf8, for everything that is stored as bytes. */
  function PutBytes(c: Col, s: string): (r: Col)
    requires Shaped(c) && c.kind != Fixed
    ensures Shaped(r) && r.n == c.n && r.kind == c.kind && r.cap > r.n
  {
    var g := Reserve(c, c.n + 1);
    var data := g.data + s;
    g.(data := data, offsets := g.offsets[g.n + 1 := Some(|data|)])
  }

  /** emit_set_null and the fill of unset cells: only text records where the null ends. */
  function PutNull(c: Col): (r: Col)
    requires Shaped(c)
    ensures Shaped(r) && r.n == c.n && r.kind == c.kind && r.cap > r.n
  {
    var g := Reserve(c, c.n + 1);
    g.(nulls := g.nulls[g.n := true],
       offsets := if g.kind == Utf8 then g.offsets[g.n + 1 := Some(|g.data|)] else g.offsets)
  }

  function Advance(c: Col): (r: Col)
    requires Shaped(c) && c.n < c.cap
    ensures Shaped(r) && r.n == c.n + 1
  {
    c.(n := c.n + 1)
  }

  /** The bytes of a cell whose ends are both recorded. */
  function Piece(src: Col, i: nat): string
    requires Shaped(src) && src.kind != Fixed && i < src.cap
  {
    match (src.offsets[i], src.offsets[i + 1])
    case (Some(lo), Some(hi)) => if lo <= hi then src.data[lo..hi] else ""
    case _ => ""
  }

  /** dpc_copy_cell; `dst` is at its own next row. Byte strings, GUIDs and decimals are not
      copied, only their null flags. */
  function CopyCell(src: Col, i: nat, dst: Col): (r: Col)
    requires Shaped(src) && Shaped(dst) && i < src.cap && src.kind == dst.kind
    ensures Shaped(r) && r.n == dst.n && r.kind == dst.kind && r.cap > r.n
  {
    var g := Reserve(dst, dst.n + 1);
    var h := g.(nulls := g.nulls[g.n := src.nulls[i]]);
    match src.kind
    case Fixed => h.(vals := h.vals[h.n := src.vals[i]])
    case Utf8 =>
      var data := h.data + Piece(src, i);
      h.(data := data, offsets := h.offsets[h.n + 1 := Some(|data|)])
    case _ => h
  }

  // ---------------------------------------------------------------- the emitter

  /** Calls user code makes through the emit context. */
  datatype Action =
    | SetInt(col: nat, v: int)
    | SetBytes(col: nat, s: string)
    | SetNull(col: nat)
    | Tag(code: int, column: int)
    | Commit

  datatype Tagged = Tagged(code: int, column: int)

  /** Both stagings. `errEnabled` tells whether the component has an error output at all,
      `errWired` whether someone reads it. */
  datatype Emitter = Emitter(
    out: seq<Col>,
    pending: seq<bool>,
    err: seq<Col>,
    errEnabled: bool,
    errWired: bool,
    tag: Option<Tagged>,
    dropped: nat)

  predicate SameCount(cols: seq<Col>) { forall i :: 0 <= i < |cols| ==> cols[i].n == cols[0].n }

  predicate AllShaped(cols: seq<Col>) { forall i :: 0 <= i < |cols| ==> Shaped(cols[i]) }

  /** What every call keeps: columns agree on the row count, a set column has room for the
      next row, and the error output mirrors the main one plus code and column. */
  predicate Sound(e: Emitter) {
    && e.out != [] && |e.pending| == |e.out| && AllShaped(e.out) && SameCount(e.out)
    && (forall i :: 0 <= i < |e.out| && e.pending[i] ==> e.out[i].n < e.out[i].cap)
    && (e.errEnabled ==>
          && |e.err| == |e.out| + 2 && AllShaped(e.err) && SameCount(e.err)
          && (forall i :: 0 <= i < |e.out| ==> e.err[i].kind == e.out[i].kind)
          && e.err[|e.out|].kind == Fixed && e.err[|e.out| + 1].kind == Fixed)
    && (e.tag.Some? ==> e.errEnabled)
  }

  /** The setter exists for the column's type. */
  predicate Fits(e: Emitter, a: Action) {
    match a
    case SetInt(col, _) => col < |e.out| && e.out[col].kind == Fixed
    case SetBytes(col, _) => col < |e.out| && e.out[col].kind != Fixed
    case SetNull(col) => col < |e.out|
    case _ => true
  }

  function WithCol(e: Emitter, col: nat, c: Col): Emitter
    requires col < |e.out| && col < |e.pending|
  {
    e.(out := e.out[col := c], pending := e.pending[col := true])
  }

  /** Columns the user left unset become null. */
  function Filled(cols: seq<Col>, pending: seq<bool>): (r: seq<Col>)
    requires |pending| == |cols| && AllShaped(cols)
    requires forall i :: 0 <= i < |cols| && pending[i] ==> cols[i].n < cols[i].cap
    ensures |r| == |cols| && AllShaped(r)
    ensures forall i :: 0 <= i < |cols| ==> r[i] == if pending[i] then cols[i] else PutNull(cols[i])
    ensures forall i :: 0 <= i < |cols| ==> r[i].n == cols[i].n && r[i].kind == cols[i].kind && r[i].n < r[i].cap
  {
    seq(|cols|, i requires 0 <= i < |cols| => if pending[i] then cols[i] else PutNull(cols[i]))
  }

  function Advanced(cols: seq<Col>): (r: seq<Col>)
    requires AllShaped(cols) && forall i :: 0 <= i < |cols| ==> cols[i].n < cols[i].cap
    ensures |r| == |cols| && AllShaped(r)
    ensures forall i :: 0 <= i < |cols| ==> r[i] == Advance(cols[i]) && r[i].n == cols[i].n + 1 && r[i].kind == cols[i].kind
  {
    seq(|cols|, i requires 0 <= i < |cols| => Advance(cols[i]))
  }

  /** The row at the main staging's next slot, copied behind the error rows with its tag. */
  function ErrorRow(out: seq<Col>, err: seq<Col>, tag: Tagged): (r: seq<Col>)
    requires |err| == |out| + 2 && AllShaped(out) && AllShaped(err)
    requires forall i :: 0 <= i < |out| ==> out[i].n < out[i].cap && err[i].kind == out[i].kind
    requires err[|out|].kind == Fixed && err[|out| + 1].kind == Fixed
    ensures |r| == |err| && AllShaped(r)
    ensures forall i :: 0 <= i < |err| ==> r[i].n == err[i].n && r[i].kind == err[i].kind && r[i].n < r[i].cap
  {
    var k := |out|;
    seq(|err|, i requires 0 <= i < |err| =>
      if i < k then CopyCell(out[i], out[i].n, err[i])
      else if i == k then Unnull(PutInt(err[i], tag.code))
      else Unnull(PutInt(err[i], tag.column)))
  }

  function Unnull(c: Col): (r: Col)
    requires Shaped(c) && c.n < c.cap
    ensures Shaped(r) && r.n == c.n && r.kind == c.kind && r.cap == c.cap
  {
    c.(nulls := c.nulls[c.n := false])
  }

  /** emit_commit_row: to the main output, to the error output, or nowhere. */
  function CommitRow(e: Emitter): Emitter
    requires Sound(e)
  {
    var filled := Filled(e.out, e.pending);
    var none := seq(|e.out|, _ => false);
    if e.tag.None? then e.(out := Advanced(filled), pending := none)
    else if e.errWired then
      e.(out := filled, pending := none, err := Advanced(ErrorRow(filled, e.err, e.tag.value)), tag := None)
    else e.(out := filled, pending := none, tag := None, dropped := e.dropped + 1)
  }

  function Act(e: Emitter, a: Action): Emitter
    requires Sound(e) && Fits(e, a)
  {
    match a
    case SetInt(col, v) => WithCol(e, col, PutInt(e.out[col], v))
    case SetBytes(col, s) => WithCol(e, col, PutBytes(e.out[col], s))
    case SetNull(col) => WithCol(e, col, PutNull(e.out[col]))
    case Tag(code, column) => if e.errEnabled then e.(tag := Some(Tagged(code, column))) else e
    case Commit => CommitRow(e)
  }

  /** Every call keeps both stagings sound, whatever order user code makes them in. */
  lemma ActKeepsSound(e: Emitter, a: Action)
    requires Sound(e) && Fits(e, a)
    ensures Sound(Act(e, a))
    ensures |Act(e, a).out| == |e.out| && Act(e, a).errEnabled == e.errEnabled && Act(e, a).errWired == e.errWired
    ensures forall i :: 0 <= i < |e.out| ==> Act(e, a).out[i].kind == e.out[i].kind
  {
    if a == Commit {
      CommitKeepsSound(e);
      hide CommitRow, Sound, Fits;
    } else {
      match a
      case SetInt(col, v) => WithColKeepsSound(e, col, PutInt(e.out[col], v));
      case SetBytes(col, s) => WithColKeepsSound(e, col, PutBytes(e.out[col], s));
      case SetNull(col) => WithColKeepsSound(e, col, PutNull(e.out[col]));
      case _ =>
      hide PutInt, PutBytes, PutNull, CommitRow, Shaped, WithCol;
    }
  }

  /** A cell put in one column leaves the others and the row counts alone. */
  lemma WithColKeepsSound(e: Emitter, col: nat, c: Col)
    requires Sound(e) && col < |e.out| && Shaped(c) && c.n == e.out[col].n < c.cap && c.kind == e.out[col].kind
    ensures var r := WithCol(e, col, c);
            && Sound(r) && |r.out| == |e.out| && r.errEnabled == e.errEnabled && r.errWired == e.errWired
            && forall i :: 0 <= i < |e.out| ==> r.out[i].kind == e.out[i].kind
  {
    hide Shaped;
  }

  lemma CommitKeepsSound(e: Emitter)
    requires Sound(e)
    ensures var r := CommitRow(e);
            && Sound(r) && |r.out| == |e.out| && r.errEnabled == e.errEnabled && r.errWired == e.errWired
            && forall i :: 0 <= i < |e.out| ==> r.out[i].kind == e.out[i].kind
  {
    hide PutInt, PutNull, Filled, Advanced, ErrorRow, Shaped;
  }

  function MainRows(e: Emitter): nat
    requires e.out != []
  {
    e.out[0].n
  }

  function ErrRows(e: Emitter): nat { if e.err == [] then 0 else e.err[0].n }

  /** A call other than a commit adds no row anywhere; a commit adds one row in exactly one
      place: dropped or the error output when tagged, else the main output. */
  lemma ActRoutes(e: Emitter, a: Action)
    requires Sound(e) && Fits(e, a)
    ensures var r := Act(e, a);
            && r.out != []
            && MainRows(r) == MainRows(e) + (if a == Commit && e.tag.None? then 1 else 0)
            && (e.errEnabled ==> ErrRows(r) == ErrRows(e) + (if a == Commit && e.tag.Some? && e.errWired then 1 else 0))
            && r.dropped == e.dropped + (if a == Commit && e.tag.Some? && !e.errWired then 1 else 0)
            && r.tag == (match a
                         case Commit => None
                         case Tag(code, column) => if e.errEnabled then Some(Tagged(code, column)) else e.tag
                         case _ => e.tag)
  {
    hide PutInt, PutBytes, PutNull, Filled, Advanced, ErrorRow, Shaped;
  }
}
