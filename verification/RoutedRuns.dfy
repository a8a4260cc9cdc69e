/**
 Both ports over whole runs against a component that keeps plain lists of rows: whatever user
 code does and however the ports are asked, every batch reads in its columns of numbers and
 text as the list component's batch, the error batches with the code and column of their tag.
 */
module RoutedRuns {
  import opened Text
  import opened Staging
  import opened Ports
  import opened PortsTheorems
  import opened StagedRows
  import opened StagedLeaves
  import opened RoutedRows

  // ---------------------------------------------------------------- the list component

  type Row = seq<Slot>

  datatype ErrRow = ErrRow(cells: Row, tag: Tagged)

  /** The open slots and which of them the current row has set, the rows not yet handed out,
      and the batches that were. */
  datatype Lists = Lists(
    slots: Row,
    given: seq<bool>,
    tag: Option<Tagged>,
    main: seq<Row>,
    errors: seq<ErrRow>,
    mainOut: seq<seq<Row>>,
    errorsOut: seq<seq<ErrRow>>)

  function Fresh(n: nat): (row: Row)
    ensures |row| == n && forall i :: 0 <= i < n ==> row[i] == FRESH
  {
    seq(n, _ => FRESH)
  }

  function NoneGiven(n: nat): (r: seq<bool>)
    ensures |r| == n && forall i :: 0 <= i < n ==> !r[i]
  {
    seq(n, _ => false)
  }

  /** Cells that were not set become null. */
  function Completed(slots: Row, given: seq<bool>): (row: Row)
    requires |given| == |slots|
    ensures |row| == |slots| && forall i :: 0 <= i < |row| ==> row[i] == if given[i] then slots[i] else After(slots[i], None)
  {
    seq(|slots|, i requires 0 <= i < |slots| => if given[i] then slots[i] else After(slots[i], None))
  }

  predicate Even(a: Lists) { |a.given| == |a.slots| }

  /** A commit: to the main rows, which frees the slots; or when tagged to the error rows if
      they are read, else nowhere, and the slots stay. */
  function Committed(a: Lists, wired: bool): (r: Lists)
    requires Even(a)
    ensures Even(r) && |r.slots| == |a.slots|
  {
    var cells, n := Completed(a.slots, a.given), |a.slots|;
    match a.tag
    case None => a.(slots := Fresh(n), given := NoneGiven(n), main := a.main + [cells])
    case Some(t) =>
      a.(slots := cells, given := NoneGiven(n), tag := None,
         errors := if wired then a.errors + [ErrRow(cells, t)] else a.errors)
  }

  function Step(a: Lists, enabled: bool, wired: bool, act: Action): (r: Lists)
    requires Even(a)
    ensures Even(r) && |r.slots| == |a.slots|
  {
    match act
    case Commit => Committed(a, wired)
    case Tag(code, column) => if enabled then a.(tag := Some(Tagged(code, column))) else a
    case _ =>
      if act.col >= |a.slots| then a
      else a.(slots := a.slots[act.col := After(a.slots[act.col], CellOf(act))], given := a.given[act.col := true])
  }

  function Steps(a: Lists, enabled: bool, wired: bool, acts: seq<Action>): (r: Lists)
    requires Even(a)
    ensures Even(r) && |r.slots| == |a.slots|
    decreases |acts|
  {
    if acts == [] then a else Steps(Step(a, enabled, wired, acts[0]), enabled, wired, acts[1..])
  }

  lemma {:induction false} StepsConcat(a: Lists, enabled: bool, wired: bool, p: seq<Action>, q: seq<Action>)
    requires Even(a)
    ensures Steps(a, enabled, wired, p + q) == Steps(Steps(a, enabled, wired, p), enabled, wired, q)
    decreases |p|
  {
    if p == [] {
      assert p + q == q;
    } else {
      assert (p + q)[1..] == p[1..] + q;
      StepsConcat(Step(a, enabled, wired, p[0]), enabled, wired, p[1..], q);
      hide Step;
    }
  }

  /** Handing out what a port has. Main rows leave with their buffers, open slots included. */
  function Handed(a: Lists, port: nat): (r: Lists)
    requires Even(a)
    ensures Even(r) && |r.slots| == |a.slots|
  {
    if port == 0 then a.(mainOut := a.mainOut + [a.main], main := [], slots := Fresh(|a.slots|))
    else a.(errorsOut := a.errorsOut + [a.errors], errors := [])
  }

  function Untagged(a: Lists): Lists { a.(tag := None) }

  // ---------------------------------------------------------------- columns of the lists

  /** One column of the rows. */
  function ColumnOf(rows: seq<Row>, i: nat): (s: seq<Slot>)
    ensures |s| == |rows|
  {
    seq(|rows|, k requires 0 <= k < |rows| => if i < |rows[k]| then rows[k][i] else FRESH)
  }

  /** The error rows' columns: those of the main output, then the code, then the column. */
  function ErrColumnOf(rows: seq<ErrRow>, n: nat, i: nat): (s: seq<Slot>)
    ensures |s| == |rows|
  {
    seq(|rows|, k requires 0 <= k < |rows| =>
      if i < n && i < |rows[k].cells| then rows[k].cells[i]
      else Slot(false, Some(if i == n then rows[k].tag.code else rows[k].tag.column), ""))
  }

  lemma ColumnSnoc(rows: seq<Row>, row: Row, i: nat)
    requires i < |row|
    ensures ColumnOf(rows + [row], i) == ColumnOf(rows, i) + [row[i]]
  {}

  lemma ErrColumnSnoc(rows: seq<ErrRow>, row: ErrRow, n: nat, i: nat)
    requires |row.cells| == n
    ensures ErrColumnOf(rows + [row], n, i) == ErrColumnOf(rows, n, i) + [
      if i < n then row.cells[i] else Slot(false, Some(if i == n then row.tag.code else row.tag.column), "")]
  {}

  // ---------------------------------------------------------------- one call of user code

  predicate MainAgrees(e: Emitter, a: Lists) {
    && |a.slots| == |e.out| && a.given == e.pending && |e.pending| == |e.out|
    && forall i :: 0 <= i < |e.out| && Plain(e.out[i].kind) ==>
         SlotIn(e.out[i], ColumnOf(a.main, i), a.slots[i], e.pending[i])
  }

  predicate ErrorsAgree(e: Emitter, a: Lists) {
    e.errEnabled ==>
      forall i :: 0 <= i < |e.err| && Plain(e.err[i].kind) ==>
        SlotIn(e.err[i], ErrColumnOf(a.errors, |e.out|, i), FRESH, false)
  }

  /** The stagings hold the lists. */
  predicate Agrees(e: Emitter, a: Lists) { Sound(e) && e.tag == a.tag && MainAgrees(e, a) && ErrorsAgree(e, a) }

  lemma SetterAgrees(e: Emitter, a: Lists, act: Action)
    requires Agrees(e, a) && Even(a) && Fits(e, act) && IsSetter(act)
    ensures Agrees(Act(e, act), Step(a, e.errEnabled, e.errWired, act))
  {
    hide *;
    AgreeParts(e, a);
    ActKeepsSound(e, act);
    SetterIsPut(e, act);
    SettersSet(act);
    var col, c := act.col, e.out[act.col];
    if Plain(c.kind) { PutSlot(c, ColumnOf(a.main, col), a.slots[col], e.pending[col], CellOf(act)); }
    ColumnAgrees(e, a, act, Put(c, CellOf(act)));
  }

  lemma AgreeParts(e: Emitter, a: Lists)
    requires Agrees(e, a)
    ensures |a.slots| == |a.given| == |e.out| == |e.pending| && a.given == e.pending
    ensures forall i :: 0 <= i < |e.out| && Plain(e.out[i].kind) ==>
              SlotIn(e.out[i], ColumnOf(a.main, i), a.slots[i], e.pending[i])
    ensures MainAgrees(e, a) && ErrorsAgree(e, a) && Sound(e) && e.tag == a.tag
  {
    hide SlotIn, Sound, Plain;
  }

  lemma SettersSet(act: Action)
    requires IsSetter(act)
    ensures act.SetInt? || act.SetBytes? || act.SetNull?
  {}

  lemma SetterIsPut(e: Emitter, act: Action)
    requires Sound(e) && Fits(e, act) && IsSetter(act)
    ensures act.col < |e.out| == |e.pending| && FitsKind(CellOf(act), e.out[act.col].kind) && Shaped(e.out[act.col])
    ensures Act(e, act) == WithCol(e, act.col, Put(e.out[act.col], CellOf(act)))
  {
    hide Shaped, PutInt, PutBytes, PutNull;
  }

  /** A column changed by a setter. */
  lemma ColumnAgrees(e: Emitter, a: Lists, act: Action, c: Col)
    requires Agrees(e, a) && Even(a) && IsSetter(act) && act.col < |e.out| == |e.pending| && Sound(WithCol(e, act.col, c))
    requires |a.slots| == |e.out| && c.kind == e.out[act.col].kind
    requires Plain(c.kind) ==> SlotIn(c, ColumnOf(a.main, act.col), After(a.slots[act.col], CellOf(act)), true)
    ensures Agrees(WithCol(e, act.col, c), Step(a, e.errEnabled, e.errWired, act))
  {
    hide Sound, SlotIn, After, ColumnOf, ErrColumnOf, CellOf, Plain;
  }

  lemma TagAgrees(e: Emitter, a: Lists, act: Action)
    requires Agrees(e, a) && Even(a) && act.Tag?
    ensures Agrees(Act(e, act), Step(a, e.errEnabled, e.errWired, act))
  {
    ActKeepsSound(e, act);
    hide Sound, SlotIn;
  }

  /** The main staging once the unset cells are filled. */
  function FilledOf(e: Emitter): (cols: seq<Col>)
    requires Sound(e)
    ensures |cols| == |e.out| == |e.pending| && AllShaped(cols)
    ensures forall i :: 0 <= i < |e.out| ==> cols[i].kind == e.out[i].kind && cols[i].n < cols[i].cap
  {
    Filled(e.out, e.pending)
  }

  /** The error staging with the tagged row behind it. */
  function ErrorsOf(e: Emitter): (cols: seq<Col>)
    requires Sound(e) && e.tag.Some?
    ensures |cols| == |e.err| == |e.out| + 2 && e.errEnabled
    ensures forall i :: 0 <= i < |cols| ==> cols[i].kind == e.err[i].kind
  {
    Advanced(ErrorRow(FilledOf(e), e.err, e.tag.value))
  }

  lemma CommitIs(e: Emitter)
    requires Sound(e)
    ensures Fits(e, Commit)
    ensures e.tag.None? ==> Act(e, Commit) == e.(out := Advanced(FilledOf(e)), pending := NoneGiven(|e.out|))
    ensures e.tag.Some? && e.errWired ==>
              Act(e, Commit) == e.(out := FilledOf(e), pending := NoneGiven(|e.out|), err := ErrorsOf(e), tag := None)
    ensures e.tag.Some? && !e.errWired ==>
              Act(e, Commit) == e.(out := FilledOf(e), pending := NoneGiven(|e.out|), tag := None, dropped := e.dropped + 1)
  {
    hide Sound, Filled, Advanced, ErrorRow;
    assert seq(|e.out|, _ => false) == NoneGiven(|e.out|);
  }

  /** The next row of every column once the unset cells are filled. */
  lemma FilledSlot(e: Emitter, a: Lists, i: nat)
    requires Sound(e) && MainAgrees(e, a) && i < |e.out| && Plain(e.out[i].kind)
    ensures SlotIn(FilledOf(e)[i], ColumnOf(a.main, i), Completed(a.slots, a.given)[i], true)
  {
    if !e.pending[i] { PutSlot(e.out[i], ColumnOf(a.main, i), a.slots[i], false, None); }
    hide SlotIn, PutNull, Shaped;
  }

  lemma ForgetEnd(c: Col, rows: seq<Slot>, open: Slot)
    requires SlotIn(c, rows, open, true)
    ensures SlotIn(c, rows, open, false)
  {
    hide RowsCommitted, Untouched, TextTo;
  }

  /** A row of the error output: the open slots, then code and column. */
  lemma ErrorSlot(e: Emitter, a: Lists, i: nat)
    requires Sound(e) && e.tag.Some? && MainAgrees(e, a) && ErrorsAgree(e, a)
    requires i < |ErrorsOf(e)| && Plain(e.err[i].kind)
    ensures SlotIn(ErrorsOf(e)[i], ErrColumnOf(a.errors + [ErrRow(Completed(a.slots, a.given), e.tag.value)], |e.out|, i), FRESH, false)
  {
    var n, done := |e.out|, ErrColumnOf(a.errors, |e.out|, i);
    var cells := Completed(a.slots, a.given);
    ErrorColumnIs(e, i);
    ErrColumnSnoc(a.errors, ErrRow(cells, e.tag.value), n, i);
    if i < n {
      var c := FilledOf(e)[i];
      FilledSlot(e, a, i);
      CopySlot(c, ColumnOf(a.main, i), cells[i], e.err[i], done);
      AdvanceSlot(CopyCell(c, c.n, e.err[i]), done, cells[i]);
    } else {
      var v := if i == n then e.tag.value.code else e.tag.value.column;
      NumberSlot(e.err[i], done, v);
      AdvanceSlot(Unnull(PutInt(e.err[i], v)), done, Slot(false, Some(v), ""));
    }
    hide SlotIn, Completed, CopyCell, PutInt, Unnull, Advance, Shaped, FilledOf, ErrorsOf, ErrColumnOf, ColumnOf;
  }

  lemma ErrorColumnIs(e: Emitter, i: nat)
    requires Sound(e) && e.tag.Some? && i < |ErrorsOf(e)|
    ensures Shaped(e.err[i])
    ensures i < |e.out| ==>
              var c := FilledOf(e)[i];
              && c.kind == e.out[i].kind == e.err[i].kind && Shaped(c) && c.n < c.cap
              && ErrorsOf(e)[i] == Advance(CopyCell(c, c.n, e.err[i]))
    ensures i >= |e.out| ==>
              && e.err[i].kind == Fixed
              && ErrorsOf(e)[i] == Advance(Unnull(PutInt(e.err[i], if i == |e.out| then e.tag.value.code else e.tag.value.column)))
  {
    hide Shaped, CopyCell, PutInt, Unnull, Filled, Advance;
  }

  lemma CommitAgrees(e: Emitter, a: Lists)
    requires Agrees(e, a) && Even(a)
    ensures Agrees(Act(e, Commit), Step(a, e.errEnabled, e.errWired, Commit))
  {
    hide *;
    AgreeParts(e, a);
    CommitIs(e);
    ActKeepsSound(e, Commit);
    if e.tag.None? {
      MainRowAgrees(e, a);
    } else {
      ErrorRowAgrees(e, a);
    }
  }

  lemma MainRowAgrees(e: Emitter, a: Lists)
    requires Agrees(e, a) && Even(a) && e.tag.None? && Sound(Act(e, Commit))
    ensures Agrees(Act(e, Commit), Step(a, e.errEnabled, e.errWired, Commit))
  {
    AgreeParts(e, a);
    CommitIs(e);
    var cells, filled := Completed(a.slots, a.given), FilledOf(e);
    forall i | 0 <= i < |e.out| && Plain(e.out[i].kind)
      ensures SlotIn(Advanced(filled)[i], ColumnOf(a.main + [cells], i), FRESH, false)
    {
      FilledSlot(e, a, i);
      ColumnSnoc(a.main, cells, i);
      AdvanceSlot(filled[i], ColumnOf(a.main, i), cells[i]);
    }
    hide SlotIn, Sound, Act, Filled, FilledOf, Completed, ColumnOf, ErrColumnOf, Plain;
  }

  lemma ErrorRowAgrees(e: Emitter, a: Lists)
    requires Agrees(e, a) && Even(a) && e.tag.Some? && Sound(Act(e, Commit))
    ensures Agrees(Act(e, Commit), Step(a, e.errEnabled, e.errWired, Commit))
  {
    hide *;
    AgreeParts(e, a);
    CommitIs(e);
    StepIs(a, e.errEnabled, e.errWired);
    var r, b := Act(e, Commit), Step(a, e.errEnabled, e.errWired, Commit);
    forall i | 0 <= i < |e.out| && Plain(e.out[i].kind)
      ensures SlotIn(FilledOf(e)[i], ColumnOf(a.main, i), Completed(a.slots, a.given)[i], false)
    {
      FilledSlot(e, a, i);
      ForgetEnd(FilledOf(e)[i], ColumnOf(a.main, i), Completed(a.slots, a.given)[i]);
    }
    MakesMain(r, b);
    if e.errWired {
      forall i | 0 <= i < |ErrorsOf(e)| && Plain(e.err[i].kind)
        ensures SlotIn(ErrorsOf(e)[i], ErrColumnOf(a.errors + [ErrRow(Completed(a.slots, a.given), e.tag.value)], |e.out|, i), FRESH, false)
      {
        ErrorSlot(e, a, i);
      }
      MakesErrors(r, b);
    } else {
      SameErrors(e, a, r, b);
    }
    MakesAgree(r, b);
  }

  lemma StepIs(a: Lists, enabled: bool, wired: bool)
    requires Even(a) && a.tag.Some?
    ensures var cells := Completed(a.slots, a.given);
            Step(a, enabled, wired, Commit)
            == a.(slots := cells, given := NoneGiven(|a.slots|), tag := None,
                  errors := if wired then a.errors + [ErrRow(cells, a.tag.value)] else a.errors)
  {
    hide Completed, NoneGiven;
  }

  lemma MakesMain(e: Emitter, a: Lists)
    requires |a.slots| == |e.out| == |e.pending| && a.given == e.pending == NoneGiven(|e.out|)
    requires forall i :: 0 <= i < |e.out| && Plain(e.out[i].kind) ==> SlotIn(e.out[i], ColumnOf(a.main, i), a.slots[i], false)
    ensures MainAgrees(e, a)
  {
    hide SlotIn, Plain, ColumnOf;
  }

  lemma MakesErrors(e: Emitter, a: Lists)
    requires forall i :: 0 <= i < |e.err| && Plain(e.err[i].kind) ==>
               SlotIn(e.err[i], ErrColumnOf(a.errors, |e.out|, i), FRESH, false)
    ensures ErrorsAgree(e, a)
  {
    hide SlotIn, Plain, ErrColumnOf;
  }

  lemma SameErrors(e: Emitter, a: Lists, r: Emitter, b: Lists)
    requires ErrorsAgree(e, a) && r.err == e.err && b.errors == a.errors && |r.out| == |e.out| && r.errEnabled == e.errEnabled
    ensures ErrorsAgree(r, b)
  {
    hide SlotIn, Plain, ErrColumnOf;
  }

  lemma MakesAgree(e: Emitter, a: Lists)
    requires Sound(e) && e.tag == a.tag && MainAgrees(e, a) && ErrorsAgree(e, a)
    ensures Agrees(e, a)
  {
    hide Sound, MainAgrees, ErrorsAgree;
  }

  lemma {:induction false} ActsAgree(e: Emitter, a: Lists, acts: seq<Action>)
    requires Agrees(e, a) && Even(a) && FitsAll(e, acts)
    ensures Agrees(Acts(e, acts), Steps(a, e.errEnabled, e.errWired, acts))
    decreases |acts|
  {
    if acts != [] {
      var act, next := acts[0], Act(e, acts[0]);
      ActKeepsSound(e, act);
      FitsCarries(e, next, acts[1..]);
      if act == Commit {
        CommitAgrees(e, a);
      } else if act.Tag? {
        TagAgrees(e, a, act);
      } else {
        SetterAgrees(e, a, act);
      }
      hide Act, Step, Agrees, Sound;
      ActsAgree(next, Step(a, e.errEnabled, e.errWired, act), acts[1..]);
    }
  }

  // ---------------------------------------------------------------- cells set once

  /** From free slots on, each cell was set at most once; `row` is what was set. */
  predicate Once(a: Lists, row: seq<Option<Cell>>) {
    && Even(a) && |row| == |a.slots|
    && forall i :: 0 <= i < |row| ==>
         if a.given[i] then a.slots[i] == After(FRESH, row[i]) else a.slots[i] == FRESH && row[i].None?
  }

  lemma SetOnce(a: Lists, row: seq<Option<Cell>>, enabled: bool, wired: bool, act: Action)
    requires Once(a, row) && IsSetter(act) && act.col < |row| && !a.given[act.col]
    ensures Once(Step(a, enabled, wired, act), row[act.col := CellOf(act)])
  {
    hide After, CellOf;
  }

  /** A row whose cells were set once is committed as set: to the main rows, or when tagged to
      the error rows with its code and column. */
  lemma OnceCommitted(a: Lists, row: seq<Option<Cell>>, enabled: bool, kinds: seq<Kind>)
    requires Once(a, row) && |kinds| == |row| && forall i :: 0 <= i < |row| ==> FitsKind(row[i], kinds[i])
    ensures var r := Step(a, enabled, true, Commit); var cells := Completed(a.slots, a.given);
            && (forall i :: 0 <= i < |row| ==> Seen(kinds[i], cells[i]) == ReadOf(row[i]))
            && (if a.tag.Some? then r.errors == a.errors + [ErrRow(cells, a.tag.value)] && r.main == a.main
                else r.main == a.main + [cells] && r.errors == a.errors && Once(r, StagedRows.Blank(|row|)))
  {
    forall i | 0 <= i < |row| ensures Seen(kinds[i], Completed(a.slots, a.given)[i]) == ReadOf(row[i]) {
      OnceIsSeen(kinds[i], row[i]);
    }
    hide Seen, After, FitsKind;
  }

  // ---------------------------------------------------------------- batches

  predicate HasKinds(e: Emitter, kinds: seq<Kind>) {
    && |e.out| == |kinds| && (forall i :: 0 <= i < |kinds| ==> e.out[i].kind == kinds[i])
    && (e.errEnabled ==> |e.err| == |kinds| + 2 && forall i :: 0 <= i < |e.err| ==> e.err[i].kind == (kinds + [Fixed, Fixed])[i])
  }

  /** A batch holds these rows. */
  predicate Held(cols: seq<Col>, kinds: seq<Kind>, rows: seq<Row>) {
    && |cols| == |kinds|
    && forall i :: 0 <= i < |kinds| ==>
         cols[i].kind == kinds[i] && (Plain(kinds[i]) ==> Carries(cols[i], ColumnOf(rows, i)))
  }

  predicate ErrHeld(cols: seq<Col>, kinds: seq<Kind>, rows: seq<ErrRow>) {
    && |cols| == |kinds| + 2
    && forall i :: 0 <= i < |cols| ==>
         && cols[i].kind == (kinds + [Fixed, Fixed])[i]
         && (Plain(cols[i].kind) ==> Carries(cols[i], ErrColumnOf(rows, |kinds|, i)))
  }

  predicate BatchesHeld(m: Machine, kinds: seq<Kind>, a: Lists) {
    && |m.main| == |a.mainOut| && (forall k :: 0 <= k < |m.main| ==> Held(m.main[k], kinds, a.mainOut[k]))
    && |m.errors| == |a.errorsOut| && (forall k :: 0 <= k < |m.errors| ==> ErrHeld(m.errors[k], kinds, a.errorsOut[k]))
  }

  /** The component and the list component agree. */
  predicate RunAgrees(m: Machine, kinds: seq<Kind>, a: Lists) {
    Even(a) && Agrees(m.e, a) && HasKinds(m.e, kinds) && BatchesHeld(m, kinds, a)
  }

  lemma KindsCarry(a: Emitter, b: Emitter, kinds: seq<Kind>)
    requires HasKinds(a, kinds) && SameShape(a, b) && Sound(b)
    ensures HasKinds(b, kinds)
  {
    hide Shaped;
  }

  lemma {:induction false} StepsKeepOut(a: Lists, enabled: bool, wired: bool, acts: seq<Action>)
    requires Even(a)
    ensures var r := Steps(a, enabled, wired, acts); r.mainOut == a.mainOut && r.errorsOut == a.errorsOut
    decreases |acts|
  {
    if acts != [] {
      StepsKeepOut(Step(a, enabled, wired, acts[0]), enabled, wired, acts[1..]);
      hide Completed, Fresh, NoneGiven, After, CellOf;
    }
  }

  lemma PerformAgrees(m: Machine, kinds: seq<Kind>, a: Lists, acts: seq<Action>)
    requires Runs(m) && FitsAll(m.e, acts) && !LeavesOpen(acts, false) && RunAgrees(m, kinds, a)
    ensures RunAgrees(Perform(m, acts), kinds, Steps(a, m.e.errEnabled, m.e.errWired, acts))
  {
    var r := Perform(m, acts);
    ActsAgree(m.e, a, acts);
    KindsCarry(m.e, r.e, kinds);
    StepsKeepOut(a, m.e.errEnabled, m.e.errWired, acts);
    hide Acts, Steps, Agrees, HasKinds, Sound, Typed, LeavesOpen, FitsAll, Held, ErrHeld;
  }

  /** Nothing else in the component matters. */
  lemma AgreesCarries(m: Machine, r: Machine, kinds: seq<Kind>, a: Lists)
    requires RunAgrees(m, kinds, a) && r.e == m.e && r.main == m.main && r.errors == m.errors
    ensures RunAgrees(r, kinds, a)
  {
    hide Agrees, HasKinds, Held, ErrHeld;
  }

  /** The calls user code made in between. */
  function NewActs(m: Machine, r: Machine): seq<Action> {
    if m.executed <= r.executed then r.executed[|m.executed|..] else []
  }

  lemma NewActsAre(m: Machine, r: Machine, acts: seq<Action>)
    requires r.executed == m.executed + acts
    ensures NewActs(m, r) == acts
  {}

  /** Where filling leads, told by the calls it made. */
  predicate Reaches(m: Machine, r: Machine, kinds: seq<Kind>, a: Lists) {
    && Even(a) && m.executed <= r.executed && r.e.errEnabled == m.e.errEnabled && r.e.errWired == m.e.errWired
    && RunAgrees(r, kinds, Steps(a, m.e.errEnabled, m.e.errWired, NewActs(m, r)))
  }

  /** A machine reached from one that is ahead by `acts`. */
  lemma ReachesBefore(m: Machine, mid: Machine, r: Machine, kinds: seq<Kind>, a: Lists, acts: seq<Action>)
    requires Even(a) && mid.executed == m.executed + acts
    requires mid.e.errEnabled == m.e.errEnabled && mid.e.errWired == m.e.errWired
    requires Reaches(mid, r, kinds, Steps(a, m.e.errEnabled, m.e.errWired, acts))
    ensures Reaches(m, r, kinds, a)
  {
    hide *;
    ReachesMore(mid, r, kinds, Steps(a, m.e.errEnabled, m.e.errWired, acts));
    var more := NewActs(mid, r);
    StepsConcat(a, m.e.errEnabled, m.e.errWired, acts, more);
    assert m.executed + acts + more == m.executed + (acts + more);
    ReachesNow(m, r, kinds, a, acts + more);
  }

  lemma ReachesMore(m: Machine, r: Machine, kinds: seq<Kind>, a: Lists)
    requires Reaches(m, r, kinds, a)
    ensures Even(a) && r.executed == m.executed + NewActs(m, r)
    ensures r.e.errEnabled == m.e.errEnabled && r.e.errWired == m.e.errWired
    ensures RunAgrees(r, kinds, Steps(a, m.e.errEnabled, m.e.errWired, NewActs(m, r)))
  {
    hide RunAgrees, Steps;
  }

  lemma ReachesNow(m: Machine, r: Machine, kinds: seq<Kind>, a: Lists, acts: seq<Action>)
    requires Even(a) && r.executed == m.executed + acts
    requires r.e.errEnabled == m.e.errEnabled && r.e.errWired == m.e.errWired
    requires RunAgrees(r, kinds, Steps(a, m.e.errEnabled, m.e.errWired, acts))
    ensures Reaches(m, r, kinds, a)
  {
    NewActsAre(m, r, acts);
    hide RunAgrees, Steps;
  }

  lemma NoSteps(m: Machine, kinds: seq<Kind>, a: Lists)
    requires RunAgrees(m, kinds, a)
    ensures Even(a) && Steps(a, m.e.errEnabled, m.e.errWired, []) == a && m.executed + [] == m.executed
  {
    hide Agrees, HasKinds, BatchesHeld;
  }

  lemma PerformShape(m: Machine, acts: seq<Action>)
    requires Runs(m) && FitsAll(m.e, acts) && !LeavesOpen(acts, false)
    ensures var r := Perform(m, acts);
            && Runs(r) && r.executed == m.executed + acts && r.e.errEnabled == m.e.errEnabled && r.e.errWired == m.e.errWired
  {
    hide Runs, Acts, FitsAll, LeavesOpen;
  }

  lemma FinishReaches(m: Machine, port: nat, kinds: seq<Kind>, a: Lists)
    requires Runs(m) && RunAgrees(m, kinds, a)
    ensures Reaches(m, Finish(m, port).0, kinds, a)
  {
    var acts := if m.post.Rows? then m.post.actions else [];
    var r := Finish(m, port).0;
    assert FitsAll(m.e, acts) && !LeavesOpen(acts, false);
    FinishIs(m, port, acts);
    hide Runs, Finish, Perform, FitsAll, LeavesOpen, Steps, RunAgrees, Reaches;
    PerformAgrees(m, kinds, a, acts);
    PerformShape(m, acts);
    AgreesCarries(Perform(m, acts), r, kinds, Steps(a, m.e.errEnabled, m.e.errWired, acts));
    NoSteps(m, kinds, a);
    ReachesNow(m, r, kinds, a, acts);
  }

  lemma FinishIs(m: Machine, port: nat, acts: seq<Action>)
    requires Runs(m) && acts == (if m.post.Rows? then m.post.actions else []) && FitsAll(m.e, acts) && !LeavesOpen(acts, false)
    ensures var r, p := Finish(m, port).0, Perform(m, acts);
            r.e == p.e && r.main == p.main && r.errors == p.errors && r.executed == p.executed
  {
    hide Perform, Runs, FitsAll, LeavesOpen;
  }

  lemma {:induction false} FillReaches(m: Machine, port: nat, kinds: seq<Kind>, a: Lists)
    requires Runs(m) && RunAgrees(m, kinds, a)
    ensures Reaches(m, Fill(m, port).0, kinds, a)
    decreases |m.pulls|, !m.eofSeen
  {
    NoSteps(m, kinds, a);
    if RowCount(m.e, port) == 0 {
      if m.eofSeen {
        if m.posted { ReachesNow(m, m, kinds, a, []); } else { FinishReaches(m, port, kinds, a); }
        hide Runs, Finish, RunAgrees, Reaches, Steps;
      } else if m.pulls == [] {
        var next := m.(eofSeen := true);
        AgreesCarries(m, next, kinds, a);
        FillReaches(next, port, kinds, a);
        hide Fill, Runs, RunAgrees, Reaches, Steps;
        ReachesBefore(m, next, Fill(next, port).0, kinds, a, []);
        EndIsSeen(m, port);
      } else {
        PullReaches(m, port, kinds, a);
      }
    } else {
      ReachesNow(m, m, kinds, a, []);
      hide Runs, RunAgrees, Reaches, Steps;
    }
  }

  lemma EndIsSeen(m: Machine, port: nat)
    requires Runs(m) && RowCount(m.e, port) == 0 && !m.eofSeen && m.pulls == []
    ensures Runs(m.(eofSeen := true)) && Fill(m, port) == Fill(m.(eofSeen := true), port)
  {
    hide Sound, NothingOpen, PullFits, WholeRows, Finish;
  }

  lemma PullReaches(m: Machine, port: nat, kinds: seq<Kind>, a: Lists)
    requires Runs(m) && RunAgrees(m, kinds, a) && RowCount(m.e, port) == 0 && !m.eofSeen && m.pulls != []
    ensures Reaches(m, Fill(m, port).0, kinds, a)
    decreases |m.pulls|, false, 0
  {
    var rest := m.(pulls := m.pulls[1..]);
    assert Runs(rest) && PullFits(rest.e, m.pulls[0]) && WholeRows(m.pulls[0]);
    NoSteps(m, kinds, a);
    AgreesCarries(m, rest, kinds, a);
    match m.pulls[0]
    case Failure =>
      ReachesNow(m, rest, kinds, a, []);
      hide Runs, RunAgrees, Reaches, Steps;
    case Rows(acts, ok) =>
      var next := Perform(rest, acts);
      PerformAgrees(rest, kinds, a, acts);
      PerformShape(rest, acts);
      hide Runs, RunAgrees, Reaches, Steps, Perform, FitsAll, LeavesOpen;
      if ok {
        FillReaches(next, port, kinds, Steps(a, m.e.errEnabled, m.e.errWired, acts));
        ReachesBefore(m, next, Fill(next, port).0, kinds, a, acts);
      } else {
        ReachesNow(m, next, kinds, a, acts);
      }
  }

  // ---------------------------------------------------------------- handing out

  lemma EmptiedAgrees(e: Emitter, a: Lists)
    requires Agrees(e, a) && Even(a) && NothingOpen(e) && Sound(e.(out := Emptied(e.out)))
    ensures Agrees(e.(out := Emptied(e.out)), Handed(a, 0))
  {
    assert ColumnOf([], 0) == [];
    forall i | 0 <= i < |e.out| && Plain(e.out[i].kind)
      ensures SlotIn(Emptied(e.out)[i], ColumnOf([], i), FRESH, false)
    {
      NewHoldsNothing(e.out[i].kind);
      assert ColumnOf([], i) == [];
    }
    hide SlotIn, Sound, Shaped, ErrColumnOf, ColumnOf, Plain;
  }

  lemma ErrEmptiedAgrees(e: Emitter, a: Lists)
    requires Agrees(e, a) && Even(a) && Sound(e.(err := Emptied(e.err)))
    ensures Agrees(e.(err := Emptied(e.err)), Handed(a, 1))
  {
    forall i | 0 <= i < |e.err| && Plain(e.err[i].kind)
      ensures SlotIn(Emptied(e.err)[i], ErrColumnOf([], |e.out|, i), FRESH, false)
    {
      NewHoldsNothing(e.err[i].kind);
      assert ErrColumnOf([], |e.out|, i) == [];
    }
    hide SlotIn, Sound, Shaped, ErrColumnOf, ColumnOf, Plain;
  }

  lemma StagedIsHeld(e: Emitter, kinds: seq<Kind>, a: Lists)
    requires Agrees(e, a) && HasKinds(e, kinds)
    ensures Held(e.out, kinds, a.main) && (e.errEnabled ==> ErrHeld(e.err, kinds, a.errors))
  {
    forall i | 0 <= i < |kinds| && Plain(kinds[i]) ensures Carries(e.out[i], ColumnOf(a.main, i)) {
      SlotCarries(e.out[i], ColumnOf(a.main, i), a.slots[i], e.pending[i]);
    }
    if e.errEnabled {
      forall i | 0 <= i < |e.err| && Plain(e.err[i].kind) ensures Carries(e.err[i], ErrColumnOf(a.errors, |kinds|, i)) {
        SlotCarries(e.err[i], ErrColumnOf(a.errors, |kinds|, i), FRESH, false);
      }
    }
    hide SlotIn, Sound, Carries, ErrColumnOf, ColumnOf, Plain;
  }

  lemma FlushAgrees(m: Machine, port: nat, kinds: seq<Kind>, a: Lists)
    requires Runs(m) && PortOf(m.e, port) && RunAgrees(m, kinds, a)
    ensures RunAgrees(Flushed(m, port), kinds, Handed(a, port))
  {
    hide *;
    RunParts(m, kinds, a);
    RunsSound(m);
    FlushedEmitter(m, port);
    StagedIsHeld(m.e, kinds, a);
    KindsCarry(m.e, Flushed(m, port).e, kinds);
    FlushedIs(m, port);
    if port == 0 {
      EmptiedAgrees(m.e, a);
      MainHeld(m, kinds, a);
    } else {
      ErrEmptiedAgrees(m.e, a);
      ErrorsHeld(m, kinds, a);
    }
    RunFromParts(Flushed(m, port), kinds, Handed(a, port));
  }

  lemma RunParts(m: Machine, kinds: seq<Kind>, a: Lists)
    ensures RunAgrees(m, kinds, a) <==> Even(a) && Agrees(m.e, a) && HasKinds(m.e, kinds) && BatchesHeld(m, kinds, a)
  {
    hide Even, Agrees, HasKinds, BatchesHeld;
  }

  lemma RunFromParts(m: Machine, kinds: seq<Kind>, a: Lists)
    requires Even(a) && Agrees(m.e, a) && HasKinds(m.e, kinds) && BatchesHeld(m, kinds, a)
    ensures RunAgrees(m, kinds, a)
  {
    hide Even, Agrees, HasKinds, BatchesHeld;
  }

  lemma FlushedIs(m: Machine, port: nat)
    requires Runs(m) && PortOf(m.e, port)
    ensures NothingOpen(m.e) && (port == 0 || (port == 1 && m.e.errEnabled))
    ensures Flushed(m, port).e == if port == 0 then m.e.(out := Emptied(m.e.out)) else m.e.(err := Emptied(m.e.err))
  {
    hide Sound, NothingOpen, Typed, Emptied;
  }

  lemma MainHeld(m: Machine, kinds: seq<Kind>, a: Lists)
    requires BatchesHeld(m, kinds, a) && Held(m.e.out, kinds, a.main) && Even(a)
    ensures PortOf(m.e, 0) && BatchesHeld(Flushed(m, 0), kinds, Handed(a, 0))
  {
    hide Held, ErrHeld, Emptied, Fresh;
  }

  lemma ErrorsHeld(m: Machine, kinds: seq<Kind>, a: Lists)
    requires BatchesHeld(m, kinds, a) && ErrHeld(m.e.err, kinds, a.errors) && Even(a) && PortOf(m.e, 1)
    ensures BatchesHeld(Flushed(m, 1), kinds, Handed(a, 1))
  {
    hide Held, ErrHeld, Emptied, Fresh;
  }

  // ---------------------------------------------------------------- whole runs

  /** The list component after one call of a port: the calls user code made in it, then what
      was handed out. */
  function NextLists(m: Machine, port: nat, a: Lists): (r: Lists)
    requires Runs(m) && PortOf(m.e, port) && Even(a)
    ensures Even(r) && |r.slots| == |a.slots|
  {
    var (after, answer) := GetNext(m, port);
    var b := Steps(Untagged(a), m.e.errEnabled, m.e.errWired, NewActs(m, after));
    if answer.Batch? then Handed(b, port) else b
  }

  lemma UntaggedAgrees(m: Machine, kinds: seq<Kind>, a: Lists)
    requires RunAgrees(m, kinds, a) && Sound(m.e.(tag := None))
    ensures RunAgrees(m.(e := m.e.(tag := None)), kinds, Untagged(a))
  {
    hide SlotIn, Sound, Held, ErrHeld, ColumnOf, ErrColumnOf, Plain;
  }

  lemma GetNextAgrees(m: Machine, port: nat, kinds: seq<Kind>, a: Lists)
    requires Good(m) && PortOf(m.e, port) && RunAgrees(m, kinds, a)
    ensures Runs(m) && Even(a) && RunAgrees(GetNext(m, port).0, kinds, NextLists(m, port, a))
  {
    hide *;
    var start := m.(e := m.e.(tag := None));
    GoodParts(m);
    UntaggedIsGood(m);
    GoodParts(start);
    NoSteps(m, kinds, a);
    RunsSound(start);
    UntaggedAgrees(m, kinds, a);
    NoSteps(start, kinds, Untagged(a));
    FillReaches(start, port, kinds, Untagged(a));
    PortCarries2(m, start, port);
    FillIsGood(start, port);
    GetNextIsFill(m, port);
    var (f, how) := Fill(start, port);
    ReachedAgrees(m, start, f, kinds, Untagged(a));
    GoodParts(f);
    if how == HasRows {
      PortCarries(start.e, f.e, port);
      FlushSucceeds(f, port);
      FlushAgrees(f, port, kinds, Steps(Untagged(a), m.e.errEnabled, m.e.errWired, NewActs(m, f)));
      FlushedActs(m, f, port);
    }
    NextListsAre(m, port, a, f, how);
  }

  lemma RunsSound(m: Machine)
    requires Runs(m)
    ensures Sound(m.e)
  {
    hide Sound, Typed, NothingOpen;
  }

  lemma PortCarries2(m: Machine, start: Machine, port: nat)
    requires PortOf(m.e, port) && start == m.(e := m.e.(tag := None))
    ensures PortOf(start.e, port)
  {}

  lemma ReachedAgrees(m: Machine, start: Machine, f: Machine, kinds: seq<Kind>, a: Lists)
    requires start == m.(e := m.e.(tag := None)) && Reaches(start, f, kinds, a)
    ensures Even(a) && m.executed <= f.executed
    ensures RunAgrees(f, kinds, Steps(a, m.e.errEnabled, m.e.errWired, NewActs(m, f)))
  {
    hide RunAgrees, Steps;
  }

  lemma FlushedActs(m: Machine, f: Machine, port: nat)
    requires PortOf(f.e, port)
    ensures NewActs(m, Flushed(f, port)) == NewActs(m, f)
  {
    hide Emptied;
  }

  lemma NextListsAre(m: Machine, port: nat, a: Lists, f: Machine, how: Filling)
    requires Runs(m) && PortOf(m.e, port) && Even(a)
    requires how == HasRows ==>
               && PortOf(f.e, port) && GetNext(m, port) == (Flushed(f, port), Batch(Staged(f.e, port)))
               && NewActs(m, Flushed(f, port)) == NewActs(m, f)
    requires how == Ended ==> GetNext(m, port) == (f, EndOfStream)
    requires how == Broken ==> GetNext(m, port) == (f, Failed)
    ensures var b := Steps(Untagged(a), m.e.errEnabled, m.e.errWired, NewActs(m, f));
            NextLists(m, port, a) == if how == HasRows then Handed(b, port) else b
  {
    hide Runs, Steps, Handed, GetNext, Flush, Flushed, NewActs;
  }

  /** The list component after a whole run. */
  ghost function ListsAfter(m: Machine, asked: seq<nat>, a: Lists): (r: Lists)
    requires Good(m) && PortsOf(m.e, asked) && Even(a)
    ensures Even(r) && |r.slots| == |a.slots|
    decreases |asked|
  {
    if asked == [] then a
    else
      var k := |asked| - 1;
      var before := Ask(m, asked[..k]).m;
      hide SameShape;
      PortCarries(m.e, before.e, asked[k]);
      NextLists(before, asked[k], ListsAfter(m, asked[..k], a))
  }

  lemma {:induction false} RunsAgree(m: Machine, asked: seq<nat>, kinds: seq<Kind>, a: Lists)
    requires Good(m) && PortsOf(m.e, asked) && RunAgrees(m, kinds, a)
    ensures Even(a) && RunAgrees(Ask(m, asked).m, kinds, ListsAfter(m, asked, a))
    decreases |asked|
  {
    NoSteps(m, kinds, a);
    if asked != [] {
      var k := |asked| - 1;
      RunsAgree(m, asked[..k], kinds, a);
      var before := Ask(m, asked[..k]).m;
      hide Good, SameShape, RunAgrees, NextLists, GetNext, Even, Runs;
      PortCarries(m.e, before.e, asked[k]);
      GetNextAgrees(before, asked[k], kinds, ListsAfter(m, asked[..k], a));
    }
  }

  // ---------------------------------------------------------------- what consumers read

  /** All rows have a cell for every column. */
  predicate Squared(a: Lists) {
    && (forall k :: 0 <= k < |a.main| ==> |a.main[k]| == |a.slots|)
    && (forall k :: 0 <= k < |a.errors| ==> |a.errors[k].cells| == |a.slots|)
    && (forall k, r :: 0 <= k < |a.mainOut| && 0 <= r < |a.mainOut[k]| ==> |a.mainOut[k][r]| == |a.slots|)
    && (forall k, r :: 0 <= k < |a.errorsOut| && 0 <= r < |a.errorsOut[k]| ==> |a.errorsOut[k][r].cells| == |a.slots|)
  }

  lemma {:induction false} StepsKeepSquared(a: Lists, enabled: bool, wired: bool, acts: seq<Action>)
    requires Even(a) && Squared(a)
    ensures Squared(Steps(a, enabled, wired, acts))
    decreases |acts|
  {
    if acts != [] {
      StepsKeepSquared(Step(a, enabled, wired, acts[0]), enabled, wired, acts[1..]);
      hide Fresh, NoneGiven, After, CellOf;
    }
  }

  lemma HandedIsSquared(a: Lists, port: nat)
    requires Even(a) && Squared(a)
    ensures Squared(Handed(a, port)) && Even(Untagged(a)) && Squared(Untagged(a))
  {}

  lemma NextIsSquared(m: Machine, port: nat, a: Lists)
    requires Runs(m) && PortOf(m.e, port) && Even(a) && Squared(a)
    ensures Squared(NextLists(m, port, a))
  {
    HandedIsSquared(a, 0);
    var acts := NewActs(m, GetNext(m, port).0);
    StepsKeepSquared(Untagged(a), m.e.errEnabled, m.e.errWired, acts);
    HandedIsSquared(Steps(Untagged(a), m.e.errEnabled, m.e.errWired, acts), port);
    hide Runs, GetNext, Steps, Handed, Squared;
  }

  lemma {:induction false} ListsAreSquared(m: Machine, asked: seq<nat>, a: Lists)
    requires Good(m) && PortsOf(m.e, asked) && Even(a) && Squared(a)
    ensures Squared(ListsAfter(m, asked, a))
    decreases |asked|
  {
    hide *;
    if asked == [] {
      NoneAsked(m, asked, a);
    } else {
      var k := |asked| - 1;
      LastAsked(m, asked, a);
      ListsAreSquared(m, asked[..k], a);
      NextIsSquared(Ask(m, asked[..k]).m, asked[k], ListsAfter(m, asked[..k], a));
    }
  }

  lemma NoneAsked(m: Machine, asked: seq<nat>, a: Lists)
    requires Good(m) && PortsOf(m.e, asked) && Even(a) && asked == []
    ensures ListsAfter(m, asked, a) == a
  {
    hide Good, NextLists;
  }

  lemma LastAsked(m: Machine, asked: seq<nat>, a: Lists)
    requires Good(m) && PortsOf(m.e, asked) && Even(a) && asked != []
    ensures var k := |asked| - 1; PortsOf(m.e, asked[..k])
    ensures var k := |asked| - 1; var before := Ask(m, asked[..k]).m;
            && Good(before) && Runs(before) && PortOf(before.e, asked[k])
            && ListsAfter(m, asked, a) == NextLists(before, asked[k], ListsAfter(m, asked[..k], a))
  {
    var k := |asked| - 1;
    var before := Ask(m, asked[..k]).m;
    PortCarries(m.e, before.e, asked[k]);
    hide Runs, Conserved, Lifecycle, SameShape, NextLists, PortOf, Ask;
  }

  /** A leaf of the column reads as these cells, whatever memory held before. */
  predicate LeafReadsAs(c: Col, kind: Kind, slots: seq<Slot>, junk: nat -> int) {
    && Shaped(c) && c.n == |slots| && forall r :: 0 <= r < |slots| ==> ReadCell(Finalized(c, junk), r) == Seen(kind, slots[r])
  }

  lemma CarriedLeaf(c: Col, slots: seq<Slot>, junk: nat -> int)
    requires Carries(c, slots)
    ensures LeafReadsAs(c, c.kind, slots, junk)
  {
    forall r | 0 <= r < |slots| ensures ReadCell(Finalized(c, junk), r) == Seen(c.kind, slots[r]) {
      CarriedReads(c, slots, junk, r);
    }
    hide Finalized, ReadCell, Seen, RowsCommitted;
  }

  /** A main batch in its columns of numbers and text. */
  predicate MainReads(cols: seq<Col>, kinds: seq<Kind>, rows: seq<Row>, junk: nat -> int) {
    && |cols| == |kinds|
    && forall i :: 0 <= i < |kinds| && Plain(kinds[i]) ==>
         && Shaped(cols[i]) && cols[i].n == |rows|
         && forall r :: 0 <= r < |rows| ==>
              |rows[r]| == |kinds| && ReadCell(Finalized(cols[i], junk), r) == Seen(kinds[i], rows[r][i])
  }

  /** An error batch: the same columns, then the code and the column of each row's tag. */
  predicate ErrorsRead(cols: seq<Col>, kinds: seq<Kind>, rows: seq<ErrRow>, junk: nat -> int) {
    var n := |kinds|;
    && |cols| == n + 2
    && (forall i :: 0 <= i < n && Plain(kinds[i]) ==>
          && Shaped(cols[i]) && cols[i].n == |rows|
          && forall r :: 0 <= r < |rows| ==>
               |rows[r].cells| == n && ReadCell(Finalized(cols[i], junk), r) == Seen(kinds[i], rows[r].cells[i]))
    && Shaped(cols[n]) && cols[n].n == |rows| && Shaped(cols[n + 1]) && cols[n + 1].n == |rows|
    && forall r :: 0 <= r < |rows| ==>
         && ReadCell(Finalized(cols[n], junk), r) == Value(IntCell(rows[r].tag.code))
         && ReadCell(Finalized(cols[n + 1], junk), r) == Value(IntCell(rows[r].tag.column))
  }

  lemma HeldReads(cols: seq<Col>, kinds: seq<Kind>, rows: seq<Row>, junk: nat -> int)
    requires Held(cols, kinds, rows) && forall r :: 0 <= r < |rows| ==> |rows[r]| == |kinds|
    ensures MainReads(cols, kinds, rows, junk)
  {
    forall i | 0 <= i < |kinds| && Plain(kinds[i]) ensures LeafReadsAs(cols[i], kinds[i], ColumnOf(rows, i), junk) {
      CarriedLeaf(cols[i], ColumnOf(rows, i), junk);
    }
    hide Finalized, ReadCell, Seen, Carries, Shaped;
  }

  lemma ErrHeldReads(cols: seq<Col>, kinds: seq<Kind>, rows: seq<ErrRow>, junk: nat -> int)
    requires ErrHeld(cols, kinds, rows) && forall r :: 0 <= r < |rows| ==> |rows[r].cells| == |kinds|
    ensures ErrorsRead(cols, kinds, rows, junk)
  {
    var n := |kinds|;
    forall i | 0 <= i < n + 2 && Plain(cols[i].kind)
      ensures LeafReadsAs(cols[i], cols[i].kind, ErrColumnOf(rows, n, i), junk)
    {
      CarriedLeaf(cols[i], ErrColumnOf(rows, n, i), junk);
    }
    hide Finalized, ReadCell, Carries, Shaped;
    NumberSeen();
  }

  lemma NumberSeen()
    ensures forall v: int :: Seen(Fixed, Slot(false, Some(v), "")) == Value(IntCell(v))
  {}

  /** However the ports are asked and whatever user code does, the batches of both ports read
      as those of the list component, in their columns of numbers and text; an error row is
      the cells of its tagged row and its code and column. */
  lemma RunsRouteTheRows(m: Machine, asked: seq<nat>, kinds: seq<Kind>, a: Lists, junk: nat -> int)
    requires Good(m) && PortsOf(m.e, asked) && RunAgrees(m, kinds, a) && Squared(a)
    ensures Even(a)
    ensures var t, b := Ask(m, asked).m, ListsAfter(m, asked, a);
            && |t.main| == |b.mainOut| && (forall k :: 0 <= k < |t.main| ==> MainReads(t.main[k], kinds, b.mainOut[k], junk))
            && |t.errors| == |b.errorsOut| && (forall k :: 0 <= k < |t.errors| ==> ErrorsRead(t.errors[k], kinds, b.errorsOut[k], junk))
  {
    NoSteps(m, kinds, a);
    hide *;
    RunsAgree(m, asked, kinds, a);
    ListsAreSquared(m, asked, a);
    AllBatchesRead(Ask(m, asked).m, kinds, ListsAfter(m, asked, a), junk);
  }

  lemma AllBatchesRead(t: Machine, kinds: seq<Kind>, b: Lists, junk: nat -> int)
    requires RunAgrees(t, kinds, b) && Squared(b)
    ensures |t.main| == |b.mainOut| && forall k :: 0 <= k < |t.main| ==> MainReads(t.main[k], kinds, b.mainOut[k], junk)
    ensures |t.errors| == |b.errorsOut| && forall k :: 0 <= k < |t.errors| ==> ErrorsRead(t.errors[k], kinds, b.errorsOut[k], junk)
  {
    assert |b.slots| == |kinds|;
    hide Agrees, HasKinds, Held, ErrHeld, MainReads, ErrorsRead;
    forall k | 0 <= k < |t.main| ensures MainReads(t.main[k], kinds, b.mainOut[k], junk) {
      HeldReads(t.main[k], kinds, b.mainOut[k], junk);
    }
    forall k | 0 <= k < |t.errors| ensures ErrorsRead(t.errors[k], kinds, b.errorsOut[k], junk) {
      ErrHeldReads(t.errors[k], kinds, b.errorsOut[k], junk);
    }
  }

  function NoLists(n: nat): Lists { Lists(Fresh(n), NoneGiven(n), None, [], [], [], []) }

  /** A component just created agrees with empty lists. */
  lemma BeginAgrees(kinds: seq<Kind>, errEnabled: bool, errWired: bool, pulls: seq<Pull>, post: Pull, cleanupOk: bool)
    requires kinds != [] && Typed(Begin(kinds, errEnabled, errWired, pulls, post, cleanupOk))
    ensures Good(Begin(kinds, errEnabled, errWired, pulls, post, cleanupOk))
    ensures RunAgrees(Begin(kinds, errEnabled, errWired, pulls, post, cleanupOk), kinds, NoLists(|kinds|)) && Squared(NoLists(|kinds|))
  {
    hide *;
    BeginIsGood(kinds, errEnabled, errWired, pulls, post, cleanupOk);
    NothingListed(|kinds|);
    var m := Begin(kinds, errEnabled, errWired, pulls, post, cleanupOk);
    BeginHas(kinds, errEnabled, errWired, pulls, post, cleanupOk);
    BeginMain(m.e, kinds);
    BeginErrors(m.e, kinds);
    MakesAgree(m.e, NoLists(|kinds|));
    RunFromParts(m, kinds, NoLists(|kinds|));
  }

  lemma NothingListed(n: nat)
    ensures var a := NoLists(n);
            && Even(a) && Squared(a) && a.tag.None? && a.mainOut == [] && a.errorsOut == []
  {}

  lemma BeginHas(kinds: seq<Kind>, errEnabled: bool, errWired: bool, pulls: seq<Pull>, post: Pull, cleanupOk: bool)
    requires kinds != [] && Good(Begin(kinds, errEnabled, errWired, pulls, post, cleanupOk))
    ensures var m := Begin(kinds, errEnabled, errWired, pulls, post, cleanupOk);
            && Sound(m.e) && m.e.tag.None? && HasKinds(m.e, kinds) && BatchesHeld(m, kinds, NoLists(|kinds|))
            && m.e.pending == NoneGiven(|kinds|) && |m.e.out| == |kinds|
            && (forall i :: 0 <= i < |kinds| ==> m.e.out[i] == NewCol(kinds[i]))
            && (m.e.errEnabled ==>
                  |m.e.err| == |kinds| + 2 && forall i :: 0 <= i < |kinds| + 2 ==> m.e.err[i] == NewCol((kinds + [Fixed, Fixed])[i]))
  {
    hide Typed, Conserved, Shaped, Lifecycle;
    assert seq(|kinds|, _ => false) == NoneGiven(|kinds|);
  }

  lemma BeginMain(e: Emitter, kinds: seq<Kind>)
    requires |e.out| == |kinds| && e.pending == NoneGiven(|kinds|)
    requires forall i :: 0 <= i < |kinds| ==> e.out[i] == NewCol(kinds[i])
    ensures MainAgrees(e, NoLists(|kinds|))
  {
    forall i | 0 <= i < |kinds| && Plain(kinds[i]) ensures SlotIn(NewCol(kinds[i]), ColumnOf([], i), FRESH, false) {
      NewHoldsNothing(kinds[i]);
      assert ColumnOf([], i) == [];
    }
    hide SlotIn, Plain, ColumnOf;
  }

  lemma BeginErrors(e: Emitter, kinds: seq<Kind>)
    requires |e.out| == |kinds|
    requires e.errEnabled ==>
               |e.err| == |kinds| + 2 && forall i :: 0 <= i < |kinds| + 2 ==> e.err[i] == NewCol((kinds + [Fixed, Fixed])[i])
    ensures ErrorsAgree(e, NoLists(|kinds|))
  {
    forall i | 0 <= i < |kinds| + 2 && Plain((kinds + [Fixed, Fixed])[i])
      ensures SlotIn(NewCol((kinds + [Fixed, Fixed])[i]), ErrColumnOf([], |kinds|, i), FRESH, false)
    {
      NewHoldsNothing((kinds + [Fixed, Fixed])[i]);
      assert ErrColumnOf([], |kinds|, i) == [];
    }
    hide SlotIn, Plain, ErrColumnOf;
  }
}
