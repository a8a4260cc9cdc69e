/**
 The two output ports of the .NET pipeline component (providers/betl-dotnet/dotnet_provider.c)
 pulling from one upstream in any order.
 */
module Ports {
  import opened Text
  import opened Staging

  /** One upstream get_next: a batch, by what user code does with it and whether ProcessInput
      reports success, or a failure. After the last one the upstream is at its end. */
  datatype Pull = Rows(actions: seq<Action>, ok: bool) | Failure

  datatype Answer = Batch(cols: seq<Col>) | EndOfStream | Failed

  /** The component, with what it has handed out and the lifecycle calls it has made. */
  datatype Machine = Machine(
    e: Emitter,
    pulls: seq<Pull>,
    eofSeen: bool,
    posted: bool,
    post: Pull,
    cleanupOk: bool,
    executed: seq<Action>,
    main: seq<seq<Col>>,
    errors: seq<seq<Col>>,
    postCalls: nat,
    cleanupCalls: nat)

  predicate FitsAll(e: Emitter, acts: seq<Action>) { forall i :: 0 <= i < |acts| ==> Fits(e, acts[i]) }

  predicate PullFits(e: Emitter, p: Pull) { p.Rows? ==> FitsAll(e, p.actions) }

  /** Whether cells are left without a commit behind them. */
  predicate LeavesOpen(acts: seq<Action>, open: bool)
    decreases |acts|
  {
    if acts == [] then open
    else LeavesOpen(acts[1..], match acts[0] case Commit => false case Tag(_, _) => open case _ => true)
  }

  /** The managed side writes whole rows: FlushTo sets every column and then commits. */
  predicate WholeRows(p: Pull) { p.Rows? ==> !LeavesOpen(p.actions, false) }

  /** User code makes only the calls its wrapper has, for the declared columns, in whole rows. */
  predicate Typed(m: Machine) {
    && PullFits(m.e, m.post) && WholeRows(m.post)
    && forall i :: 0 <= i < |m.pulls| ==> PullFits(m.e, m.pulls[i]) && WholeRows(m.pulls[i])
  }

  predicate NothingOpen(e: Emitter) { forall i :: 0 <= i < |e.pending| ==> !e.pending[i] }

  predicate SameShape(a: Emitter, b: Emitter) {
    && |a.out| == |b.out| && a.errEnabled == b.errEnabled && a.errWired == b.errWired
    && forall i :: 0 <= i < |a.out| ==> a.out[i].kind == b.out[i].kind
  }

  /** User code runs. */
  function Acts(e: Emitter, acts: seq<Action>): (r: Emitter)
    requires Sound(e) && FitsAll(e, acts)
    ensures Sound(r) && SameShape(e, r)
    decreases |acts|
  {
    if acts == [] then e
    else
      ActKeepsSound(e, acts[0]);
      hide Sound, Act;
      var next := Act(e, acts[0]);
      assert FitsAll(next, acts[1..]) by { FitsCarries(e, next, acts[1..]); }
      Acts(next, acts[1..])
  }

  lemma {:induction false} WholeRowsClose(e: Emitter, acts: seq<Action>, open: bool)
    requires Sound(e) && FitsAll(e, acts) && (!open ==> NothingOpen(e)) && !LeavesOpen(acts, open)
    ensures NothingOpen(Acts(e, acts))
    decreases |acts|
  {
    if acts != [] {
      ActKeepsSound(e, acts[0]);
      ActCloses(e, acts[0]);
      hide Sound, Act, NothingOpen;
      var next := Act(e, acts[0]);
      FitsCarries(e, next, acts[1..]);
      WholeRowsClose(next, acts[1..], match acts[0] case Commit => false case Tag(_, _) => open case _ => true);
    }
  }

  lemma ActCloses(e: Emitter, a: Action)
    requires Sound(e) && Fits(e, a)
    ensures a == Commit || (a.Tag? && NothingOpen(e)) ==> NothingOpen(Act(e, a))
  {
    hide PutInt, PutBytes, PutNull, Filled, Advanced, ErrorRow, Shaped;
  }

  lemma FitsCarries(a: Emitter, b: Emitter, acts: seq<Action>)
    requires SameShape(a, b) && FitsAll(a, acts)
    ensures FitsAll(b, acts)
  {}

  function Staged(e: Emitter, port: nat): seq<Col> { if port == 0 then e.out else e.err }

  function RowCount(e: Emitter, port: nat): nat {
    var s := Staged(e, port);
    if s == [] then 0 else s[0].n
  }

  /** Port 1 exists only with an error output. */
  predicate PortOf(e: Emitter, port: nat) { port == 0 || (port == 1 && e.errEnabled) }

  predicate Runs(m: Machine) { Sound(m.e) && NothingOpen(m.e) && Typed(m) }

  function Perform(m: Machine, acts: seq<Action>): (r: Machine)
    requires Runs(m) && FitsAll(m.e, acts) && !LeavesOpen(acts, false)
    ensures Runs(r) && SameShape(m.e, r.e)
    ensures r == m.(e := r.e, executed := m.executed + acts)
  {
    var e := Acts(m.e, acts);
    WholeRowsClose(m.e, acts, false);
    hide Sound, NothingOpen, LeavesOpen, FitsAll;
    TypedCarries(m, e, m.executed + acts);
    m.(e := e, executed := m.executed + acts)
  }

  lemma TypedCarries(m: Machine, e: Emitter, acts: seq<Action>)
    requires Typed(m) && SameShape(m.e, e)
    ensures Typed(m.(e := e, executed := acts))
  {
    hide FitsAll, WholeRows;
    forall i | 0 <= i < |m.pulls|
      ensures PullFits(e, m.pulls[i])
    {
      if m.pulls[i].Rows? { FitsCarries(m.e, e, m.pulls[i].actions); }
    }
    if m.post.Rows? { FitsCarries(m.e, e, m.post.actions); }
  }

  datatype Filling = HasRows | Ended | Broken

  /** PostExecute, then Cleanup. */
  function Finish(m: Machine, port: nat): (r: (Machine, Filling))
    requires Runs(m)
    ensures Runs(r.0) && SameShape(m.e, r.0.e)
  {
    var acts := if m.post.Rows? then m.post.actions else [];
    var done := Perform(m, acts).(posted := true, postCalls := m.postCalls + 1);
    if !(m.post.Rows? && m.post.ok) then (done, Broken)
    else
      var clean := done.(cleanupCalls := done.cleanupCalls + 1);
      if !m.cleanupOk then (clean, Broken)
      else (clean, if RowCount(clean.e, port) > 0 then HasRows else Ended)
  }

  /** The loop of dpc_get_next: pull until the port has a row or nothing is left. */
  function Fill(m: Machine, port: nat): (r: (Machine, Filling))
    requires Runs(m)
    ensures Runs(r.0) && SameShape(m.e, r.0.e)
    decreases |m.pulls|, !m.eofSeen
  {
    if RowCount(m.e, port) > 0 then (m, HasRows)
    else if m.eofSeen then
      if m.posted then (m, Ended) else Finish(m, port)
    else if m.pulls == [] then Fill(m.(eofSeen := true), port)
    else
      var rest := m.(pulls := m.pulls[1..]);
      match m.pulls[0]
      case Failure => (rest, Broken)
      case Rows(acts, ok) =>
        var next := Perform(rest, acts);
        if ok then Fill(next, port) else (next, Broken)
  }

  function Emptied(cols: seq<Col>): (r: seq<Col>)
    ensures |r| == |cols| && AllShaped(r) && SameCount(r)
    ensures forall i :: 0 <= i < |cols| ==> r[i] == NewCol(cols[i].kind)
  {
    seq(|cols|, i requires 0 <= i < |cols| => NewCol(cols[i].kind))
  }

  /** dpc_flush_staging: refused when the columns disagree on the row count. */
  function Flush(m: Machine, port: nat): (Machine, Answer)
    requires Runs(m) && PortOf(m.e, port)
  {
    var s := Staged(m.e, port);
    if !SameCount(s) then (m, Failed)
    else if port == 0 then (m.(e := m.e.(out := Emptied(s)), main := m.main + [s]), Batch(s))
    else (m.(e := m.e.(err := Emptied(s)), errors := m.errors + [s]), Batch(s))
  }

  /** dpc_get_next. A tag does not outlive the call it was made in. */
  function GetNext(m: Machine, port: nat): (Machine, Answer)
    requires Runs(m) && PortOf(m.e, port)
  {
    var start := m.(e := m.e.(tag := None));
    TypedCarries(m, start.e, m.executed);
    var (filled, how) := Fill(start, port);
    match how
    case HasRows => Flush(filled, port)
    case Ended => (filled, EndOfStream)
    case Broken => (filled, Failed)
  }

  // ---------------------------------------------------------------- the component object

  class Component {
    var m: Machine

    constructor (start: Machine)
      ensures m == start
    {
      m := start;
    }

    /** process_batch_fn and post_execute_fn: user code through the emit context. */
    method Call(acts: seq<Action>)
      requires Runs(m) && FitsAll(m.e, acts) && !LeavesOpen(acts, false)
      modifies this`m
      ensures m == Perform(old(m), acts)
    {
      m := Perform(m, acts);
    }

    /** The pulling loop of dpc_get_next. */
    method PullUntilRow(port: nat) returns (how: Filling)
      requires Runs(m)
      modifies this`m
      ensures (m, how) == Fill(old(m), port)
    {
      while RowCount(m.e, port) == 0
        invariant Runs(m) && Fill(old(m), port) == Fill(m, port)
        decreases |m.pulls|, !m.eofSeen
      {
        if m.eofSeen {
          if m.posted { return Ended; }
          var r := Finish(m, port);
          m := r.0;
          return r.1;
        }
        if m.pulls == [] {
          m := m.(eofSeen := true);
        } else {
          var pull := m.pulls[0];
          m := m.(pulls := m.pulls[1..]);
          if pull.Failure? { return Broken; }
          Call(pull.actions);
          if !pull.ok { return Broken; }
        }
      }
      return HasRows;
    }

    method Next(port: nat) returns (answer: Answer)
      requires Runs(m) && PortOf(m.e, port)
      modifies this`m
      ensures (m, answer) == GetNext(old(m), port)
    {
      TypedCarries(m, m.e.(tag := None), m.executed);
      m := m.(e := m.e.(tag := None));
      hide Fill, Runs;
      var how := PullUntilRow(port);
      if how == Ended { return EndOfStream; }
      if how == Broken { return Failed; }
      var r := Flush(m, port);
      m := r.0;
      return r.1;
    }
  }
}
