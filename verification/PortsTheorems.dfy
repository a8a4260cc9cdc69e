/** What every interleaving of the two ports keeps: rows are conserved, the lifecycle calls
    happen once, and the end of a port is final. */
module PortsTheorems {
  import opened Text
  import opened Staging
  import opened Ports

  // ---------------------------------------------------------------- flushing

  /** A flush leaves sound stagings behind exactly when no cell is open: the flags that say a
      column is set outlive its buffers. */
  lemma FlushIsSoundForWholeRows(e: Emitter)
    requires Sound(e)
    ensures Sound(e.(out := Emptied(e.out))) <==> NothingOpen(e)
  {
    hide Shaped;
    if Sound(e.(out := Emptied(e.out))) {
      forall i | 0 <= i < |e.pending| ensures !e.pending[i] { assert Emptied(e.out)[i].cap == 0; }
    }
  }

  lemma ErrorFlushIsSound(e: Emitter)
    requires Sound(e) && e.errEnabled
    ensures Sound(e.(err := Emptied(e.err)))
  {
    hide Shaped;
  }

  /** The component after a flush of the port. */
  function Flushed(m: Machine, port: nat): Machine
    requires PortOf(m.e, port)
  {
    if port == 0 then m.(e := m.e.(out := Emptied(m.e.out)), main := m.main + [m.e.out])
    else m.(e := m.e.(err := Emptied(m.e.err)), errors := m.errors + [m.e.err])
  }

  lemma FlushedEmitter(m: Machine, port: nat)
    requires Runs(m) && PortOf(m.e, port)
    ensures var e := Flushed(m, port).e;
            && Sound(e) && NothingOpen(e) && SameShape(m.e, e) && RowCount(e, port) == 0
            && (forall other :: other != port && PortOf(m.e, other) ==> RowCount(e, other) == RowCount(m.e, other))
  {
    FlushIsSoundForWholeRows(m.e);
    if port == 1 { ErrorFlushIsSound(m.e); }
    hide Typed, Shaped, AllShaped;
  }

  lemma CountsAgree(m: Machine, port: nat)
    requires Runs(m) && PortOf(m.e, port)
    ensures SameCount(Staged(m.e, port)) && Staged(m.e, port) != []
  {
    hide Typed, Shaped, AllShaped;
  }

  /** The row count mismatch never happens: a flush hands out the whole staging. */
  lemma FlushSucceeds(m: Machine, port: nat)
    requires Runs(m) && PortOf(m.e, port)
    ensures Flush(m, port) == (Flushed(m, port), Batch(Staged(m.e, port)))
    ensures var r := Flushed(m, port);
            && Runs(r) && SameShape(m.e, r.e) && RowCount(r.e, port) == 0
            && (forall other :: other != port && PortOf(m.e, other) ==> RowCount(r.e, other) == RowCount(m.e, other))
  {
    FlushedEmitter(m, port);
    CountsAgree(m, port);
    hide Sound, NothingOpen, SameShape, SameCount, Typed, RowCount;
    FlushedTyped(m, port);
  }

  lemma FlushedTyped(m: Machine, port: nat)
    requires Typed(m) && PortOf(m.e, port) && SameShape(m.e, Flushed(m, port).e)
    ensures Typed(Flushed(m, port))
  {
    TypedCarries(m, Flushed(m, port).e, m.executed);
    hide SameShape, PullFits, WholeRows;
  }

  // ---------------------------------------------------------------- conservation

  function Commits(acts: seq<Action>): nat {
    if acts == [] then 0 else (if acts[0] == Commit then 1 else 0) + Commits(acts[1..])
  }

  lemma {:induction false} CommitsConcat(a: seq<Action>, b: seq<Action>)
    ensures Commits(a + b) == Commits(a) + Commits(b)
  {
    if a == [] {
      assert a + b == b;
    } else {
      CommitsConcat(a[1..], b);
      assert (a + b)[1..] == a[1..] + b;
    }
  }

  function RowsIn(batches: seq<seq<Col>>): nat {
    if batches == [] then 0
    else
      var last := batches[|batches| - 1];
      RowsIn(batches[..|batches| - 1]) + if last == [] then 0 else last[0].n
  }

  /** Rows in the stagings or dropped. */
  function Kept(e: Emitter): nat { RowCount(e, 0) + RowCount(e, 1) + e.dropped }

  /** Every committed row was delivered, is staged or was dropped, and exactly one of these;
      without an error output nothing is routed away, without a reader nothing is staged
      for it. */
  predicate Conserved(m: Machine) {
    && Commits(m.executed) == RowsIn(m.main) + RowsIn(m.errors) + Kept(m.e)
    && (!m.e.errEnabled ==> m.errors == [] && m.e.err == [] && m.e.dropped == 0)
    && (m.e.errEnabled && !m.e.errWired ==> RowsIn(m.errors) == 0 && RowCount(m.e, 1) == 0)
    && (m.e.errEnabled && m.e.errWired ==> m.e.dropped == 0)
  }

  /** How many rows each place gained. */
  predicate Gained(before: Emitter, after: Emitter, rows: nat) {
    && Kept(after) == Kept(before) + rows
    && (!before.errEnabled ==> after.err == before.err && after.dropped == before.dropped)
    && (before.errEnabled && !before.errWired ==> RowCount(after, 1) == RowCount(before, 1))
    && (before.errWired ==> after.dropped == before.dropped)
  }

  lemma ActGains(e: Emitter, a: Action)
    requires Sound(e) && Fits(e, a)
    ensures Gained(e, Act(e, a), if a == Commit then 1 else 0)
  {
    ActRoutes(e, a);
    ActKeepsSound(e, a);
    hide PutInt, PutBytes, PutNull, Filled, Advanced, ErrorRow, Shaped;
  }

  lemma {:induction false} ActsGain(e: Emitter, acts: seq<Action>)
    requires Sound(e) && FitsAll(e, acts)
    ensures Gained(e, Acts(e, acts), Commits(acts))
    decreases |acts|
  {
    if acts != [] {
      ActGains(e, acts[0]);
      ActKeepsSound(e, acts[0]);
      hide Sound, Act;
      var next := Act(e, acts[0]);
      FitsCarries(e, next, acts[1..]);
      ActsGain(next, acts[1..]);
    }
  }

  lemma PerformConserves(m: Machine, acts: seq<Action>)
    requires Runs(m) && FitsAll(m.e, acts) && !LeavesOpen(acts, false) && Conserved(m)
    ensures Conserved(Perform(m, acts))
  {
    ActsGain(m.e, acts);
    CommitsConcat(m.executed, acts);
    hide Acts, Sound, FitsAll, Typed;
  }

  lemma FinishConserves(m: Machine, port: nat)
    requires Runs(m) && Conserved(m)
    ensures Conserved(Finish(m, port).0)
  {
    var acts := if m.post.Rows? then m.post.actions else [];
    PerformConserves(m, acts);
    hide Perform, Sound, NothingOpen, LeavesOpen, FitsAll, RowsIn, Commits, RowCount;
  }

  lemma {:induction false} FillConserves(m: Machine, port: nat)
    requires Runs(m) && Conserved(m)
    ensures Conserved(Fill(m, port).0)
    decreases |m.pulls|, !m.eofSeen
  {
    hide Perform, Finish, Sound, RowsIn;
    if RowCount(m.e, port) == 0 {
      if m.eofSeen {
        if !m.posted { FinishConserves(m, port); }
      } else if m.pulls == [] {
        FillConserves(m.(eofSeen := true), port);
      } else {
        var rest := m.(pulls := m.pulls[1..]);
        if m.pulls[0].Rows? {
          PerformConserves(rest, m.pulls[0].actions);
          if m.pulls[0].ok { FillConserves(Perform(rest, m.pulls[0].actions), port); }
        }
      }
    }
  }

  lemma RowsInSnoc(batches: seq<seq<Col>>, b: seq<Col>)
    ensures RowsIn(batches + [b]) == RowsIn(batches) + if b == [] then 0 else b[0].n
  {
    assert (batches + [b])[..|batches|] == batches;
  }

  lemma FlushConserves(m: Machine, port: nat)
    requires Runs(m) && PortOf(m.e, port) && Conserved(m)
    ensures Conserved(Flush(m, port).0)
  {
    FlushSucceeds(m, port);
    RowsInSnoc(m.main, m.e.out);
    RowsInSnoc(m.errors, m.e.err);
    CountsAgree(m, port);
    var r := Flush(m, port).0;
    assert m.e.out != [] && (m.e.errEnabled ==> m.e.err != []);
    assert port == 0 ==> r.main == m.main + [m.e.out] && r.errors == m.errors && r.e.err == m.e.err;
    assert port == 1 ==> r.main == m.main && r.errors == m.errors + [m.e.err] && r.e.out == m.e.out;
    assert r.e.dropped == m.e.dropped && r.executed == m.executed && SameShape(m.e, r.e);
    hide Runs, RowsIn, Flush, Emptied;
    FlushMoves(m, r, port);
  }

  /** Flushing moves the staged rows of one port among the delivered ones. */
  lemma FlushMoves(m: Machine, r: Machine, port: nat)
    requires PortOf(m.e, port) && Conserved(m)
    requires r.e.errEnabled == m.e.errEnabled && r.e.errWired == m.e.errWired
    requires r.e.dropped == m.e.dropped && r.executed == m.executed && RowCount(r.e, port) == 0
    requires port == 0 ==> RowsIn(r.main) == RowsIn(m.main) + RowCount(m.e, 0) && r.errors == m.errors && r.e.err == m.e.err
    requires port == 1 ==> r.main == m.main && RowsIn(r.errors) == RowsIn(m.errors) + RowCount(m.e, 1) && r.e.out == m.e.out
    ensures Conserved(r)
  {
    hide Commits, RowsIn;
  }

  // ---------------------------------------------------------------- one call

  /** PostExecute and Cleanup ran at most once, and only at the end of the upstream. */
  predicate Lifecycle(m: Machine) {
    && (m.posted ==> m.eofSeen) && (m.eofSeen ==> m.pulls == [])
    && m.postCalls == (if m.posted then 1 else 0) && m.cleanupCalls <= m.postCalls
  }

  lemma {:induction false} FillKeepsLifecycle(m: Machine, port: nat)
    requires Runs(m) && Lifecycle(m)
    ensures var (r, how) := Fill(m, port);
            && Lifecycle(r) && (m.posted ==> r.posted) && (m.eofSeen ==> r.eofSeen)
            && (how == Ended ==> r.posted && RowCount(r.e, port) == 0)
            && (how == HasRows ==> RowCount(r.e, port) > 0)
            && (m.posted ==> r == m)
    decreases |m.pulls|, !m.eofSeen
  {
    if RowCount(m.e, port) == 0 {
      if m.eofSeen {
        hide Runs, Acts;
      } else if m.pulls == [] {
        FillKeepsLifecycle(m.(eofSeen := true), port);
        hide Runs, Acts;
      } else {
        var rest := m.(pulls := m.pulls[1..]);
        assert Runs(rest) && PullFits(rest.e, m.pulls[0]) && WholeRows(m.pulls[0]);
        hide Runs, Acts;
        if m.pulls[0].Rows? && m.pulls[0].ok { FillKeepsLifecycle(Perform(rest, m.pulls[0].actions), port); }
      }
    }
  }

  /** The invariant of all runs. */
  predicate Good(m: Machine) { Runs(m) && Conserved(m) && Lifecycle(m) }

  lemma UntaggedIsGood(m: Machine)
    requires Good(m)
    ensures Good(m.(e := m.e.(tag := None)))
  {
    TypedCarries(m, m.e.(tag := None), m.executed);
    assert m.(e := m.e.(tag := None)) == m.(e := m.e.(tag := None), executed := m.executed);
    hide Typed, Shaped;
  }

  lemma GetNextKeepsGood(m: Machine, port: nat)
    requires Good(m) && PortOf(m.e, port)
    ensures var (r, a) := GetNext(m, port);
            && Good(r) && SameShape(m.e, r.e)
            && (a.Batch? ==> a.cols != [] && SameCount(a.cols) && a.cols[0].n > 0)
  {
    UntaggedIsGood(m);
    hide *;
    FillIsGood(m.(e := m.e.(tag := None)), port);
    GetNextIsFill(m, port);
  }

  /** Filling and then flushing keep everything. */
  lemma FillIsGood(m: Machine, port: nat)
    requires Good(m) && PortOf(m.e, port)
    ensures var (f, how) := Fill(m, port);
            && Good(f) && SameShape(m.e, f.e)
            && (how == HasRows ==>
                  var (r, a) := Flush(f, port);
                  Good(r) && SameShape(m.e, r.e) && a.Batch? && a.cols != [] && SameCount(a.cols) && a.cols[0].n > 0)
  {
    FillConserves(m, port);
    FillKeepsLifecycle(m, port);
    var (f, how) := Fill(m, port);
    hide *;
    GoodParts(m);
    PartsAreGood(f);
    if how == HasRows {
      FlushIsGood(f, port);
      ShapeChains(m.e, f.e, Flush(f, port).0.e);
    }
  }

  lemma GoodParts(m: Machine)
    ensures Good(m) <==> Runs(m) && Conserved(m) && Lifecycle(m)
  {}

  lemma PartsAreGood(m: Machine)
    requires Runs(m) && Conserved(m) && Lifecycle(m)
    ensures Good(m)
  {}

  lemma FlushIsGood(f: Machine, port: nat)
    requires Good(f) && PortOf(f.e, port) && RowCount(f.e, port) > 0
    ensures var (r, a) := Flush(f, port);
            Good(r) && SameShape(f.e, r.e) && a.Batch? && a.cols != [] && SameCount(a.cols) && a.cols[0].n > 0
  {
    hide *;
    GoodParts(f);
    FlushConserves(f, port);
    FlushSucceeds(f, port);
    CountsAgree(f, port);
    FlushedLifecycle(f, port);
    PartsAreGood(Flushed(f, port));
  }

  lemma FlushedLifecycle(f: Machine, port: nat)
    requires PortOf(f.e, port) && Lifecycle(f) && Staged(f.e, port) != []
    ensures Lifecycle(Flushed(f, port)) && RowCount(f.e, port) == Staged(f.e, port)[0].n
  {
    hide Emptied;
  }

  lemma GetNextIsFill(m: Machine, port: nat)
    requires Runs(m) && PortOf(m.e, port) && Runs(m.(e := m.e.(tag := None)))
    ensures var (f, how) := Fill(m.(e := m.e.(tag := None)), port);
            GetNext(m, port) == (match how case HasRows => Flush(f, port) case Ended => (f, EndOfStream) case Broken => (f, Failed))
  {
    hide Runs, Fill, Flush;
  }

  /** The port has nothing and never will. */
  predicate Over(m: Machine, port: nat) { m.posted && RowCount(m.e, port) == 0 }

  /** A port that reported its end is over, and stays over whatever either port is asked. */
  lemma EndIsFinal(m: Machine, port: nat, asked: nat)
    requires Good(m) && PortOf(m.e, port) && PortOf(m.e, asked)
    ensures GetNext(m, port).1 == EndOfStream ==> Over(GetNext(m, port).0, port)
    ensures Over(m, port) ==> Over(GetNext(m, asked).0, port) && (asked == port ==> GetNext(m, asked).1 == EndOfStream)
  {
    UntaggedIsGood(m);
    var start := m.(e := m.e.(tag := None));
    FillKeepsLifecycle(start, port);
    FillKeepsLifecycle(start, asked);
    hide Sound, Typed, NothingOpen, Conserved;
    if Over(m, port) {
      var (f, how) := Fill(start, asked);
      assert f == start;
      if how == HasRows { FlushSucceeds(f, asked); }
    }
    hide Fill;
  }

  // ---------------------------------------------------------------- whole runs

  datatype History = History(m: Machine, answers: seq<Answer>)

  predicate PortsOf(e: Emitter, asked: seq<nat>) { forall i :: 0 <= i < |asked| ==> PortOf(e, asked[i]) }

  /** Asking the ports in any order. */
  ghost function Ask(m: Machine, asked: seq<nat>): (h: History)
    requires Good(m) && PortsOf(m.e, asked)
    ensures Good(h.m) && SameShape(m.e, h.m.e) && |h.answers| == |asked|
    decreases |asked|
  {
    if asked == [] then History(m, [])
    else
      var k := |asked| - 1;
      var before := Ask(m, asked[..k]);
      hide Good, SameShape;
      PortCarries(m.e, before.m.e, asked[k]);
      GetNextKeepsGood(before.m, asked[k]);
      ShapeChains(m.e, before.m.e, GetNext(before.m, asked[k]).0.e);
      var (after, a) := GetNext(before.m, asked[k]);
      History(after, before.answers + [a])
  }

  lemma PortCarries(a: Emitter, b: Emitter, port: nat)
    requires SameShape(a, b)
    ensures PortOf(a, port) <==> PortOf(b, port)
  {}

  lemma ShapeChains(a: Emitter, b: Emitter, c: Emitter)
    requires SameShape(a, b) && SameShape(b, c)
    ensures SameShape(a, c)
  {}

  /** Under any interleaving of the ports, rows are conserved, PostExecute and Cleanup run at
      most once and only after the upstream's end, and the columns of each staging agree. */
  lemma RunsAreGood(m: Machine, asked: seq<nat>)
    requires Good(m) && PortsOf(m.e, asked)
    ensures var r := Ask(m, asked).m;
            && Conserved(r) && Lifecycle(r) && SameCount(r.e.out)
            && (r.e.errEnabled ==> SameCount(r.e.err))
  {
    var r := Ask(m, asked).m;
    hide Ask;
  }

  lemma {:induction false} OverStaysOver(m: Machine, asked: seq<nat>, k: nat, port: nat)
    requires Good(m) && PortsOf(m.e, asked) && k <= |asked| && PortOf(m.e, port)
    requires Over(Ask(m, asked[..k]).m, port)
    ensures Over(Ask(m, asked).m, port)
    ensures forall j :: k <= j < |asked| && asked[j] == port ==> Ask(m, asked).answers[j] == EndOfStream
    decreases |asked|
  {
    hide Good, SameShape, Over, GetNext;
    if k == |asked| {
      assert asked[..k] == asked;
    } else {
      var n := |asked| - 1;
      assert asked[..n][..k] == asked[..k];
      OverStaysOver(m, asked[..n], k, port);
      var before := Ask(m, asked[..n]).m;
      PortCarries(m.e, before.e, port);
      PortCarries(m.e, before.e, asked[n]);
      EndIsFinal(before, port, asked[n]);
    }
  }

  /** After a port reported the end of its stream it reports nothing else, in any run. */
  lemma NoRowsAfterTheEnd(m: Machine, asked: seq<nat>, i: nat, j: nat)
    requires Good(m) && PortsOf(m.e, asked) && i < j < |asked| && asked[i] == asked[j]
    requires Ask(m, asked).answers[i] == EndOfStream
    ensures Ask(m, asked).answers[j] == EndOfStream
  {
    hide *;
    PortsKept(m, asked, i);
    AnswersAreKept(m, asked, i + 1);
    EndMakesOver(m, asked[..i + 1]);
    assert Ask(m, asked[..i + 1]).answers[i] == Ask(m, asked).answers[..i + 1][i];
    OverStaysOver(m, asked, i + 1, asked[i]);
  }

  lemma PortsKept(m: Machine, asked: seq<nat>, i: nat)
    requires PortsOf(m.e, asked) && i < |asked|
    ensures PortOf(m.e, asked[i]) && PortsOf(m.e, asked[..i + 1]) && asked[..i + 1][i] == asked[i]
  {
    hide PortOf;
  }

  /** When the last answer of a run is the end of a stream, that port is over. */
  lemma EndMakesOver(m: Machine, asked: seq<nat>)
    requires Good(m) && PortsOf(m.e, asked) && asked != []
    ensures var k := |asked| - 1; Ask(m, asked).answers[k] == EndOfStream ==> Over(Ask(m, asked).m, asked[k])
  {
    var k := |asked| - 1;
    var before := Ask(m, asked[..k]).m;
    hide Good, SameShape;
    PortCarries(m.e, before.e, asked[k]);
    EndIsFinal(before, asked[k], asked[k]);
    hide GetNext, Over;
  }

  lemma {:induction false} AnswersAreKept(m: Machine, asked: seq<nat>, k: nat)
    requires Good(m) && PortsOf(m.e, asked) && k <= |asked|
    ensures Ask(m, asked[..k]).answers == Ask(m, asked).answers[..k]
    decreases |asked|
  {
    hide Good, SameShape, GetNext;
    if k == |asked| {
      assert asked[..k] == asked;
    } else {
      var n := |asked| - 1;
      assert asked[..n][..k] == asked[..k];
      AnswersAreKept(m, asked[..n], k);
    }
  }

  /** Once every port there is has reported its end, all committed rows were delivered, but
      for those dropped because nobody reads the error output. */
  lemma EverythingIsDelivered(m: Machine)
    requires Good(m) && Over(m, 0) && (m.e.errEnabled && m.e.errWired ==> Over(m, 1))
    ensures Commits(m.executed) == RowsIn(m.main) + RowsIn(m.errors) + m.e.dropped
    ensures (m.e.errEnabled ==> m.e.errWired) ==> m.e.dropped == 0
    ensures m.postCalls == 1
  {
    hide Runs;
  }

  // ---------------------------------------------------------------- the upstream is used up in order

  function ActionsOf(p: Pull): seq<Action> { if p.Rows? then p.actions else [] }

  /** What user code does with these upstream batches. */
  function AllActions(pulls: seq<Pull>): seq<Action> {
    if pulls == [] then [] else AllActions(pulls[..|pulls| - 1]) + ActionsOf(pulls[|pulls| - 1])
  }

  /** The calls made so far: those for the upstream batches taken so far, each once and in
      order, and at the end PostExecute's. */
  predicate Consumed(upstream: seq<Pull>, m: Machine) {
    && |m.pulls| <= |upstream| && m.pulls == upstream[|upstream| - |m.pulls|..]
    && m.executed == AllActions(upstream[..|upstream| - |m.pulls|]) + (if m.posted then ActionsOf(m.post) else [])
    && (m.posted ==> m.pulls == [])
  }

  /** One more upstream batch was taken. */
  lemma ConsumesOne(upstream: seq<Pull>, m: Machine, r: Machine)
    requires Consumed(upstream, m) && m.pulls != [] && r.pulls == m.pulls[1..]
    requires r.executed == m.executed + ActionsOf(m.pulls[0]) && r.posted == m.posted
    ensures Consumed(upstream, r)
  {
    var k := |upstream| - |m.pulls|;
    assert upstream[..k + 1][..k] == upstream[..k] && upstream[k..][0] == upstream[k] && upstream[k..][1..] == upstream[k + 1..];
    assert AllActions(upstream[..k]) + [] == AllActions(upstream[..k]);
    assert AllActions(upstream[..k + 1]) + [] == AllActions(upstream[..k + 1]);
  }

  lemma ConsumesPost(upstream: seq<Pull>, m: Machine, r: Machine)
    requires Consumed(upstream, m) && m.pulls == [] && !m.posted && r.posted
    requires r.pulls == m.pulls && r.post == m.post && r.executed == m.executed + ActionsOf(m.post)
    ensures Consumed(upstream, r)
  {
    assert AllActions(upstream) + [] == AllActions(upstream) && upstream[..|upstream|] == upstream;
  }

  lemma ConsumesCarry(upstream: seq<Pull>, m: Machine, r: Machine)
    requires Consumed(upstream, m) && r.pulls == m.pulls && r.posted == m.posted && r.post == m.post && r.executed == m.executed
    ensures Consumed(upstream, r)
  {}

  /** Nothing is left to take once the end was seen. */
  predicate EndSeen(m: Machine) { m.eofSeen ==> m.pulls == [] }

  lemma PerformOnly(m: Machine, acts: seq<Action>)
    requires Runs(m) && FitsAll(m.e, acts) && !LeavesOpen(acts, false)
    ensures var r := Perform(m, acts);
            && Runs(r) && r.executed == m.executed + acts && r.pulls == m.pulls && r.post == m.post
            && r.posted == m.posted && r.eofSeen == m.eofSeen
  {
    hide Runs, Acts, FitsAll, LeavesOpen;
  }

  lemma {:induction false} FillConsumes(upstream: seq<Pull>, m: Machine, port: nat)
    requires Runs(m) && Consumed(upstream, m) && EndSeen(m)
    ensures var f := Fill(m, port).0; Consumed(upstream, f) && EndSeen(f) && f.post == m.post
    decreases |m.pulls|, !m.eofSeen
  {
    if RowCount(m.e, port) == 0 {
      if m.eofSeen {
        if !m.posted { FinishConsumes(upstream, m, port); }
        hide Runs, Finish, Consumed;
      } else if m.pulls == [] {
        ConsumesCarry(upstream, m, m.(eofSeen := true));
        FillConsumes(upstream, m.(eofSeen := true), port);
        hide Consumed, Sound, NothingOpen, PullFits, WholeRows, Finish;
      } else {
        PullConsumes(upstream, m, port);
      }
    }
  }

  lemma PullConsumes(upstream: seq<Pull>, m: Machine, port: nat)
    requires Runs(m) && Consumed(upstream, m) && RowCount(m.e, port) == 0 && !m.eofSeen && m.pulls != []
    ensures var f := Fill(m, port).0; Consumed(upstream, f) && EndSeen(f) && f.post == m.post
    decreases |m.pulls|, false, 0
  {
    var rest := m.(pulls := m.pulls[1..]);
    assert Runs(rest) && PullFits(rest.e, m.pulls[0]) && WholeRows(m.pulls[0]);
    match m.pulls[0]
    case Failure =>
      ConsumesOne(upstream, m, rest);
      hide Runs, Consumed;
    case Rows(acts, ok) =>
      var next := Perform(rest, acts);
      PerformOnly(rest, acts);
      hide Runs, Consumed, Perform, FitsAll, LeavesOpen;
      ConsumesOne(upstream, m, next);
      if ok { FillConsumes(upstream, next, port); }
  }

  lemma FinishConsumes(upstream: seq<Pull>, m: Machine, port: nat)
    requires Runs(m) && Consumed(upstream, m) && m.pulls == [] && !m.posted
    ensures var f := Finish(m, port).0; Consumed(upstream, f) && f.pulls == [] && f.post == m.post
  {
    var acts := ActionsOf(m.post);
    assert FitsAll(m.e, acts) && !LeavesOpen(acts, false);
    PerformOnly(m, acts);
    hide Runs, Perform, FitsAll, LeavesOpen, Consumed;
    ConsumesPost(upstream, m, Finish(m, port).0);
  }

  lemma GetNextConsumes(upstream: seq<Pull>, m: Machine, port: nat)
    requires Good(m) && PortOf(m.e, port) && Consumed(upstream, m)
    ensures Consumed(upstream, GetNext(m, port).0)
  {
    hide *;
    UntaggedIsGood(m);
    var start := m.(e := m.e.(tag := None));
    GoodParts(m);
    GoodParts(start);
    ConsumesCarry(upstream, m, start);
    EndIsSeenWhen(start);
    FillConsumes(upstream, start, port);
    SamePort(m, start, port);
    FillIsGood(start, port);
    GetNextIsFill(m, port);
    var (f, how) := Fill(start, port);
    GoodParts(f);
    if how == HasRows {
      PortCarries(start.e, f.e, port);
      FlushSucceeds(f, port);
      FlushedConsumes(upstream, f, port);
    }
  }

  lemma EndIsSeenWhen(m: Machine)
    requires Lifecycle(m)
    ensures EndSeen(m)
  {}

  lemma SamePort(m: Machine, r: Machine, port: nat)
    requires PortOf(m.e, port) && r.e == m.e.(tag := None)
    ensures PortOf(r.e, port)
  {}

  lemma FlushedConsumes(upstream: seq<Pull>, m: Machine, port: nat)
    requires Consumed(upstream, m) && PortOf(m.e, port)
    ensures Consumed(upstream, Flushed(m, port))
  {
    ConsumesCarry(upstream, m, Flushed(m, port));
    hide Consumed, Emptied;
  }

  /** In any run user code sees every upstream batch at most once, in order and none left out,
      then PostExecute. */
  lemma {:induction false} RunsConsume(upstream: seq<Pull>, m: Machine, asked: seq<nat>)
    requires Good(m) && PortsOf(m.e, asked) && Consumed(upstream, m)
    ensures Consumed(upstream, Ask(m, asked).m)
    decreases |asked|
  {
    if asked != [] {
      var k := |asked| - 1;
      RunsConsume(upstream, m, asked[..k]);
      var before := Ask(m, asked[..k]).m;
      PortCarries(m.e, before.e, asked[k]);
      hide Good, SameShape, Consumed, GetNext;
      GetNextConsumes(upstream, before, asked[k]);
    }
  }

  /** A port that reported its end did so after everything there is was done. */
  lemma OverMeansAll(upstream: seq<Pull>, m: Machine, port: nat)
    requires Consumed(upstream, m) && Over(m, port)
    ensures m.executed == AllActions(upstream) + ActionsOf(m.post)
  {
    assert upstream[..|upstream|] == upstream;
  }

  /** A fresh component. */
  function Begin(kinds: seq<Kind>, errEnabled: bool, errWired: bool, pulls: seq<Pull>, post: Pull, cleanupOk: bool): Machine
    requires kinds != []
  {
    var cols := seq(|kinds|, i requires 0 <= i < |kinds| => NewCol(kinds[i]));
    var err := if errEnabled then cols + [NewCol(Fixed), NewCol(Fixed)] else [];
    Machine(Emitter(cols, seq(|kinds|, _ => false), err, errEnabled, errEnabled && errWired, None, 0),
            pulls, false, false, post, cleanupOk, [], [], [], 0, 0)
  }

  lemma BeginIsGood(kinds: seq<Kind>, errEnabled: bool, errWired: bool, pulls: seq<Pull>, post: Pull, cleanupOk: bool)
    requires kinds != [] && Typed(Begin(kinds, errEnabled, errWired, pulls, post, cleanupOk))
    ensures Good(Begin(kinds, errEnabled, errWired, pulls, post, cleanupOk))
  {
    hide Typed;
  }

  lemma BeginConsumes(kinds: seq<Kind>, errEnabled: bool, errWired: bool, pulls: seq<Pull>, post: Pull, cleanupOk: bool)
    requires kinds != []
    ensures Consumed(pulls, Begin(kinds, errEnabled, errWired, pulls, post, cleanupOk))
  {}
}
