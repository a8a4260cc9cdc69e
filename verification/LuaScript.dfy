/**
 lua.script (providers/betl-lua/lua_provider.c), the one-port case: on_row and on_eof are the
 rows they emit. R is an emitted row.
 */
module LuaScript {
  import opened Text

  /** One call of a script function. */
  datatype Called<R> = Called(emits: seq<R>, ok: bool)

  /** One upstream get_next: the on_row calls of a batch's rows, or a failure. */
  datatype Pull<R> = Rows(calls: seq<Called<R>>) | Failure

  datatype Answer<R> = Batch(rows: seq<R>) | EndOfStream | Failed

  datatype Script<R> = Script(
    pulls: seq<Pull<R>>,
    onEof: Option<Called<R>>,
    eofSeen: bool,
    buffered: seq<R>,
    emitted: seq<R>,            // everything the script ever emitted
    delivered: seq<seq<R>>,     // the batches handed out
    eofCalls: nat)

  function Emit<R>(s: Script<R>, rows: seq<R>): Script<R> {
    s.(buffered := s.buffered + rows, emitted := s.emitted + rows)
  }

  /** on_row over a batch, up to the first call that raises. */
  function RunRows<R>(s: Script<R>, calls: seq<Called<R>>): (r: (Script<R>, bool))
    ensures r.0.pulls == s.pulls && r.0.eofSeen == s.eofSeen && r.0.onEof == s.onEof
    ensures r.0.delivered == s.delivered && r.0.eofCalls == s.eofCalls
    decreases |calls|
  {
    if calls == [] then (s, true)
    else
      var next := Emit(s, calls[0].emits);
      if calls[0].ok then RunRows(next, calls[1..]) else (next, false)
  }

  function Flush<R>(s: Script<R>): (Script<R>, Answer<R>) {
    if s.buffered == [] then (s, EndOfStream)
    else (s.(buffered := [], delivered := s.delivered + [s.buffered]), Batch(s.buffered))
  }

  /** The end of the upstream: on_eof, if there is one. */
  function AtEnd<R>(s: Script<R>): (Script<R>, Answer<R>) {
    var ended := s.(eofSeen := true);
    match s.onEof
    case None => Flush(ended)
    case Some(call) =>
      var called := Emit(ended, call.emits).(eofCalls := s.eofCalls + 1);
      if call.ok then Flush(called) else (called, Failed)
  }

  /** lua_script_get_next. */
  function GetNext<R>(s: Script<R>): (Script<R>, Answer<R>)
    decreases |s.pulls|
  {
    if s.buffered != [] || s.eofSeen then Flush(s)
    else if s.pulls == [] then AtEnd(s)
    else
      var rest := s.(pulls := s.pulls[1..]);
      match s.pulls[0]
      case Failure => (rest, Failed)
      case Rows(calls) =>
        var (ran, ok) := RunRows(rest, calls);
        if ok then GetNext(ran) else (ran, Failed)
  }

  class Stream<R(==)> {
    var s: Script<R>

    constructor (start: Script<R>)
      ensures s == start
    {
      s := start;
    }

    method RunBatch(calls: seq<Called<R>>) returns (ok: bool)
      modifies this`s
      ensures (s, ok) == RunRows(old(s), calls)
    {
      var i := 0;
      assert calls[0..] == calls;
      while i < |calls|
        invariant i <= |calls| && RunRows(old(s), calls) == RunRows(s, calls[i..])
      {
        assert calls[i..][1..] == calls[i + 1..];
        s := Emit(s, calls[i].emits);
        if !calls[i].ok { return false; }
        i := i + 1;
      }
      return true;
    }

    method Next() returns (answer: Answer<R>)
      modifies this`s
      ensures (s, answer) == GetNext(old(s))
    {
      while s.buffered == []
        invariant GetNext(old(s)) == GetNext(s)
        decreases |s.pulls|
      {
        if s.eofSeen { return EndOfStream; }
        if s.pulls == [] {
          var ended := AtEnd(s);
          s := ended.0;
          return ended.1;
        }
        var pull := s.pulls[0];
        s := s.(pulls := s.pulls[1..]);
        if pull.Failure? { return Failed; }
        var ok := RunBatch(pull.calls);
        if !ok { return Failed; }
      }
      var flushed := Flush(s);
      s := flushed.0;
      return flushed.1;
    }
  }

  // ---------------------------------------------------------------- what runs keep

  function Concat<R>(batches: seq<seq<R>>): seq<R> {
    if batches == [] then [] else Concat(batches[..|batches| - 1]) + batches[|batches| - 1]
  }

  /** Everything emitted was delivered or is buffered, in order; no batch is empty; on_eof ran
      at most once, at the end. */
  predicate Good<R(==)>(s: Script<R>) {
    && s.emitted == Concat(s.delivered) + s.buffered
    && (forall i :: 0 <= i < |s.delivered| ==> s.delivered[i] != [])
    && s.eofCalls == (if s.eofSeen && s.onEof.Some? then 1 else 0) && (s.eofSeen ==> s.pulls == [])
  }

  lemma EmitKeeps<R>(s: Script<R>, rows: seq<R>)
    requires s.emitted == Concat(s.delivered) + s.buffered
    ensures Emit(s, rows).emitted == Concat(s.delivered) + Emit(s, rows).buffered
  {
    assert Concat(s.delivered) + s.buffered + rows == Concat(s.delivered) + (s.buffered + rows);
  }

  lemma {:induction false} RunRowsKeeps<R>(s: Script<R>, calls: seq<Called<R>>)
    requires s.emitted == Concat(s.delivered) + s.buffered
    ensures var r := RunRows(s, calls).0; r.emitted == Concat(r.delivered) + r.buffered
    decreases |calls|
  {
    if calls != [] {
      EmitKeeps(s, calls[0].emits);
      hide Concat;
      if calls[0].ok { RunRowsKeeps(Emit(s, calls[0].emits), calls[1..]); }
    }
  }

  lemma FlushKeeps<R>(s: Script<R>)
    requires Good(s)
    ensures Good(Flush(s).0)
  {
    ConcatSnoc(s.delivered, s.buffered);
    hide Concat;
    var d := s.delivered + [s.buffered];
    assert s.buffered != [] ==> forall i :: 0 <= i < |d| ==> d[i] != [];
  }

  lemma ConcatSnoc<R>(batches: seq<seq<R>>, b: seq<R>)
    ensures Concat(batches + [b]) + [] == Concat(batches) + b
  {
    assert (batches + [b])[..|batches|] == batches;
    assert Concat(batches + [b]) + [] == Concat(batches + [b]);
  }

  lemma {:induction false} GetNextKeeps<R>(s: Script<R>)
    requires Good(s)
    ensures var (r, a) := GetNext(s);
            Good(r) && (a == EndOfStream ==> r.eofSeen && r.buffered == []) && (a.Batch? ==> a.rows != [])
    decreases |s.pulls|
  {
    if s.buffered != [] || s.eofSeen {
      FlushKeeps(s);
      hide Good;
    } else if s.pulls == [] {
      var ended := s.(eofSeen := true);
      if s.onEof.Some? {
        EmitKeeps(ended, s.onEof.value.emits);
        FlushKeeps(Emit(ended, s.onEof.value.emits).(eofCalls := s.eofCalls + 1));
      } else {
        FlushKeeps(ended);
      }
      hide Concat;
    } else {
      var rest := s.(pulls := s.pulls[1..]);
      if s.pulls[0].Rows? {
        RunRowsKeeps(rest, s.pulls[0].calls);
        var (ran, ok) := RunRows(rest, s.pulls[0].calls);
        assert Good(ran);
        hide Good, RunRows;
        if ok { GetNextKeeps(ran); }
      }
    }
  }

  // ---------------------------------------------------------------- the upstream is used up in order

  /** The rows of a batch's on_row calls, up to and with the first that raises. */
  function EmitsOf<R>(calls: seq<Called<R>>): seq<R> {
    if calls == [] then [] else calls[0].emits + (if calls[0].ok then EmitsOf(calls[1..]) else [])
  }

  function AllEmits<R>(pulls: seq<Pull<R>>): seq<R> {
    if pulls == [] then []
    else
      var last := pulls[|pulls| - 1];
      AllEmits(pulls[..|pulls| - 1]) + (if last.Rows? then EmitsOf(last.calls) else [])
  }

  /** What was emitted: the rows of the upstream batches taken so far, each once and in order,
      and at the end those of on_eof. */
  predicate Consumed<R(==)>(upstream: seq<Pull<R>>, s: Script<R>) {
    && |s.pulls| <= |upstream| && s.pulls == upstream[|upstream| - |s.pulls|..] && (s.eofSeen ==> s.pulls == [])
    && s.emitted == AllEmits(upstream[..|upstream| - |s.pulls|])
                    + (if s.eofSeen && s.onEof.Some? then s.onEof.value.emits else [])
  }

  lemma {:induction false} RunRowsEmits<R>(s: Script<R>, calls: seq<Called<R>>)
    ensures RunRows(s, calls).0.emitted == s.emitted + EmitsOf(calls)
    decreases |calls|
  {
    assert s.emitted + [] == s.emitted;
    if calls != [] {
      RunRowsEmits(Emit(s, calls[0].emits), calls[1..]);
      assert s.emitted + calls[0].emits + EmitsOf(calls[1..]) == s.emitted + (calls[0].emits + EmitsOf(calls[1..]));
      assert calls[0].emits + [] == calls[0].emits;
    }
  }

  lemma TakesOne<R>(upstream: seq<Pull<R>>, s: Script<R>, r: Script<R>)
    requires Consumed(upstream, s) && s.pulls != [] && r.pulls == s.pulls[1..] && r.eofSeen == s.eofSeen
    requires r.emitted == s.emitted + (if s.pulls[0].Rows? then EmitsOf(s.pulls[0].calls) else [])
    ensures Consumed(upstream, r)
  {
    var k := |upstream| - |s.pulls|;
    assert upstream[..k + 1][..k] == upstream[..k] && upstream[k..][0] == upstream[k] && upstream[k..][1..] == upstream[k + 1..];
    assert AllEmits(upstream[..k]) + [] == AllEmits(upstream[..k]);
    assert AllEmits(upstream[..k + 1]) + [] == AllEmits(upstream[..k + 1]);
    hide EmitsOf;
  }

  lemma EndConsumes<R>(upstream: seq<Pull<R>>, s: Script<R>)
    requires Consumed(upstream, s) && s.pulls == [] && !s.eofSeen
    ensures Consumed(upstream, AtEnd(s).0)
  {
    assert upstream[..|upstream|] == upstream && AllEmits(upstream) + [] == AllEmits(upstream);
    hide AllEmits;
  }

  lemma {:induction false} GetNextConsumes<R>(upstream: seq<Pull<R>>, s: Script<R>)
    requires Consumed(upstream, s)
    ensures Consumed(upstream, GetNext(s).0)
    decreases |s.pulls|
  {
    if s.buffered != [] || s.eofSeen {
      hide AllEmits;
    } else if s.pulls == [] {
      EndConsumes(upstream, s);
      hide Consumed, AtEnd;
    } else {
      var rest := s.(pulls := s.pulls[1..]);
      match s.pulls[0]
      case Failure =>
        assert s.emitted + [] == s.emitted;
        TakesOne(upstream, s, rest);
        hide Consumed;
      case Rows(calls) =>
        RunRowsEmits(rest, calls);
        var (ran, ok) := RunRows(rest, calls);
        TakesOne(upstream, s, ran);
        hide Consumed, RunRows, EmitsOf;
        if ok { GetNextConsumes(upstream, ran); }
    }
  }

  function Run<R>(s: Script<R>, n: nat): Script<R> { if n == 0 then s else GetNext(Run(s, n - 1)).0 }

  /** However often the stream is asked, also past failures: batches are never empty and the
      rows handed out, followed by those still buffered, are the rows emitted, in order. */
  lemma {:induction false} RunsAreGood<R>(s: Script<R>, n: nat)
    requires Good(s)
    ensures Good(Run(s, n))
  {
    if n > 0 {
      RunsAreGood(s, n - 1);
      GetNextKeeps(Run(s, n - 1));
      hide Good, GetNext;
    }
  }

  /** However often the stream is asked, no upstream batch is left out, repeated or moved; at
      the end the script emitted the rows of all of them and then those of on_eof. */
  lemma {:induction false} RunsConsume<R>(upstream: seq<Pull<R>>, s: Script<R>, n: nat)
    requires Consumed(upstream, s)
    ensures var r := Run(s, n);
            && Consumed(upstream, r)
            && (r.eofSeen ==> r.emitted == AllEmits(upstream) + (if r.onEof.Some? then r.onEof.value.emits else []))
  {
    if n > 0 {
      RunsConsume(upstream, s, n - 1);
      GetNextConsumes(upstream, Run(s, n - 1));
    }
    hide GetNext, AllEmits, Consumed;
    ConsumedAtEnd(upstream, Run(s, n));
  }

  lemma ConsumedAtEnd<R>(upstream: seq<Pull<R>>, s: Script<R>)
    requires Consumed(upstream, s)
    ensures s.eofSeen ==> s.emitted == AllEmits(upstream) + (if s.onEof.Some? then s.onEof.value.emits else [])
  {
    assert upstream[..|upstream|] == upstream;
    hide AllEmits;
    if s.eofSeen && s.onEof.None? { assert AllEmits(upstream) + [] == AllEmits(upstream); }
  }

  /** The end is final, and by then every emitted row has been handed out. */
  lemma {:induction false} EndIsFinal<R>(s: Script<R>, n: nat)
    requires Good(s) && GetNext(s).1 == EndOfStream
    ensures var r := GetNext(s).0;
            Concat(r.delivered) == r.emitted && Run(r, n) == r && GetNext(r) == (r, EndOfStream)
    decreases n
  {
    GetNextKeeps(s);
    var r := GetNext(s).0;
    assert Concat(r.delivered) + [] == Concat(r.delivered);
    if n > 0 { EndIsFinal(s, n - 1); }
    hide Concat;
  }
}
