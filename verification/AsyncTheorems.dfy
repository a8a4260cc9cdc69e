/** What every interleaving of the asynchronous edge keeps, and where it can hang. */
module AsyncTheorems {
  import opened AsyncQueue
  import opened AsyncProtocol

  lemma InitHolds<T>(up: Upstream<T>, depth: nat)
    ensures Inv(up, Init<T>(depth))
  {
    NewQueueIsEmpty<T>(Depth(depth));
  }

  // ---------------------------------------------------------------- batches

  /** A batch enters the outstanding window when it is pulled. */
  lemma PullAccounts<T>(up: Upstream<T>, s: State<T>)
    requires Inv(up, s) && s.producer.Pulling?
    ensures Accounted(up, Next(up, s, PullUpstream))
  {
    hide Contents, Wellformed;
    assert s.discarded == [];
    var lo, hi := Handed(up, s), s.pulled;
    assert hi < |up.batches| ==> up.batches[lo..hi + 1] == up.batches[lo..hi] + [up.batches[hi]];
  }

  lemma PushAccounts<T>(up: Upstream<T>, s: State<T>)
    requires Inv(up, s) && s.producer.Pushing? && s.q.ring != []
    ensures Accounted(up, Next(up, s, ProducerLocks))
  {
    if !s.q.stop { PushAppends(s.q, s.producer.batch); }
    hide Contents, Wellformed, Push;
    assert s.discarded == [];
  }

  /** The oldest outstanding batch is the next one the consumer expects. */
  lemma FirstOutstanding<T>(up: Upstream<T>, s: State<T>)
    requires Accounted(up, s) && s.q.n > 0 && s.drained == []
    ensures Contents(s.q)[0] == up.batches[Handed(up, s)] && |s.answers| < |up.batches|
    ensures Contents(s.q)[1..] + InHand(s.producer) + s.discarded == up.batches[Handed(up, s) + 1..s.pulled]
  {
    hide Contents, Wellformed;
    var c, w := Contents(s.q), up.batches[Handed(up, s)..s.pulled];
    var rest := InHand(s.producer) + s.discarded;
    assert c + rest == w by {
      assert s.drained + c + InHand(s.producer) + s.discarded == c + rest;
    }
    assert w[0] == c[0] && w[1..] == c[1..] + rest;
    assert c[1..] + rest == c[1..] + InHand(s.producer) + s.discarded;
  }

  lemma TakeAccounts<T>(up: Upstream<T>, s: State<T>)
    requires Inv(up, s) && s.consumer.Asking?
    ensures Accounted(up, Next(up, s, ConsumerLocks))
  {
    HeadIsFull(s.q);
    if s.q.n > 0 {
      PopTakesFirst(s.q);
      FirstOutstanding(up, s);
      hide Contents, Wellformed, Pop;
      var t := Next(up, s, ConsumerLocks);
      assert Handed(up, t) == Handed(up, s) + 1;
      assert t.drained + Contents(t.q) == Contents(t.q);
    } else {
      hide Contents, Wellformed;
      assert Ready(s.q) ==> s.q.n == 0 && s.producer.Exited?;
      AllDelivered(up, s);
    }
  }

  /** Once the terminal is posted and the queue is empty, every batch has been handed over. */
  lemma AllDelivered<T>(up: Upstream<T>, s: State<T>)
    requires Inv(up, s) && s.consumer.Asking? && s.q.n == 0
    ensures Ready(s.q) ==> Handed(up, s) == |up.batches| && s.q.err == up.fails
  {
    if Ready(s.q) {
      assert Contents(s.q) == [];
      assert |up.batches[Handed(up, s)..s.pulled]| == 0;
    }
  }

  lemma DrainAccounts<T>(up: Upstream<T>, s: State<T>)
    requires Inv(up, s) && Enabled(s, DrainOne)
    ensures Accounted(up, Next(up, s, DrainOne))
  {
    PopTakesFirst(s.q);
    hide Contents, Wellformed, Pop;
    var t := Next(up, s, DrainOne);
    assert t.drained + Contents(t.q) == s.drained + Contents(s.q);
  }

  lemma StepAccounts<T>(up: Upstream<T>, s: State<T>, step: Step)
    requires Inv(up, s) && Enabled(s, step)
    ensures Accounted(up, Next(up, s, step))
  {
    match step {
      case ProducerLocks =>
        if s.producer.Pushing? {
          PushAccounts(up, s);
        } else {
          FlagsKeepContents(s.q, s.q.eof, true, s.q.err);
          FlagsKeepContents(s.q, true, s.q.stop, s.q.err);
          FlagsKeepContents(s.q, s.q.eof, s.q.stop, true);
          hide Contents, Wellformed;
        }
      case ConsumerLocks => TakeAccounts(up, s);
      case DrainOne => DrainAccounts(up, s);
      case ReleaseLocks =>
        FlagsKeepContents(s.q, s.q.eof, true, s.q.err);
        hide Contents, Wellformed;
      case PullUpstream => PullAccounts(up, s);
      case _ => hide Contents, Wellformed;
    }
  }

  // ---------------------------------------------------------------- control

  lemma ProducerControls<T>(up: Upstream<T>, s: State<T>)
    requires Inv(up, s) && Enabled(s, ProducerLocks)
    ensures Control(up, Next(up, s, ProducerLocks))
  {
    if s.producer.Pushing? { assert |Push(s.q, s.producer.batch).ring| == |s.q.ring|; }
    hide Contents, Wellformed, SlotAt;
  }

  lemma ConsumerControls<T>(up: Upstream<T>, s: State<T>)
    requires Inv(up, s) && Enabled(s, ConsumerLocks)
    ensures Control(up, Next(up, s, ConsumerLocks))
  {
    HeadIsFull(s.q);
    if s.q.n > 0 { FirstOutstanding(up, s); }
    hide Contents, SlotAt;
  }

  lemma StepControls<T>(up: Upstream<T>, s: State<T>, step: Step)
    requires Inv(up, s) && Enabled(s, step)
    ensures Control(up, Next(up, s, step))
  {
    match step {
      case ProducerLocks => ProducerControls(up, s);
      case ConsumerLocks => ConsumerControls(up, s);
      case DrainOne => HeadIsFull(s.q); hide Contents, SlotAt;
      case _ => hide Contents, Wellformed, SlotAt;
    }
  }

  /** Every step of every interleaving keeps the invariant. */
  lemma StepKeeps<T>(up: Upstream<T>, s: State<T>, step: Step)
    requires Inv(up, s) && Enabled(s, step)
    ensures Inv(up, Next(up, s, step))
  {
    hide Accounted, Control, Next, Enabled;
    StepAccounts(up, s, step);
    StepControls(up, s, step);
  }
}
