/** Whole runs of the asynchronous edge: refinement, ownership, progress, and the one hang. */
module AsyncRuns {
  import opened AsyncQueue
  import opened AsyncProtocol
  import opened AsyncTheorems

  /** `steps`, each enabled when taken, lead from `s` to `t`. */
  ghost predicate Reaches<T>(up: Upstream<T>, s: State<T>, steps: seq<Step>, t: State<T>)
    decreases |steps|
  {
    if steps == [] then s == t
    else Wellformed(s.q) && Enabled(s, steps[0]) && Reaches(up, Next(up, s, steps[0]), steps[1..], t)
  }

  lemma {:induction false} RunKeeps<T>(up: Upstream<T>, s: State<T>, steps: seq<Step>, t: State<T>)
    requires Inv(up, s) && Reaches(up, s, steps, t)
    ensures Inv(up, t)
    decreases |steps|
  {
    if steps != [] {
      hide Accounted, Control, Next, Enabled;
      StepKeeps(up, s, steps[0]);
      RunKeeps(up, Next(up, s, steps[0]), steps[1..], t);
    }
  }

  // ---------------------------------------------------------------- safety

  /** The wrapper is indistinguishable from its upstream: whatever the depth and the
      interleaving, the answers are the upstream's batches in order and then its terminal,
      repeated; no terminal comes before the last batch. */
  lemma WrapperRefinesUpstream<T>(up: Upstream<T>, depth: nat, steps: seq<Step>, t: State<T>)
    requires Reaches(up, Init<T>(depth), steps, t)
    ensures forall i :: 0 <= i < |t.answers| ==> t.answers[i] == Expected(up, i)
  {
    InitHolds(up, depth);
    RunKeeps(up, Init<T>(depth), steps, t);
  }

  /** Two runs that answered equally often answered the same, at any two depths. */
  lemma DepthIsInvisible<T>(up: Upstream<T>, d1: nat, r1: seq<Step>, t1: State<T>, d2: nat, r2: seq<Step>, t2: State<T>)
    requires Reaches(up, Init<T>(d1), r1, t1) && Reaches(up, Init<T>(d2), r2, t2)
    requires |t1.answers| == |t2.answers|
    ensures t1.answers == t2.answers
  {
    WrapperRefinesUpstream(up, d1, r1, t1);
    WrapperRefinesUpstream(up, d2, r2, t2);
  }

  function HandedBatches<T>(up: Upstream<T>, s: State<T>): seq<T> { up.batches[..Handed(up, s)] }

  lemma OneWindow<T>(batches: seq<T>, h: nat, p: nat, drained: seq<T>, queued: seq<T>, held: seq<T>, discarded: seq<T>)
    requires h <= p <= |batches| && drained + queued + held + discarded == batches[h..p]
    ensures batches[..p] == batches[..h] + drained + queued + held + discarded
  {
    assert batches[..p] == batches[..h] + batches[h..p];
    assert batches[..h] + drained + queued + held + discarded
        == batches[..h] + (drained + queued + held + discarded);
  }

  /** At every moment each pulled batch is in exactly one place: with the consumer, released
      by the drain, queued, in the producer's hand, or released by the producer. */
  lemma BatchesHaveOneOwner<T>(up: Upstream<T>, depth: nat, steps: seq<Step>, t: State<T>)
    requires Reaches(up, Init<T>(depth), steps, t)
    ensures Wellformed(t.q)
    ensures t.pulled <= |up.batches|
    ensures up.batches[..t.pulled]
         == HandedBatches(up, t) + t.drained + Contents(t.q) + InHand(t.producer) + t.discarded
    ensures t.discarded != [] || t.drained != [] ==> t.q.stop || t.producer.Exited?
  {
    InitHolds(up, depth);
    RunKeeps(up, Init<T>(depth), steps, t);
    hide Contents, Wellformed;
    OneWindow(up.batches, Handed(up, t), t.pulled, t.drained, Contents(t.q), InHand(t.producer), t.discarded);
  }

  /** After release nothing is left: every pulled batch was handed over or released once, the
      ring is empty, and the upstream stream was released once. */
  lemma ReleaseLeavesNothing<T>(up: Upstream<T>, depth: nat, steps: seq<Step>, t: State<T>)
    requires Reaches(up, Init<T>(depth), steps, t) && t.consumer.Released?
    ensures t.pulled <= |up.batches| && up.batches[..t.pulled] == HandedBatches(up, t) + t.drained + t.discarded
    ensures forall i :: 0 <= i < |t.q.ring| ==> t.q.ring[i].Empty?
    ensures t.upstreamReleases == 1 && (t.producer.Exited? || t.producer.NotStarted?)
  {
    InitHolds(up, depth);
    RunKeeps(up, Init<T>(depth), steps, t);
    BatchesHaveOneOwner(up, depth, steps, t);
    AllSlotsEmpty(t.q);
    assert Contents(t.q) == [];
  }

  /** The room found before the lock was dropped is still there when the push takes it. */
  lemma PushFindsItsSlotEmpty<T>(up: Upstream<T>, depth: nat, steps: seq<Step>, t: State<T>)
    requires Reaches(up, Init<T>(depth), steps, t) && t.producer.Pushing? && !t.q.stop
    ensures Wellformed(t.q) && t.q.n < |t.q.ring| && t.q.ring[SlotAt(t.q, t.q.n)].Empty?
  {
    InitHolds(up, depth);
    RunKeeps(up, Init<T>(depth), steps, t);
  }

  /** No wakeup is lost: a sleeping producer faces a full ring and no stop, a sleeping
      consumer an empty one without a terminal, and the two never sleep together. Without a
      cancellation a sleeping consumer always has a live producer. */
  lemma SleepersHaveReasons<T>(up: Upstream<T>, depth: nat, steps: seq<Step>, t: State<T>)
    requires Reaches(up, Init<T>(depth), steps, t)
    ensures t.producer.AsleepOnFull? ==> t.q.n == |t.q.ring| && !t.q.stop
    ensures t.consumer.AsleepOnEmpty? ==> t.q.n == 0 && !t.q.eof && !t.q.err
    ensures !(t.producer.AsleepOnFull? && t.consumer.AsleepOnEmpty?)
    ensures t.consumer.AsleepOnEmpty? && !t.cancelled ==> !t.producer.Exited? && !t.producer.NotStarted?
  {
    InitHolds(up, depth);
    RunKeeps(up, Init<T>(depth), steps, t);
  }

  // ---------------------------------------------------------------- progress

  /** Steps the two threads take by themselves: no spurious wakeup, no new consumer call. */
  predicate Own(step: Step) {
    step in {ConsumerLocks, ReleaseLocks, Join, DrainOne, FinishRelease, ProducerLocks, PullUpstream}
  }

  function Room<T>(s: State<T>): nat { if s.q.n <= |s.q.ring| then |s.q.ring| - s.q.n else 0 }

  /** Steps the producer can take before it blocks or exits, if nothing is taken out. */
  function ProducerRank<T>(s: State<T>): nat {
    match s.producer
    case AtRoomCheck => 3 * Room(s) + 1
    case Pulling => 3 * Room(s)
    case Pushing(_) => if Room(s) > 0 then 3 * Room(s) - 1 else 1
    case PostingEnd(_) => 1
    case PostingCancel => 1
    case _ => 0
  }

  function ConsumerRank<T>(s: State<T>): nat {
    var cap := |s.q.ring|;
    match s.consumer
    case Asking => if Ready(s.q) then 1 else 3
    case AsleepOnEmpty => 2
    case Stopping => 4 * cap + 5
    case Joining => cap + 2
    case Draining => s.q.n + 1
    case _ => 0
  }

  function Rank<T>(s: State<T>): nat { ProducerRank(s) + ConsumerRank(s) }

  predicate InGetNext(c: Consumer) { c.Asking? || c.AsleepOnEmpty? }

  predicate InRelease(c: Consumer) { c.Stopping? || c.Joining? || c.Draining? }

  lemma ProducerStepRanks<T>(up: Upstream<T>, s: State<T>, step: Step)
    requires Inv(up, s) && Enabled(s, step)
    requires step == ProducerLocks || step == PullUpstream || step == SeeCancel
    requires s.cancelled || step == SeeCancel ==> InRelease(s.consumer)
    ensures Next(up, s, step).consumer == s.consumer || (s.consumer.AsleepOnEmpty? && Next(up, s, step).consumer.Asking?)
    ensures Rank(Next(up, s, step)) < Rank(s)
  {
    if s.producer.Pushing? { assert |Push(s.q, s.producer.batch).ring| == |s.q.ring|; }
    hide Contents, Wellformed, SlotAt;
  }

  lemma ConsumerStepRanks<T>(up: Upstream<T>, s: State<T>, step: Step)
    requires Inv(up, s) && Enabled(s, step) && Own(step) && step != ProducerLocks && step != PullUpstream
    ensures InGetNext(s.consumer) ==> Rank(Next(up, s, step)) < Rank(s) || Next(up, s, step).consumer.Idle?
    ensures InRelease(s.consumer) ==> Rank(Next(up, s, step)) < Rank(s) && !Next(up, s, step).consumer.Idle?
  {
    HeadIsFull(s.q);
    hide Contents, SlotAt;
  }

  lemma SomethingIsEnabled<T>(up: Upstream<T>, s: State<T>)
    requires Inv(up, s) && (InGetNext(s.consumer) || InRelease(s.consumer))
    requires s.cancelled ==> InRelease(s.consumer)
    ensures exists step :: Own(step) && Enabled(s, step)
  {
    hide Contents;
    var step := match s.consumer
      case Asking => ConsumerLocks
      case Stopping => ReleaseLocks
      case Draining => if s.q.n > 0 then DrainOne else FinishRelease
      case Joining => if s.producer.Exited? then Join else if s.producer.Pulling? then PullUpstream else ProducerLocks
      case _ => if s.producer.Pulling? then PullUpstream else ProducerLocks;
    assert Own(step) && Enabled(s, step);
  }

  /** The steps of a schedule: the threads' own, and the host's cancellation if it may come. */
  predicate Scheduled(step: Step, mayCancel: bool) { Own(step) || (mayCancel && step == SeeCancel) }

  /** Every schedule brings the consumer's get_next back within `bound` steps, with the answer
      the upstream would have given. */
  ghost predicate GetNextReturns<T>(up: Upstream<T>, s: State<T>, asked: nat, mayCancel: bool, bound: nat)
    requires Wellformed(s.q)
    decreases bound
  {
    if s.consumer.Idle? then |s.answers| == asked + 1 && s.answers[asked] == Expected(up, asked)
    else
      && bound > 0
      && (exists step :: Own(step) && Enabled(s, step))
      && (forall step :: Scheduled(step, mayCancel) && Enabled(s, step) ==>
            Wellformed(Next(up, s, step).q) && GetNextReturns(up, Next(up, s, step), asked, mayCancel, bound - 1))
  }

  /** Something is there to hand out, or will be: the producer has not been cancelled or, if it
      still may be, already holds a batch or the terminal. */
  predicate Answerable<T>(s: State<T>, mayCancel: bool) {
    || Ready(s.q)
    || (if mayCancel then s.producer.Pushing? || s.producer.PostingEnd? else !s.cancelled)
  }

  lemma AnswerableMoves<T>(up: Upstream<T>, s: State<T>, mayCancel: bool)
    requires Inv(up, s) && InGetNext(s.consumer) && Answerable(s, mayCancel)
    ensures exists step :: Own(step) && Enabled(s, step)
  {
    hide Contents;
    var step := if s.consumer.Asking? then ConsumerLocks else if s.producer.Pulling? then PullUpstream else ProducerLocks;
    assert Own(step) && Enabled(s, step);
  }

  lemma AnswersGrow<T>(up: Upstream<T>, s: State<T>, step: Step)
    requires Inv(up, s) && InGetNext(s.consumer) && Enabled(s, step) && Scheduled(step, true)
    ensures var t := Next(up, s, step);
            if t.consumer.Idle? then |t.answers| == |s.answers| + 1
            else InGetNext(t.consumer) && t.answers == s.answers
  {
    HeadIsFull(s.q);
    hide Contents, SlotAt;
  }

  /** No step of a schedule takes away what makes a call answerable. */
  lemma StaysAnswerable<T>(up: Upstream<T>, s: State<T>, mayCancel: bool, step: Step)
    requires Inv(up, s) && InGetNext(s.consumer) && Answerable(s, mayCancel) && Enabled(s, step) && Scheduled(step, mayCancel)
    ensures Next(up, s, step).consumer.Idle? || Answerable(Next(up, s, step), mayCancel)
  {
    HeadIsFull(s.q);
    hide Contents, SlotAt;
  }

  lemma CancelledRanks<T>(up: Upstream<T>, s: State<T>, step: Step)
    requires Inv(up, s) && Enabled(s, step) && s.consumer.Asking?
    requires step == ProducerLocks || step == PullUpstream || step == SeeCancel
    requires Ready(s.q) || step != SeeCancel
    requires Ready(s.q) || !s.cancelled
    ensures Rank(Next(up, s, step)) < Rank(s)
  {
    if s.producer.Pushing? { assert |Push(s.q, s.producer.batch).ring| == |s.q.ring|; }
    hide Contents, Wellformed, SlotAt;
  }

  lemma AnswerableRanks<T>(up: Upstream<T>, s: State<T>, mayCancel: bool, step: Step)
    requires Inv(up, s) && InGetNext(s.consumer) && Answerable(s, mayCancel) && Enabled(s, step) && Scheduled(step, mayCancel)
    ensures Rank(Next(up, s, step)) < Rank(s) || Next(up, s, step).consumer.Idle?
  {
    AnswerableControl(up, s, mayCancel, step);
    hide Inv, Accounted, Control, Next, Rank, Enabled, Answerable;
    if step == ProducerLocks || step == PullUpstream || step == SeeCancel {
      if s.consumer.Asking? { CancelledRanks(up, s, step); } else { ProducerStepRanks(up, s, step); }
    } else {
      ConsumerStepRanks(up, s, step);
    }
  }

  /** A sleeping consumer's answer is still to come, so nobody has cancelled. */
  lemma AnswerableControl<T>(up: Upstream<T>, s: State<T>, mayCancel: bool, step: Step)
    requires Inv(up, s) && InGetNext(s.consumer) && Answerable(s, mayCancel) && Enabled(s, step) && Scheduled(step, mayCancel)
    ensures Ready(s.q) || (!s.cancelled && step != SeeCancel)
    ensures s.consumer.AsleepOnEmpty? ==> !Ready(s.q)
  {}

  /** One step of a schedule during an answerable get_next: the call is a step nearer to its
      end, or over with the right answer. */
  lemma GetNextAdvances<T>(up: Upstream<T>, s: State<T>, mayCancel: bool, step: Step)
    requires Inv(up, s) && InGetNext(s.consumer) && Answerable(s, mayCancel) && Enabled(s, step) && Scheduled(step, mayCancel)
    ensures var t := Next(up, s, step);
            && Inv(up, t) && Wellformed(t.q)
            && if t.consumer.Idle? then |t.answers| == |s.answers| + 1 && t.answers[|s.answers|] == Expected(up, |s.answers|)
               else InGetNext(t.consumer) && Answerable(t, mayCancel) && t.answers == s.answers && Rank(t) < Rank(s)
  {
    StepKeeps(up, s, step);
    AnswersGrow(up, s, step);
    AnswerableRanks(up, s, mayCancel, step);
    StaysAnswerable(up, s, mayCancel, step);
    InvParts(up, Next(up, s, step));
    hide Accounted, Control, Next, Rank, Enabled, Own, Wellformed, InGetNext, Expected, Answerable;
    if Next(up, s, step).consumer.Idle? { LastAnswer(up, Next(up, s, step)); }
  }

  lemma {:induction false} GetNextIsInevitable<T>(up: Upstream<T>, s: State<T>, mayCancel: bool, bound: nat)
    requires Wellformed(s.q) && Inv(up, s) && InGetNext(s.consumer) && Answerable(s, mayCancel) && Rank(s) <= bound
    ensures GetNextReturns(up, s, |s.answers|, mayCancel, bound)
    decreases bound
  {
    hide Inv, Accounted, Control, Next, Rank, Enabled, Own, Wellformed, Expected, Answerable, Scheduled;
    AnswerableMoves(up, s, mayCancel);
    RankIsPositive(s);
    forall step | Scheduled(step, mayCancel) && Enabled(s, step)
      ensures Wellformed(Next(up, s, step).q) && GetNextReturns(up, Next(up, s, step), |s.answers|, mayCancel, bound - 1)
    {
      GetNextAdvances(up, s, mayCancel, step);
      if !Next(up, s, step).consumer.Idle? {
        GetNextIsInevitable(up, Next(up, s, step), mayCancel, bound - 1);
      }
    }
  }

  /** The way an unanswerable call is kept from its answer: the host cancels as soon as it can. */
  function Worst<T>(s: State<T>, mayCancel: bool): Step {
    if mayCancel && s.producer.Pulling? then SeeCancel
    else if s.consumer.Asking? then ConsumerLocks
    else ProducerLocks
  }

  lemma WorstStep<T>(up: Upstream<T>, s: State<T>, mayCancel: bool)
    requires Inv(up, s) && InGetNext(s.consumer) && !Answerable(s, mayCancel) && Enabled(s, Worst(s, mayCancel))
    ensures var t := Next(up, s, Worst(s, mayCancel)); InGetNext(t.consumer) && !Answerable(t, mayCancel)
  {
    hide Contents, SlotAt;
  }

  lemma NoOtherStep<T>(up: Upstream<T>, s: State<T>, mayCancel: bool, step: Step)
    requires Inv(up, s) && InGetNext(s.consumer) && !Answerable(s, mayCancel) && Own(step) && Enabled(s, step)
    ensures Scheduled(Worst(s, mayCancel), mayCancel) && Enabled(s, Worst(s, mayCancel))
  {
    hide Contents, SlotAt;
  }

  /** A call that is not answerable is not sure to return, however long one waits. */
  lemma {:induction false} UnanswerableMayHang<T>(up: Upstream<T>, s: State<T>, asked: nat, mayCancel: bool, bound: nat)
    requires Wellformed(s.q) && Inv(up, s) && InGetNext(s.consumer) && !Answerable(s, mayCancel)
    ensures !GetNextReturns(up, s, asked, mayCancel, bound)
    decreases bound
  {
    hide Inv, Accounted, Control, Next, Enabled, Own, Wellformed, Expected, Answerable, Scheduled, Worst;
    if GetNextReturns(up, s, asked, mayCancel, bound) {
      var some :| Own(some) && Enabled(s, some);
      NoOtherStep(up, s, mayCancel, some);
      var step := Worst(s, mayCancel);
      StepKeeps(up, s, step);
      WorstStep(up, s, mayCancel);
      InvParts(up, Next(up, s, step));
      UnanswerableMayHang(up, Next(up, s, step), asked, mayCancel, bound - 1);
    }
  }

  lemma InvParts<T>(up: Upstream<T>, s: State<T>)
    requires Inv(up, s)
    ensures Wellformed(s.q)
  {}

  lemma RankIsPositive<T>(s: State<T>)
    ensures InGetNext(s.consumer) || InRelease(s.consumer) ==> Rank(s) > 0
  {}

  lemma LastAnswer<T>(up: Upstream<T>, s: State<T>)
    requires Inv(up, s) && |s.answers| > 0
    ensures s.answers[|s.answers| - 1] == Expected(up, |s.answers| - 1)
  {}

  /** Every schedule finishes a release within `bound` steps, cancelled or not. */
  ghost predicate ReleaseReturns<T>(up: Upstream<T>, s: State<T>, bound: nat)
    requires Wellformed(s.q)
    decreases bound
  {
    s.consumer.Released? ||
    (&& bound > 0
     && (exists step :: Own(step) && Enabled(s, step))
     && (forall step :: (Own(step) || step == SeeCancel) && Enabled(s, step) ==>
           Wellformed(Next(up, s, step).q) && ReleaseReturns(up, Next(up, s, step), bound - 1)))
  }

  lemma ReleaseStepRanks<T>(up: Upstream<T>, s: State<T>, step: Step)
    requires Inv(up, s) && Enabled(s, step) && (Own(step) || step == SeeCancel) && InRelease(s.consumer)
    ensures Rank(Next(up, s, step)) < Rank(s)
    ensures InRelease(Next(up, s, step).consumer) || Next(up, s, step).consumer.Released?
  {
    if step == ProducerLocks || step == PullUpstream || step == SeeCancel {
      ProducerStepRanks(up, s, step);
    } else {
      ConsumerStepRanks(up, s, step);
    }
    HeadIsFull(s.q);
    hide Accounted, Control, Rank, Contents, SlotAt;
  }

  lemma {:induction false} ReleaseIsInevitable<T>(up: Upstream<T>, s: State<T>, bound: nat)
    requires Inv(up, s) && (InRelease(s.consumer) || s.consumer.Released?) && Rank(s) <= bound
    ensures ReleaseReturns(up, s, bound)
    decreases bound
  {
    InvParts(up, s);
    hide Accounted, Control, Next, Rank, Enabled, Own;
    if InRelease(s.consumer) {
      SomethingIsEnabled(up, s);
      RankIsPositive(s);
      forall step | (Own(step) || step == SeeCancel) && Enabled(s, step)
        ensures Wellformed(Next(up, s, step).q) && ReleaseReturns(up, Next(up, s, step), bound - 1)
      {
        var t := Next(up, s, step);
        StepKeeps(up, s, step);
        ReleaseStepRanks(up, s, step);
        ReleaseIsInevitable(up, t, bound - 1);
        InvParts(up, t);
      }
    }
  }

  /** The ring never changes size. */
  lemma {:induction false} RunKeepsDepth<T>(up: Upstream<T>, s: State<T>, steps: seq<Step>, t: State<T>)
    requires Inv(up, s) && Reaches(up, s, steps, t)
    ensures |t.q.ring| == |s.q.ring|
    decreases |steps|
  {
    if steps != [] {
      StepKeepsDepth(up, s, steps[0]);
      hide Accounted, Control, Next, Enabled;
      StepKeeps(up, s, steps[0]);
      RunKeepsDepth(up, Next(up, s, steps[0]), steps[1..], t);
    }
  }

  lemma StepKeepsDepth<T>(up: Upstream<T>, s: State<T>, step: Step)
    requires Inv(up, s) && Enabled(s, step)
    ensures |Next(up, s, step).q.ring| == |s.q.ring|
  {
    HeadIsFull(s.q);
    hide Contents;
  }

  /** From any reachable state within a get_next, the call is sure to come back with the right
      answer within 196 steps of the two threads, whatever their order, exactly when a batch or
      the terminal is queued or the host has not cancelled; and sure to whatever the host does
      from now on exactly when one is queued or in the producer's hand. No larger number of
      steps helps the others. */
  lemma GetNextReturnsExactly<T>(up: Upstream<T>, depth: nat, steps: seq<Step>, t: State<T>, bound: nat)
    requires Reaches(up, Init<T>(depth), steps, t) && InGetNext(t.consumer) && bound >= 196
    ensures Wellformed(t.q)
    ensures GetNextReturns(up, t, |t.answers|, false, bound) <==> Ready(t.q) || !t.cancelled
    ensures GetNextReturns(up, t, |t.answers|, true, bound)
       <==> Ready(t.q) || t.producer.Pushing? || t.producer.PostingEnd?
  {
    InitHolds(up, depth);
    RunKeeps(up, Init<T>(depth), steps, t);
    RunKeepsDepth(up, Init<T>(depth), steps, t);
    InvParts(up, t);
    RankBound(t);
    hide Accounted, Control, Rank;
    ReturnsExactly(up, t, false, bound);
    ReturnsExactly(up, t, true, bound);
  }

  lemma ReturnsExactly<T>(up: Upstream<T>, s: State<T>, mayCancel: bool, bound: nat)
    requires Wellformed(s.q) && Inv(up, s) && InGetNext(s.consumer) && Rank(s) <= bound
    ensures GetNextReturns(up, s, |s.answers|, mayCancel, bound) <==> Answerable(s, mayCancel)
  {
    hide *;
    if Answerable(s, mayCancel) {
      GetNextIsInevitable(up, s, mayCancel, bound);
    } else {
      UnanswerableMayHang(up, s, |s.answers|, mayCancel, bound);
    }
  }

  /** A release always finishes within 456 steps of the two threads, whatever their order,
      cancelled or not. Spurious wakeups are the only steps not counted. */
  lemma ReleaseReturnsAlways<T>(up: Upstream<T>, depth: nat, steps: seq<Step>, t: State<T>)
    requires Reaches(up, Init<T>(depth), steps, t) && InRelease(t.consumer)
    ensures Wellformed(t.q) && ReleaseReturns(up, t, 456)
  {
    InitHolds(up, depth);
    RunKeeps(up, Init<T>(depth), steps, t);
    RunKeepsDepth(up, Init<T>(depth), steps, t);
    InvParts(up, t);
    RankBound(t);
    hide Accounted, Control, Rank;
    ReleaseIsInevitable(up, t, 456);
  }

  lemma RankBound<T>(s: State<T>)
    requires s.q.n <= |s.q.ring| <= 64
    ensures Rank(s) <= 456 && (InGetNext(s.consumer) ==> Rank(s) <= 196)
  {}

  // ---------------------------------------------------------------- the hang on cancellation

  /** Mid-call with no step of either thread enabled. */
  ghost predicate Stuck<T>(s: State<T>) {
    InGetNext(s.consumer) && forall step :: Own(step) ==> !Enabled(s, step)
  }

  /** No thread can move during a get_next exactly when the producer left on a host
      cancellation and the consumer went to sleep on the empty queue: the cancellation sets
      only the stop flag, which the consumer's wait does not test. */
  lemma StuckExactlyOnCancel<T>(up: Upstream<T>, depth: nat, steps: seq<Step>, t: State<T>)
    requires Reaches(up, Init<T>(depth), steps, t)
    ensures Stuck(t) <==> t.consumer.AsleepOnEmpty? && t.producer.Exited? && t.cancelled
  {
    InitHolds(up, depth);
    RunKeeps(up, Init<T>(depth), steps, t);
    hide Contents;
    if Stuck(t) {
      assert Own(ConsumerLocks) && Own(ProducerLocks) && Own(PullUpstream);
    }
  }

  /** Once hung, even spurious wakeups never bring an answer. */
  lemma {:induction false} StuckForever<T>(up: Upstream<T>, s: State<T>, steps: seq<Step>, t: State<T>)
    requires Inv(up, s) && InGetNext(s.consumer) && s.producer.Exited? && !Ready(s.q)
    requires Reaches(up, s, steps, t)
    ensures InGetNext(t.consumer) && t.answers == s.answers
    decreases |steps|
  {
    if steps != [] {
      StuckStep(up, s, steps[0]);
      hide Accounted, Control, Next, Enabled;
      StepKeeps(up, s, steps[0]);
      StuckForever(up, Next(up, s, steps[0]), steps[1..], t);
    }
  }

  lemma StuckStep<T>(up: Upstream<T>, s: State<T>, step: Step)
    requires Inv(up, s) && InGetNext(s.consumer) && s.producer.Exited? && !Ready(s.q) && Enabled(s, step)
    ensures var t := Next(up, s, step);
            InGetNext(t.consumer) && t.producer.Exited? && !Ready(t.q) && t.answers == s.answers
  {}

  /** The one-slot edge with nothing queued, at some point of its two threads. */
  function Moment<T>(producer: Producer<T>, consumer: Consumer, stop: bool, cancelled: bool): State<T> {
    State(NewQueue<T>(1).(stop := stop), producer, consumer, 0, [], [], [], 0, cancelled)
  }

  lemma MomentsFollow<T>(up: Upstream<T>)
    ensures forall p: Producer<T>, c: Consumer, s: bool, d: bool :: Wellformed(Moment(p, c, s, d).q)
    ensures Next(up, Moment(NotStarted, Idle, false, false), CallGetNext) == Moment(AtRoomCheck, Asking, false, false)
    ensures Next(up, Moment(AtRoomCheck, Asking, false, false), ProducerLocks) == Moment(Pulling, Asking, false, false)
    ensures Next(up, Moment(Pulling, Asking, false, false), SeeCancel) == Moment(PostingCancel, Asking, false, true)
    ensures Next(up, Moment(PostingCancel, Asking, false, true), ProducerLocks) == Moment(Exited, Asking, true, true)
    ensures Next(up, Moment(Exited, Asking, true, true), ConsumerLocks) == Moment(Exited, AsleepOnEmpty, true, true)
  {
    NewQueueIsEmpty<T>(1);
    FlagsKeepContents(NewQueue<T>(1), false, true, false);
    hide Wellformed, Contents;
  }

  /** The shortest such run: the host cancels before the first batch is pulled. */
  lemma CancelHangs<T>(up: Upstream<T>) returns (steps: seq<Step>, t: State<T>)
    ensures Reaches(up, Init<T>(1), steps, t) && Stuck(t)
  {
    t := Moment(Exited, AsleepOnEmpty, true, true);
    assert Stuck(t);
    assert Init<T>(1) == Moment(NotStarted, Idle, false, false);
    CancelRunReaches(up, t);
    steps := [CallGetNext] + [ProducerLocks, SeeCancel, ProducerLocks, ConsumerLocks];
  }

  lemma CancelRunReaches<T>(up: Upstream<T>, t: State<T>)
    requires t == Moment(Exited, AsleepOnEmpty, true, true)
    ensures Reaches(up, Moment(NotStarted, Idle, false, false),
                    [CallGetNext] + [ProducerLocks, SeeCancel, ProducerLocks, ConsumerLocks], t)
  {
    MomentsFollow(up);
    MomentsEnabled<T>();
    hide Moment, Enabled, Next, Wellformed;
    LastStep(up, Moment(Exited, Asking, true, true), ConsumerLocks, t);
    hide Reaches;
    OneStep(up, Moment(PostingCancel, Asking, false, true), ProducerLocks, [ConsumerLocks], t);
    OneStep(up, Moment(Pulling, Asking, false, false), SeeCancel, [ProducerLocks, ConsumerLocks], t);
    OneStep(up, Moment(AtRoomCheck, Asking, false, false), ProducerLocks, [SeeCancel, ProducerLocks, ConsumerLocks], t);
    OneStep(up, Moment(NotStarted, Idle, false, false), CallGetNext, [ProducerLocks, SeeCancel, ProducerLocks, ConsumerLocks], t);
  }

  lemma MomentsEnabled<T>()
    ensures Enabled(Moment<T>(NotStarted, Idle, false, false), CallGetNext)
    ensures Enabled(Moment<T>(AtRoomCheck, Asking, false, false), ProducerLocks)
    ensures Enabled(Moment<T>(Pulling, Asking, false, false), SeeCancel)
    ensures Enabled(Moment<T>(PostingCancel, Asking, false, true), ProducerLocks)
    ensures Enabled(Moment<T>(Exited, Asking, true, true), ConsumerLocks)
  {}

  lemma LastStep<T>(up: Upstream<T>, s: State<T>, step: Step, t: State<T>)
    requires Wellformed(s.q) && Enabled(s, step) && Next(up, s, step) == t
    ensures Reaches(up, s, [step], t)
  {
    assert [step][1..] == [];
  }

  lemma OneStep<T>(up: Upstream<T>, s: State<T>, step: Step, rest: seq<Step>, t: State<T>)
    requires Wellformed(s.q) && Enabled(s, step) && Reaches(up, Next(up, s, step), rest, t)
    ensures Reaches(up, s, [step] + rest, t)
  {
    assert ([step] + rest)[1..] == rest;
  }
}
