/**
 Producer thread, consumer and shared queue as one step system. Each step is one critical
 section, one upstream call or one consumer call; any interleaving of enabled steps is a run.
 */
module AsyncProtocol {
  import opened AsyncQueue

  /** What the upstream stream will deliver: its batches in order, then end or failure forever. */
  datatype Upstream<T> = Upstream(batches: seq<T>, fails: bool)

  /** What one get_next call returned to the consumer. */
  datatype Answer<T> = Got(batch: T) | End(failed: bool)

  /** Where the producer thread stands between its atomic steps. */
  datatype Producer<T> =
    | NotStarted
    | AtRoomCheck
    | AsleepOnFull
    | Pulling                // lock released, about to consult the host and the upstream
    | Pushing(batch: T)      // holds a batch, about to take the lock
    | PostingEnd(failed: bool)
    | PostingCancel
    | Exited

  datatype Consumer =
    | Idle
    | Asking                 // inside get_next, about to take the lock
    | AsleepOnEmpty
    | Stopping               // inside release, about to take the lock
    | Joining
    | Draining
    | Released

  datatype State<T> = State(
    q: Queue<T>,
    producer: Producer<T>,
    consumer: Consumer,
    pulled: nat,             // batches the upstream has handed over
    answers: seq<Answer<T>>, // what get_next has returned so far
    discarded: seq<T>,       // batches the producer released because of a stop
    drained: seq<T>,         // batches the final drain released
    upstreamReleases: nat,
    cancelled: bool)         // the producer has seen a host cancellation

  datatype Step =
    | CallGetNext
    | CallRelease
    | ConsumerLocks
    | ConsumerWakesSpuriously
    | ReleaseLocks
    | Join
    | DrainOne
    | FinishRelease
    | ProducerLocks
    | ProducerWakesSpuriously
    | PullUpstream
    | SeeCancel

  function Init<T>(depth: nat): State<T> {
    State(NewQueue(Depth(depth)), NotStarted, Idle, 0, [], [], [], 0, false)
  }

  /** A signal or broadcast on not_empty. */
  function WakeConsumer<T>(s: State<T>): State<T> {
    if s.consumer.AsleepOnEmpty? then s.(consumer := Asking) else s
  }

  /** A signal or broadcast on not_full. */
  function WakeProducer<T>(s: State<T>): State<T> {
    if s.producer.AsleepOnFull? then s.(producer := AtRoomCheck) else s
  }

  predicate Enabled<T>(s: State<T>, step: Step) {
    match step
    case CallGetNext => s.consumer.Idle?
    case CallRelease => s.consumer.Idle?
    case ConsumerLocks => s.consumer.Asking?
    case ConsumerWakesSpuriously => s.consumer.AsleepOnEmpty?
    case ReleaseLocks => s.consumer.Stopping?
    case Join => s.consumer.Joining? && s.producer.Exited?
    case DrainOne => s.consumer.Draining? && s.q.n > 0 && s.q.head < |s.q.ring|
    case FinishRelease => s.consumer.Draining? && s.q.n == 0
    case ProducerLocks =>
      s.q.ring != [] && (s.producer.AtRoomCheck? || s.producer.Pushing? || s.producer.PostingEnd? || s.producer.PostingCancel?)
    case ProducerWakesSpuriously => s.producer.AsleepOnFull?
    case PullUpstream => s.producer.Pulling?
    case SeeCancel => s.producer.Pulling?
  }

  /** The critical sections of producer_loop. */
  function ProducerSection<T>(s: State<T>): State<T>
    requires Enabled(s, ProducerLocks)
  {
    match s.producer
    case Pushing(batch) =>
      if s.q.stop then s.(producer := Exited, discarded := s.discarded + [batch])
      else WakeConsumer(s.(q := Push(s.q, batch), producer := AtRoomCheck))
    case PostingEnd(failed) =>
      WakeConsumer(s.(q := if failed then s.q.(err := true) else s.q.(eof := true), producer := Exited))
    case PostingCancel => WakeConsumer(s.(q := s.q.(stop := true), producer := Exited))
    case _ =>
      match CheckRoom(s.q)
      case Leave => s.(producer := Exited)
      case Sleep => s.(producer := AsleepOnFull)
      case Proceed => s.(producer := Pulling)
  }

  /** The critical section of async_get_next: take, report the terminal, or wait. */
  function ConsumerSection<T>(s: State<T>): State<T>
    requires s.q.n > 0 ==> s.q.head < |s.q.ring| && s.q.ring[s.q.head].Full?
  {
    if s.q.n > 0 then
      WakeProducer(s.(q := Pop(s.q), consumer := Idle, answers := s.answers + [Got(s.q.ring[s.q.head].batch)]))
    else if Ready(s.q) then s.(consumer := Idle, answers := s.answers + [End(s.q.err)])
    else s.(consumer := AsleepOnEmpty)
  }

  ghost function Next<T>(up: Upstream<T>, s: State<T>, step: Step): State<T>
    requires Wellformed(s.q) && Enabled(s, step)
  {
    HeadIsFull(s.q);
    match step
    case CallGetNext =>
      s.(consumer := Asking, producer := if s.producer.NotStarted? then AtRoomCheck else s.producer)
    case CallRelease => s.(consumer := if s.producer.NotStarted? then Draining else Stopping)
    case ConsumerLocks => ConsumerSection(s)
    case ConsumerWakesSpuriously => s.(consumer := Asking)
    case ReleaseLocks => WakeProducer(s.(q := s.q.(stop := true), consumer := Joining))
    case Join => s.(consumer := Draining)
    case DrainOne => s.(q := Pop(s.q), drained := s.drained + [s.q.ring[s.q.head].batch])
    case FinishRelease => s.(consumer := Released, upstreamReleases := s.upstreamReleases + 1)
    case ProducerLocks => ProducerSection(s)
    case ProducerWakesSpuriously => s.(producer := AtRoomCheck)
    case PullUpstream =>
      if s.pulled < |up.batches| then s.(producer := Pushing(up.batches[s.pulled]), pulled := s.pulled + 1)
      else s.(producer := PostingEnd(up.fails))
    case SeeCancel => s.(producer := PostingCancel, cancelled := true)
  }

  lemma HeadIsFull<T>(q: Queue<T>)
    requires Wellformed(q)
    ensures q.n > 0 ==> q.ring[q.head].Full?
  {
    SlotIs(q, 0);
  }

  // ---------------------------------------------------------------- the invariant

  /** The upstream stream's own answers: its batches, then the terminal forever. */
  function Expected<T>(up: Upstream<T>, i: nat): Answer<T> {
    if i < |up.batches| then Got(up.batches[i]) else End(up.fails)
  }

  function InHand<T>(p: Producer<T>): seq<T> { if p.Pushing? then [p.batch] else [] }

  /** How many batches the consumer holds. */
  function Handed<T>(up: Upstream<T>, s: State<T>): nat {
    if |s.answers| < |up.batches| then |s.answers| else |up.batches|
  }

  /** Every pulled batch the consumer has not received is in exactly one place, in order. */
  ghost predicate Accounted<T>(up: Upstream<T>, s: State<T>) {
    && Wellformed(s.q)
    && Handed(up, s) <= s.pulled <= |up.batches|
    && s.drained + Contents(s.q) + InHand(s.producer) + s.discarded == up.batches[Handed(up, s)..s.pulled]
    && (forall i :: 0 <= i < |s.answers| ==> s.answers[i] == Expected(up, i))
  }

  predicate ReleaseBegan(c: Consumer) { c.Joining? || c.Draining? || c.Released? }

  /** Between finding room and the next check the producer works outside the lock. */
  predicate HasRoom<T>(p: Producer<T>) { p.Pulling? || p.Pushing? || p.PostingEnd? || p.PostingCancel? }

  predicate Control<T>(up: Upstream<T>, s: State<T>) {
    // room found stays room: only the producer fills slots
    && s.q.n <= |s.q.ring| && (HasRoom(s.producer) ==> s.q.n < |s.q.ring|)
    // flags
    && (s.q.stop ==> (s.producer.Exited? && s.cancelled) || ReleaseBegan(s.consumer))
    && (s.q.eof ==> s.producer.Exited? && !up.fails && s.pulled == |up.batches|)
    && (s.q.err ==> s.producer.Exited? && up.fails && s.pulled == |up.batches|)
    && (s.producer.PostingEnd? ==> s.producer.failed == up.fails && s.pulled == |up.batches|)
    && (s.producer.PostingCancel? ==> s.cancelled)
    && (s.cancelled ==> s.producer.PostingCancel? || s.producer.Exited?)
    && (s.producer.Exited? ==> s.q.eof || s.q.err || s.q.stop)
    && (s.producer.Exited? && s.cancelled ==> s.q.stop)
    // sleepers have a reason
    && (s.producer.AsleepOnFull? ==> s.q.n == |s.q.ring| && !s.q.stop)
    && (s.consumer.AsleepOnEmpty? ==> !Ready(s.q))
    // phases of the consumer
    && (s.producer.NotStarted? ==>
          (s.consumer.Idle? || s.consumer.Draining? || s.consumer.Released?) && s.pulled == 0 && !s.q.stop)
    && (s.consumer.Joining? ==> s.q.stop)
    && (s.consumer.Draining? || s.consumer.Released? ==> s.producer.Exited? || s.producer.NotStarted?)
    && (s.drained != [] ==> s.consumer.Draining? || s.consumer.Released?)
    && (s.discarded != [] ==> s.producer.Exited? && !s.q.eof && !s.q.err)
    && s.upstreamReleases == (if s.consumer.Released? then 1 else 0)
    && (s.consumer.Released? ==> s.q.n == 0)
    && (|s.answers| > |up.batches| ==> s.q.eof || s.q.err)
  }

  ghost predicate Inv<T>(up: Upstream<T>, s: State<T>) { Accounted(up, s) && Control(up, s) }
}
