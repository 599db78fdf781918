/**
 * The receive side of the SDIO driver as interleaved steps. An interrupt-side producer puts a buffer in
 * the queue, counts it, and wakes the consumer only when it reads a count of exactly 1; the consumer
 * drains the queue and counts each buffer down after handling it. Every locked section and every atomic
 * operation is one step.
 */
module RxWakeup {

  type Buffer = nat

  /** Where `aicwf_sdio_hal_irqhandler` is. */
  datatype Producer =
    | Idle
    | Enqueue(buf: Buffer)   // holds a buffer it has read from the chip
    | Count                  // the buffer is queued, rx_cnt not yet incremented
    | Test                   // about to read rx_cnt
    | Signal                 // read 1, about to complete busrx_trgg

  /** Where `sdio_busrx_thread` is. */
  datatype Consumer =
    | Wait                   // in wait_for_completion
    | Check                  // about to test the queue and dequeue, under the lock
    | Handle(buf: Buffer)
    | Uncount                // about to decrement rx_cnt

  datatype State = State(
    queue: seq<Buffer>, qmax: nat, rxCnt: int, pending: nat,
    producers: seq<Producer>, consumer: Consumer,
    accepted: seq<Buffer>, handled: seq<Buffer>)

  /** Interrupt(i, Some(b)): producer i is entered with a buffer read; ProducerStep(i): its next step. */
  datatype Event = Interrupt(i: nat, buf: Buffer) | EmptyInterrupt(i: nat) | ProducerStep(i: nat) | ConsumerStep

  function Init(qmax: nat, producers: nat): State {
    State([], qmax, 0, 0, seq(producers, _ => Idle), Wait, [], [])
  }

  function ProducerNext(s: State, i: nat): State
    requires i < |s.producers|
  {
    match s.producers[i]
    case Idle => s
    case Enqueue(b) =>
      if |s.queue| < s.qmax
      then s.(queue := s.queue + [b], accepted := s.accepted + [b], producers := s.producers[i := Count])
      else s.(producers := s.producers[i := Test])
    case Count => s.(rxCnt := s.rxCnt + 1, producers := s.producers[i := Test])
    case Test => s.(producers := s.producers[i := if s.rxCnt == 1 then Signal else Idle])
    case Signal => s.(pending := s.pending + 1, producers := s.producers[i := Idle])
  }

  function ConsumerNext(s: State): State {
    match s.consumer
    case Wait => if s.pending > 0 then s.(pending := s.pending - 1, consumer := Check) else s
    case Check =>
      if s.queue == [] then s.(consumer := Wait)
      else s.(consumer := Handle(s.queue[0]), queue := s.queue[1..])
    case Handle(b) => s.(consumer := Uncount, handled := s.handled + [b])
    case Uncount => s.(consumer := Check, rxCnt := s.rxCnt - 1)
  }

  /** An event that is not possible in a state leaves it as it is. */
  function Next(s: State, e: Event): State {
    match e
    case Interrupt(i, b) =>
      if i < |s.producers| && s.producers[i] == Idle then s.(producers := s.producers[i := Enqueue(b)]) else s
    case EmptyInterrupt(i) =>
      if i < |s.producers| && s.producers[i] == Idle then s.(producers := s.producers[i := Test]) else s
    case ProducerStep(i) => if i < |s.producers| then ProducerNext(s, i) else s
    case ConsumerStep => ConsumerNext(s)
  }

  function Run(s: State, events: seq<Event>): State {
    if events == [] then s else Next(Run(s, events[..|events| - 1]), events[|events| - 1])
  }

  // ----- the invariant with one producer -----

  /** The buffer the consumer holds, if any. */
  ghost function InHand(s: State): seq<Buffer> {
    if s.consumer.Handle? then [s.consumer.buf] else []
  }

  ghost function Uncounted(s: State): int {
    (if s.consumer.Handle? || s.consumer.Uncount? then 1 else 0)
    - (if s.producers != [] && s.producers[0].Count? then 1 else 0)
  }

  ghost predicate Inv(s: State) {
    && |s.producers| == 1
    && s.accepted == s.handled + InHand(s) + s.queue
    && s.rxCnt == |s.queue| + Uncounted(s)
    && (s.consumer == Wait && s.pending == 0 && s.queue != [] ==>
          |s.queue| == 1 && (s.producers[0].Count? || s.producers[0].Test? || s.producers[0].Signal?))
  }

  lemma NextKeepsInv(s: State, e: Event)
    requires Inv(s)
    ensures Inv(Next(s, e))
  {
    match e
    case Interrupt(i, b) =>
    case EmptyInterrupt(i) =>
    case ProducerStep(i) =>
      if i == 0 && s.producers[0].Enqueue? && |s.queue| < s.qmax {
        var b := s.producers[0].buf;
        assert s.accepted + [b] == s.handled + InHand(s) + (s.queue + [b]);
      }
    case ConsumerStep =>
      if s.consumer == Check && s.queue != [] {
        assert s.handled + [] + s.queue == s.handled + [s.queue[0]] + s.queue[1..];
      }
  }

  lemma {:induction false} RunKeepsInv(qmax: nat, events: seq<Event>)
    ensures Inv(Run(Init(qmax, 1), events))
    decreases |events|
  {
    if events != [] {
      RunKeepsInv(qmax, events[..|events| - 1]);
      NextKeepsInv(Run(Init(qmax, 1), events[..|events| - 1]), events[|events| - 1]);
    }
  }

  /** No lost wake-up: if the consumer sleeps unsignalled and the producer is idle, everything is handled. */
  lemma NoLostWakeup(qmax: nat, events: seq<Event>)
    ensures var s := Run(Init(qmax, 1), events);
            s.consumer == Wait && s.pending == 0 && s.producers == [Idle] ==>
            s.queue == [] && s.rxCnt == 0 && s.handled == s.accepted
  {
    RunKeepsInv(qmax, events);
  }

  /** The queue never exceeds its limit, for any number of producers; a buffer is dropped exactly when it is full. */
  lemma {:induction false} QueueBounded(qmax: nat, producers: nat, events: seq<Event>, i: nat, b: Buffer)
    ensures var s := Run(Init(qmax, producers), events);
            && |s.queue| <= qmax && s.qmax == qmax
            && (i < |s.producers| && s.producers[i] == Enqueue(b) ==>
                  Next(s, ProducerStep(i)).accepted == if |s.queue| < qmax then s.accepted + [b] else s.accepted)
    decreases |events|
  {
    if events != [] {
      QueueBounded(qmax, producers, events[..|events| - 1], i, b);
    }
  }

  /** Buffers are handled in the order they were queued, none twice and none skipped. */
  lemma HandledInOrder(qmax: nat, events: seq<Event>)
    ensures var s := Run(Init(qmax, 1), events);
            s.handled <= s.accepted
  {
    RunKeepsInv(qmax, events);
  }

  /**
   * The power thread takes rx_cnt == 0 for "nothing received". That is wrong in two windows only: the producer
   * holds a buffer it has read from the chip and there is no other, or it has queued the only one there is, which
   * the consumer may already have, and has not counted it.
   */
  lemma CountMissesExactly(qmax: nat, events: seq<Event>)
    ensures var s := Run(Init(qmax, 1), events);
            var busy := |s.queue| + (if s.consumer.Handle? || s.consumer.Uncount? then 1 else 0);
            var all := busy + (if s.producers != [] && s.producers[0].Enqueue? then 1 else 0);
            s.rxCnt == 0 && all > 0 <==>
              s.producers != [] && ((s.producers[0].Enqueue? && busy == 0) || (s.producers[0].Count? && busy == 1))
  {
    RunKeepsInv(qmax, events);
  }

  // ----- progress -----

  ghost function WorkLeft(s: State): nat {
    3 * |s.queue| + 2 * s.pending +
    match s.consumer case Wait => 0 case Check => 1 case Handle(_) => 3 case Uncount => 2
  }

  /** Running the consumer alone handles every accepted buffer and brings it back to an unsignalled wait. */
  lemma {:induction false} ConsumerDrains(s: State) returns (steps: nat)
    requires Inv(s) && s.producers == [Idle]
    ensures var r := Run(s, seq(steps, _ => ConsumerStep));
            r.consumer == Wait && r.pending == 0 && r.queue == [] && r.rxCnt == 0 && r.handled == s.accepted
    decreases WorkLeft(s)
  {
    if s.consumer == Wait && s.pending == 0 {
      steps := 0;
    } else {
      NextKeepsInv(s, ConsumerStep);
      var n := ConsumerDrains(ConsumerNext(s));
      steps := n + 1;
      RunCons(s, ConsumerStep, seq(n, _ => ConsumerStep));
      assert [ConsumerStep] + seq(n, _ => ConsumerStep) == seq(steps, _ => ConsumerStep);
    }
  }

  lemma {:induction false} RunCons(s: State, e: Event, es: seq<Event>)
    ensures Run(s, [e] + es) == Run(Next(s, e), es)
    decreases |es|
  {
    hide Next;
    if es == [] {
      assert [e] + es == [e];
      assert Run(s, [e][..0]) == s;
    } else {
      var n := |es| - 1;
      assert ([e] + es)[..|es|] == [e] + es[..n];
      RunCons(s, e, es[..n]);
    }
  }

  // ----- one producer is needed -----

  /** The consumer sleeps unsignalled, no producer is under way, and something is queued. */
  ghost predicate Stuck(s: State) {
    s.consumer == Wait && s.pending == 0 && (forall p :: p in s.producers ==> p == Idle) && s.queue != []
  }

  /** With room for two buffers, no run loses a wake-up exactly when there is at most one producer. */
  lemma {:induction false} OneProducerExactly(qmax: nat, n: nat)
    requires qmax >= 2
    ensures (forall events: seq<Event> :: !Stuck(Run(Init(qmax, n), events))) <==> n <= 1
  {
    if n <= 1 {
      forall events: seq<Event>
        ensures !Stuck(Run(Init(qmax, n), events))
      {
        if n == 0 {
          NobodyQueues(qmax, events);
        } else {
          NoLostWakeup(qmax, events);
          RunKeepsInv(qmax, events);
          var s := Run(Init(qmax, 1), events);
          assert s.producers[0] in s.producers;
        }
      }
    } else {
      var events := TwoOfManyLoseWakeup(qmax, n);
    }
  }

  lemma {:induction false} NobodyQueues(qmax: nat, events: seq<Event>)
    ensures var s := Run(Init(qmax, 0), events); s.queue == [] && s.producers == []
    decreases |events|
  {
    if events != [] {
      NobodyQueues(qmax, events[..|events| - 1]);
    }
  }

  /** Two producers can both read 2 while the rest are idle, and the consumer sleeps on two queued buffers. */
  lemma TwoOfManyLoseWakeup(qmax: nat, n: nat) returns (events: seq<Event>)
    requires qmax >= 2 && n >= 2
    ensures Stuck(Run(Init(qmax, n), events)) && |Run(Init(qmax, n), events).queue| == 2
  {
    var idle: seq<Producer> := seq(n, _ => Idle);
    var s0 := Init(qmax, n);
    var s1 := s0.(producers := idle[0 := Enqueue(7)][1 := Enqueue(8)]);
    var s2 := s0.(producers := idle[0 := Count][1 := Count], queue := [7, 8], accepted := [7, 8]);
    var s3 := s2.(producers := idle[0 := Test][1 := Test], rxCnt := 2);
    var s4 := s3.(producers := idle);
    RoundOfTwo(s0, s1, s2, s3, s4, idle);
    var step := [ProducerStep(0), ProducerStep(1)];
    events := [Interrupt(0, 7), Interrupt(1, 8)] + (step + (step + (step + [])));
    RunPair(s0, Interrupt(0, 7), Interrupt(1, 8), step + (step + (step + [])));
    RunPair(s1, ProducerStep(0), ProducerStep(1), step + (step + []));
    RunPair(s2, ProducerStep(0), ProducerStep(1), step + []);
    RunPair(s3, ProducerStep(0), ProducerStep(1), []);
  }

  lemma RoundOfTwo(s0: State, s1: State, s2: State, s3: State, s4: State, idle: seq<Producer>)
    requires |idle| >= 2 && idle == seq(|idle|, _ => Idle) && s0.qmax >= 2 && s0 == Init(s0.qmax, |idle|)
    requires s1 == s0.(producers := idle[0 := Enqueue(7)][1 := Enqueue(8)])
    requires s2 == s0.(producers := idle[0 := Count][1 := Count], queue := [7, 8], accepted := [7, 8])
    requires s3 == s2.(producers := idle[0 := Test][1 := Test], rxCnt := 2) && s4 == s3.(producers := idle)
    ensures Next(Next(s0, Interrupt(0, 7)), Interrupt(1, 8)) == s1
    ensures Next(Next(s1, ProducerStep(0)), ProducerStep(1)) == s2
    ensures Next(Next(s2, ProducerStep(0)), ProducerStep(1)) == s3
    ensures Next(Next(s3, ProducerStep(0)), ProducerStep(1)) == s4
  {
    assert s1.producers[0 := Count][1 := Count] == s2.producers;
    assert s2.producers[0 := Test][1 := Test] == s3.producers;
    assert s3.producers[0 := Idle][1 := Idle] == s4.producers;
    assert s0.queue + [7] == [7] && [7] + [8] == [7, 8];
  }

  lemma RunPair(s: State, a: Event, b: Event, es: seq<Event>)
    ensures Run(s, [a, b] + es) == Run(Next(Next(s, a), b), es)
  {
    assert [a, b] + es == [a] + ([b] + es);
    RunCons(s, a, [b] + es);
    RunCons(Next(s, a), b, es);
  }
}
