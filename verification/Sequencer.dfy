/**
 The sequencer (include/sequencer.hpp) as the consumer of its input queues and the writer of
 the broadcast ring: it pops the queues in bounded batches, stamps a total order and spins
 until each event is published. One step is one atomic load or store of a queue or of the
 ring, by any thread, so every theorem is about every interleaving.
 */
module Sequencers {
  import opened Types
  import opened Engines
  import opened RingProtocol
  import Spsc

  const PRODUCERS: nat := 3
  const BATCH: nat := 32

  /** Where `run` stands: the producer being drained and how many of its batch are done. */
  datatype Pc =
    | Check
    | Drain(p: nat, i: nat)
    | Popping(p: nat, i: nat)
    | Stamped(p: nat, i: nat, ev: Event)
    | Spinning(p: nat, i: nat, ev: Event)
    | Stopped

  /** `others` counts the events of other producers stamped since each producer was last visited. */
  datatype Sequencer = Sequencer(ring: Ring<Event>, queues: seq<Spsc.Queue<Event>>, pc: Pc, nextSeq: nat,
                                 others: seq<nat>, running: bool)

  datatype SeqStep =
    | Producer(p: nat, push: Spsc.Step<Event>)   // a step of a push to one of the queues
    | Stop                                       // another thread clears the running flag
    | LoadRunning
    | DrainNext                                  // call pop, or go on to the next producer
    | MovePop                                    // the next load or store of that pop
    | TakePop(now: Nanos)                        // stamp what was popped, or end the batch
    | BeginPublish
    | MovePublish
    | TakeResult
    | Reader(step: Step<Event>)                  // any step of a ring reader

  predicate Shaped(s: Sequencer) {
    && RingProtocol.Shaped(s.ring)
    && |s.queues| == |s.others| == PRODUCERS
    && forall p :: 0 <= p < PRODUCERS ==> Spsc.Shaped(s.queues[p])
  }

  function Stamp(ev: Event, seqNum: nat, now: Nanos, p: nat): Event {
    ev.(seqNum := seqNum, sequenceTs := now, producer := p)
  }

  /** What a producer asked for: everything in an event that the sequencer has no business with. */
  datatype Request = Request(kind: EventType, session: nat, clientId: nat, side: Side, price: Qty, qty: Qty)

  function RequestOf(ev: Event): Request {
    Request(ev.kind, ev.session, ev.clientId, ev.side, ev.price, ev.qty)
  }

  /** Everyone but p waits for one more event. */
  function Waited(others: seq<nat>, p: nat): (r: seq<nat>)
    ensures |r| == |others|
    ensures forall q :: 0 <= q < |others| ==> r[q] == if q == p then others[q] else others[q] + 1
  {
    seq(|others|, q requires 0 <= q < |others| => if q == p then others[q] else others[q] + 1)
  }

  function Visit(s: Sequencer, p: nat): Sequencer {
    s.(pc := Drain(p, 0), others := if p < |s.others| then s.others[p := 0] else s.others)
  }

  function OnQueue(s: Sequencer, p: nat, step: Spsc.Step<Event>): Sequencer
    requires Shaped(s) && p < PRODUCERS
  {
    s.(queues := s.queues[p := Spsc.Next(s.queues[p], step)])
  }

  function DrainStep(s: Sequencer): Sequencer
    requires Shaped(s) && s.pc.Drain?
  {
    var p, i := s.pc.p, s.pc.i;
    if p >= PRODUCERS then s.(pc := Check)
    else if i < BATCH then OnQueue(s, p, Spsc.Pop).(pc := Popping(p, i))
    else Visit(s, p + 1)
  }

  function TakeStep(s: Sequencer, now: Nanos): Sequencer
    requires Shaped(s) && s.pc.Popping? && s.pc.p < PRODUCERS && s.queues[s.pc.p].consumer.CReturn?
  {
    var p, i, got := s.pc.p, s.pc.i, s.queues[s.pc.p].consumer.got;
    var s1 := OnQueue(s, p, Spsc.ConsumerDone);
    if got.Some? then
      s1.(pc := Stamped(p, i, Stamp(got.value, s.nextSeq, now, p)), nextSeq := s.nextSeq + 1,
          others := Waited(s.others, p))
    else Visit(s1, p + 1)
  }

  predicate PushStep(step: Spsc.Step<Event>) {
    step.Push? || step.ProducerMove? || step.ProducerDone?
  }

  predicate ReaderStep(step: Step<Event>) {
    step.Consume? || step.ReaderMove? || step.ReaderDone?
  }

  /** One step; a step that is not enabled changes nothing. */
  function Next(s: Sequencer, step: SeqStep): Sequencer
    requires Shaped(s)
  {
    match step
    case Producer(p, push) => if p < PRODUCERS && PushStep(push) then OnQueue(s, p, push) else s
    case Stop => s.(running := false)
    case LoadRunning => if !s.pc.Check? then s else if s.running then Visit(s, 0) else s.(pc := Stopped)
    case DrainNext => if s.pc.Drain? then DrainStep(s) else s
    case MovePop =>
      if s.pc.Popping? && s.pc.p < PRODUCERS then OnQueue(s, s.pc.p, Spsc.ConsumerMove) else s
    case TakePop(now) =>
      if s.pc.Popping? && s.pc.p < PRODUCERS && s.queues[s.pc.p].consumer.CReturn? then TakeStep(s, now) else s
    case BeginPublish =>
      if s.pc.Stamped?
      then s.(ring := RingProtocol.Next(s.ring, Publish(s.pc.ev)), pc := Spinning(s.pc.p, s.pc.i, s.pc.ev))
      else s
    case MovePublish => if s.pc.Spinning? then s.(ring := RingProtocol.Next(s.ring, WriterMove)) else s
    case TakeResult =>
      if s.pc.Spinning? && s.ring.writer.WReturn?
      then s.(ring := RingProtocol.Next(s.ring, WriterDone),
              pc := if s.ring.writer.ok then Drain(s.pc.p, s.pc.i + 1) else Stamped(s.pc.p, s.pc.i, s.pc.ev))
      else s
    case Reader(step) => if ReaderStep(step) then s.(ring := RingProtocol.Next(s.ring, step)) else s
  }

  function Start(capacity: nat, consumers: nat, queueCapacity: nat, blank: Event): (s: Sequencer)
    requires capacity > 0 && queueCapacity > 0
    ensures Shaped(s)
  {
    Sequencer(RingProtocol.Start(capacity, consumers, blank),
              seq(PRODUCERS, _ => Spsc.Start(queueCapacity, blank)), Check, 1, [0, 0, 0], true)
  }

  // ---------- the stream ----------

  /** The event stamped but not yet published, if any. */
  function InFlight(ring: Ring<Event>, pc: Pc): Option<Event> {
    match pc
    case Stamped(_, _, ev) => Some(ev)
    case Spinning(_, _, ev) => if ring.writer == WReturn(true) then None else Some(ev)
    case _ => None
  }

  /** The i-th published event carries sequence number i + 1. */
  ghost predicate Contiguous(events: seq<Event>) {
    forall i :: 0 <= i < |events| ==> events[i].seqNum == i + 1
  }

  /** Every event came from one of the producers. */
  ghost predicate Attributed(events: seq<Event>) {
    forall i :: 0 <= i < |events| ==> events[i].producer < PRODUCERS
  }

  ghost predicate WriterAgrees(ring: Ring<Event>, pc: Pc) {
    match pc
    case Spinning(_, _, ev) =>
      (match ring.writer
       case WIdle => false
       case WReturn(_) => true
       case WLoaded(item, _) => item == ev
       case WScan(item, _, _, _) => item == ev
       case WStore(item, _) => item == ev
       case WPublish(item, _) => item == ev)
    case _ => ring.writer.WIdle?
  }

  ghost predicate PcOk(pc: Pc) {
    match pc
    case Drain(p, i) => p <= PRODUCERS && i <= BATCH && (p == PRODUCERS ==> i == 0)
    case Popping(p, i) => p < PRODUCERS && i < BATCH
    case Stamped(p, i, ev) => p < PRODUCERS && i < BATCH && ev.producer == p
    case Spinning(p, i, ev) => p < PRODUCERS && i < BATCH && ev.producer == p
    case _ => true
  }

  ghost predicate Ordered(ring: Ring<Event>, pc: Pc, nextSeq: nat) {
    && Contiguous(ring.published)
    && Attributed(ring.published)
    && nextSeq == |ring.published| + 1 + (if InFlight(ring, pc).Some? then 1 else 0)
    && (InFlight(ring, pc).Some? ==> InFlight(ring, pc).value.seqNum == |ring.published| + 1)
  }

  ghost predicate StreamOk(ring: Ring<Event>, pc: Pc, nextSeq: nat) {
    RingProtocol.Inv(ring) && PcOk(pc) && WriterAgrees(ring, pc) && Ordered(ring, pc, nextSeq)
  }

  lemma {:induction false} BeginKeepsStream(ring: Ring<Event>, pc: Pc, nextSeq: nat)
    requires StreamOk(ring, pc, nextSeq) && pc.Stamped?
    ensures StreamOk(RingProtocol.Next(ring, Publish(pc.ev)), Spinning(pc.p, pc.i, pc.ev), nextSeq)
  {
    NextKeepsInv(ring, Publish(pc.ev));
  }

  /** The store of the write cursor moves the event in flight to the end of the stream. */
  lemma {:induction false} MoveKeepsStream(ring: Ring<Event>, pc: Pc, nextSeq: nat)
    requires StreamOk(ring, pc, nextSeq) && pc.Spinning?
    ensures var ring' := RingProtocol.Next(ring, WriterMove);
            && StreamOk(ring', pc, nextSeq)
            && ring'.published == if ring.writer.WPublish? then ring.published + [pc.ev] else ring.published
  {
    NextKeepsInv(ring, WriterMove);
    MoveKeepsOrder(ring, pc, nextSeq);
  }

  lemma MoveKeepsOrder(ring: Ring<Event>, pc: Pc, nextSeq: nat)
    requires RingProtocol.Shaped(ring) && pc.Spinning? && pc.ev.producer < PRODUCERS
    requires WriterAgrees(ring, pc) && Ordered(ring, pc, nextSeq)
    ensures var ring' := RingProtocol.Next(ring, WriterMove);
            && WriterAgrees(ring', pc) && Ordered(ring', pc, nextSeq)
            && ring'.published == if ring.writer.WPublish? then ring.published + [pc.ev] else ring.published
  {
  }

  lemma {:induction false} ResultKeepsStream(ring: Ring<Event>, pc: Pc, nextSeq: nat)
    requires StreamOk(ring, pc, nextSeq) && pc.Spinning? && ring.writer.WReturn?
    ensures StreamOk(RingProtocol.Next(ring, WriterDone),
                     if ring.writer.ok then Drain(pc.p, pc.i + 1) else Stamped(pc.p, pc.i, pc.ev), nextSeq)
  {
    NextKeepsInv(ring, WriterDone);
  }

  lemma {:induction false} ReaderKeepsStream(ring: Ring<Event>, pc: Pc, nextSeq: nat, step: Step<Event>)
    requires StreamOk(ring, pc, nextSeq) && ReaderStep(step)
    ensures var ring' := RingProtocol.Next(ring, step);
            StreamOk(ring', pc, nextSeq) && ring'.published == ring.published && ring'.writer == ring.writer
  {
    NextKeepsInv(ring, step);
  }

  /** Stamping hands out the next number. */
  lemma StampKeepsStream(ring: Ring<Event>, pc: Pc, nextSeq: nat, ev: Event, now: Nanos)
    requires StreamOk(ring, pc, nextSeq) && pc.Popping?
    ensures StreamOk(ring, Stamped(pc.p, pc.i, Stamp(ev, nextSeq, now, pc.p)), nextSeq + 1)
  {
  }

  /** Moving between events, with none in flight, leaves the stream alone. */
  lemma QuietKeepsStream(ring: Ring<Event>, pc: Pc, pc': Pc, nextSeq: nat)
    requires StreamOk(ring, pc, nextSeq) && PcOk(pc')
    requires !pc.Stamped? && !pc.Spinning? && !pc'.Stamped? && !pc'.Spinning?
    ensures StreamOk(ring, pc', nextSeq)
  {
  }

  // ---------- the merge ----------

  /** The requests in the published events of one producer, in order. */
  function From(events: seq<Event>, p: nat): seq<Request> {
    if events == [] then []
    else
      var rest := From(events[..|events| - 1], p);
      if events[|events| - 1].producer == p then rest + [RequestOf(events[|events| - 1])] else rest
  }

  function Requests(events: seq<Event>): (r: seq<Request>)
    ensures |r| == |events| && forall i :: 0 <= i < |r| ==> r[i] == RequestOf(events[i])
  {
    seq(|events|, i requires 0 <= i < |events| => RequestOf(events[i]))
  }

  /** What left queue p without being published yet: an event just popped, or the one in flight. */
  function Held(ring: Ring<Event>, pc: Pc, q: Spsc.Queue<Event>, p: nat): seq<Request> {
    var f := InFlight(ring, pc);
    if q.consumer.CReturn? && q.consumer.got.Some? then [RequestOf(q.consumer.got.value)]
    else if f.Some? && f.value.producer == p then [RequestOf(f.value)]
    else []
  }

  /** What was popped from p is what was published of p, followed by what the sequencer holds of p. */
  ghost predicate Merged(ring: Ring<Event>, pc: Pc, q: Spsc.Queue<Event>, p: nat) {
    From(ring.published, p) + Held(ring, pc, q, p) == Requests(q.popped)
  }

  /** A queue is being popped exactly while the sequencer is in that call. */
  ghost predicate CallOk(pc: Pc, q: Spsc.Queue<Event>, p: nat) {
    if pc.Popping? && pc.p == p
    then q.consumer.CLoaded? || q.consumer.CCopy? || q.consumer.CCommit? || q.consumer.CReturn?
    else q.consumer.CIdle?
  }

  ghost predicate QueueOk(ring: Ring<Event>, pc: Pc, q: Spsc.Queue<Event>, p: nat) {
    Spsc.Inv(q) && CallOk(pc, q, p) && Merged(ring, pc, q, p)
  }

  lemma {:induction false} FromOne(events: seq<Event>, ev: Event, p: nat)
    ensures From(events + [ev], p) == From(events, p) + if ev.producer == p then [RequestOf(ev)] else []
  {
    assert (events + [ev])[..|events|] == events;
  }

  /** Attributed events are counted once each by their producers. */
  lemma {:induction false} FromCounts(events: seq<Event>)
    requires Attributed(events)
    ensures |From(events, 0)| + |From(events, 1)| + |From(events, 2)| == |events|
  {
    if events == [] {
    } else {
      FromCounts(events[..|events| - 1]);
    }
  }

  lemma {:induction false} PushKeepsQueue(ring: Ring<Event>, pc: Pc, q: Spsc.Queue<Event>, p: nat, step: Spsc.Step<Event>)
    requires QueueOk(ring, pc, q, p) && PushStep(step)
    ensures QueueOk(ring, pc, Spsc.Next(q, step), p)
  {
    Spsc.NextKeepsInv(q, step);
  }

  lemma {:induction false} CallKeepsQueue(ring: Ring<Event>, q: Spsc.Queue<Event>, p: nat, i: nat)
    requires QueueOk(ring, Drain(p, i), q, p)
    ensures QueueOk(ring, Popping(p, i), Spsc.Next(q, Spsc.Pop), p)
  {
    Spsc.NextKeepsInv(q, Spsc.Pop);
  }

  /** The store of the tail takes the front event out of the queue into the sequencer's hands. */
  lemma {:induction false} PopKeepsQueue(ring: Ring<Event>, q: Spsc.Queue<Event>, p: nat, i: nat)
    requires QueueOk(ring, Popping(p, i), q, p)
    ensures QueueOk(ring, Popping(p, i), Spsc.Next(q, Spsc.ConsumerMove), p)
  {
    Spsc.NextKeepsInv(q, Spsc.ConsumerMove);
    if q.consumer.CCommit? {
      assert Requests(q.popped + [q.consumer.out]) == Requests(q.popped) + [RequestOf(q.consumer.out)];
    }
  }

  lemma {:induction false} TakeKeepsQueue(ring: Ring<Event>, q: Spsc.Queue<Event>, p: nat, i: nat, pc': Pc)
    requires QueueOk(ring, Popping(p, i), q, p) && q.consumer.CReturn?
    requires var f := InFlight(ring, pc');
             if q.consumer.got.Some?
             then f.Some? && f.value.producer == p && RequestOf(f.value) == RequestOf(q.consumer.got.value)
             else f.None?
    requires !pc'.Popping?
    ensures QueueOk(ring, pc', Spsc.Next(q, Spsc.ConsumerDone), p)
  {
    Spsc.NextKeepsInv(q, Spsc.ConsumerDone);
  }

  /** A queue the sequencer does not touch: only what is published or in flight of it matters. */
  lemma OtherKeepsQueue(ring: Ring<Event>, ring': Ring<Event>, pc: Pc, pc': Pc, q: Spsc.Queue<Event>, p: nat)
    requires QueueOk(ring, pc, q, p) && ring'.published == ring.published
    requires pc'.Popping? && pc'.p == p <==> pc.Popping? && pc.p == p
    requires Held(ring', pc', q, p) == Held(ring, pc, q, p)
    ensures QueueOk(ring', pc', q, p)
  {
  }

  lemma {:induction false} PublishKeepsQueue(ring: Ring<Event>, ring': Ring<Event>, pc: Pc, q: Spsc.Queue<Event>, p: nat)
    requires QueueOk(ring, pc, q, p) && pc.Spinning?
    requires if ring.writer.WPublish?
             then ring'.published == ring.published + [pc.ev] && InFlight(ring', pc).None? && InFlight(ring, pc).Some?
             else ring'.published == ring.published && InFlight(ring', pc) == InFlight(ring, pc)
    ensures QueueOk(ring', pc, q, p)
  {
    if ring.writer.WPublish? {
      FromOne(ring.published, pc.ev, p);
      assert Held(ring', pc, q, p) == [];
      assert Held(ring, pc, q, p) == if pc.ev.producer == p then [RequestOf(pc.ev)] else [];
      assert From(ring'.published, p) == From(ring.published, p) + Held(ring, pc, q, p);
    }
  }

  // ---------- fairness ----------

  /** Position in the round: how many producers' batches lie behind, and how far into the current one. */
  function Turn(pc: Pc): (nat, nat) {
    match pc
    case Drain(p, i) => (p, i)
    case Popping(p, i) => (p, i)
    case Stamped(p, i, _) => (p, i + 1)
    case Spinning(p, i, _) => (p, i + 1)
    case _ => (PRODUCERS, 0)
  }

  function WaitBound(p: nat, pc: Pc): int {
    var (q, i) := Turn(pc);
    if q == p then 0
    else if q > p then BATCH * (q - p - 1) + i
    else BATCH * (PRODUCERS - 1 - p + q) + i
  }

  ghost predicate Fair(others: seq<nat>, pc: Pc) {
    |others| == PRODUCERS && forall p :: 0 <= p < PRODUCERS ==> others[p] <= WaitBound(p, pc)
  }

  lemma {:induction false} SameTurnFair(others: seq<nat>, pc: Pc, pc': Pc)
    requires Fair(others, pc) && Turn(pc') == Turn(pc)
    ensures Fair(others, pc')
  {
    forall p | 0 <= p < PRODUCERS ensures others[p] <= WaitBound(p, pc') {
      assert others[p] <= WaitBound(p, pc);
    }
  }

  lemma {:induction false} StampFair(others: seq<nat>, p: nat, i: nat, ev: Event)
    requires Fair(others, Popping(p, i)) && p < PRODUCERS
    ensures Fair(Waited(others, p), Stamped(p, i, ev))
  {
    forall q | 0 <= q < PRODUCERS ensures Waited(others, p)[q] <= WaitBound(q, Stamped(p, i, ev)) {
      assert others[q] <= WaitBound(q, Popping(p, i));
    }
  }

  /** Going on to the next producer, or starting a round. */
  lemma {:induction false} VisitFair(s: Sequencer, p: nat)
    requires Fair(s.others, s.pc) && PcOk(s.pc) && p <= PRODUCERS
    requires (s.pc.Check? && p == 0) || ((s.pc.Drain? || s.pc.Popping?) && p == s.pc.p + 1)
    ensures Fair(Visit(s, p).others, Visit(s, p).pc)
  {
    forall q | 0 <= q < PRODUCERS ensures Visit(s, p).others[q] <= WaitBound(q, Visit(s, p).pc) {
      assert s.others[q] <= WaitBound(q, s.pc);
    }
  }

  // ---------- the invariant ----------

  ghost predicate Inv(s: Sequencer) {
    && |s.queues| == PRODUCERS
    && StreamOk(s.ring, s.pc, s.nextSeq)
    && (forall p :: 0 <= p < PRODUCERS ==> QueueOk(s.ring, s.pc, s.queues[p], p))
    && Fair(s.others, s.pc)
  }

  lemma {:induction false} StartInv(capacity: nat, consumers: nat, queueCapacity: nat, blank: Event)
    requires capacity > 0 && queueCapacity > 0
    ensures Inv(Start(capacity, consumers, queueCapacity, blank))
  {
    RingProtocol.StartInv(capacity, consumers, blank);
    Spsc.StartInv(queueCapacity, blank);
  }

  /** A step of one queue's producer. */
  lemma {:induction false} ProducerKeeps(s: Sequencer, p: nat, push: Spsc.Step<Event>)
    requires Inv(s) && Shaped(s) && p < PRODUCERS && PushStep(push)
    ensures Inv(OnQueue(s, p, push))
  {
    assert QueueOk(s.ring, s.pc, s.queues[p], p);
    PushKeepsQueue(s.ring, s.pc, s.queues[p], p, push);
  }

  lemma {:induction false} LoadRunningKeeps(s: Sequencer)
    requires Inv(s) && Shaped(s) && s.pc.Check?
    ensures Inv(Next(s, LoadRunning))
  {
    var s' := Next(s, LoadRunning);
    QuietKeepsStream(s.ring, s.pc, s'.pc, s.nextSeq);
    forall q | 0 <= q < PRODUCERS ensures QueueOk(s.ring, s'.pc, s.queues[q], q) {
      OtherKeepsQueue(s.ring, s.ring, s.pc, s'.pc, s.queues[q], q);
    }
    if s.running {
      VisitFair(s, 0);
    } else {
      SameTurnFair(s.others, s.pc, Stopped);
    }
  }

  lemma {:induction false} DrainKeeps(s: Sequencer)
    requires Inv(s) && Shaped(s) && s.pc.Drain?
    ensures Inv(DrainStep(s))
  {
    var s', p, i := DrainStep(s), s.pc.p, s.pc.i;
    QuietKeepsStream(s.ring, s.pc, s'.pc, s.nextSeq);
    forall q | 0 <= q < PRODUCERS ensures QueueOk(s.ring, s'.pc, s'.queues[q], q) {
      assert QueueOk(s.ring, s.pc, s.queues[q], q);
      if q == p && i < BATCH {
        CallKeepsQueue(s.ring, s.queues[p], p, i);
      } else {
        OtherKeepsQueue(s.ring, s.ring, s.pc, s'.pc, s.queues[q], q);
      }
    }
    if p < PRODUCERS && i == BATCH {
      VisitFair(s, p + 1);
    } else {
      SameTurnFair(s.others, s.pc, s'.pc);
    }
  }

  lemma {:induction false} MovePopKeeps(s: Sequencer)
    requires Inv(s) && Shaped(s) && s.pc.Popping?
    ensures Inv(OnQueue(s, s.pc.p, Spsc.ConsumerMove))
  {
    assert QueueOk(s.ring, s.pc, s.queues[s.pc.p], s.pc.p);
    PopKeepsQueue(s.ring, s.queues[s.pc.p], s.pc.p, s.pc.i);
  }

  lemma {:induction false} TakeKeeps(s: Sequencer, now: Nanos)
    requires Inv(s) && Shaped(s) && s.pc.Popping? && s.queues[s.pc.p].consumer.CReturn?
    ensures Inv(TakeStep(s, now))
  {
    var s', p, got := TakeStep(s, now), s.pc.p, s.queues[s.pc.p].consumer.got;
    if got.Some? {
      StampKeepsStream(s.ring, s.pc, s.nextSeq, got.value, now);
      StampFair(s.others, p, s.pc.i, s'.pc.ev);
    } else {
      QuietKeepsStream(s.ring, s.pc, s'.pc, s.nextSeq);
      VisitFair(s, p + 1);
    }
    forall q | 0 <= q < PRODUCERS ensures QueueOk(s.ring, s'.pc, s'.queues[q], q) {
      assert QueueOk(s.ring, s.pc, s.queues[q], q);
      if q == p {
        TakeKeepsQueue(s.ring, s.queues[p], p, s.pc.i, s'.pc);
      } else {
        OtherKeepsQueue(s.ring, s.ring, s.pc, s'.pc, s.queues[q], q);
      }
    }
  }

  lemma {:induction false} BeginKeeps(s: Sequencer)
    requires Inv(s) && Shaped(s) && s.pc.Stamped?
    ensures Inv(Next(s, BeginPublish))
  {
    var s' := Next(s, BeginPublish);
    BeginKeepsStream(s.ring, s.pc, s.nextSeq);
    SameTurnFair(s.others, s.pc, s'.pc);
    forall q | 0 <= q < PRODUCERS ensures QueueOk(s'.ring, s'.pc, s.queues[q], q) {
      OtherKeepsQueue(s.ring, s'.ring, s.pc, s'.pc, s.queues[q], q);
    }
  }

  lemma {:induction false} MovePublishKeeps(s: Sequencer)
    requires Inv(s) && Shaped(s) && s.pc.Spinning?
    ensures Inv(Next(s, MovePublish))
  {
    var ring' := RingProtocol.Next(s.ring, WriterMove);
    MoveKeepsStream(s.ring, s.pc, s.nextSeq);
    forall q | 0 <= q < PRODUCERS ensures QueueOk(ring', s.pc, s.queues[q], q) {
      PublishKeepsQueue(s.ring, ring', s.pc, s.queues[q], q);
    }
  }

  lemma {:induction false} ResultKeeps(s: Sequencer)
    requires Inv(s) && Shaped(s) && s.pc.Spinning? && s.ring.writer.WReturn?
    ensures Inv(Next(s, TakeResult))
  {
    var s' := Next(s, TakeResult);
    ResultKeepsStream(s.ring, s.pc, s.nextSeq);
    SameTurnFair(s.others, s.pc, s'.pc);
    forall q | 0 <= q < PRODUCERS ensures QueueOk(s'.ring, s'.pc, s.queues[q], q) {
      OtherKeepsQueue(s.ring, s'.ring, s.pc, s'.pc, s.queues[q], q);
    }
  }

  lemma {:induction false} ReaderKeeps(s: Sequencer, step: Step<Event>)
    requires Inv(s) && Shaped(s) && ReaderStep(step)
    ensures Inv(Next(s, Reader(step)))
  {
    var ring' := RingProtocol.Next(s.ring, step);
    ReaderKeepsStream(s.ring, s.pc, s.nextSeq, step);
    forall q | 0 <= q < PRODUCERS ensures QueueOk(ring', s.pc, s.queues[q], q) {
      OtherKeepsQueue(s.ring, ring', s.pc, s.pc, s.queues[q], q);
    }
  }

  lemma {:induction false} SeqKeepsInv(s: Sequencer, step: SeqStep)
    requires Inv(s) && Shaped(s)
    ensures Inv(Next(s, step))
  {
    match step
    case Producer(p, push) => if p < PRODUCERS && PushStep(push) { ProducerKeeps(s, p, push); }
    case Stop =>
    case LoadRunning => if s.pc.Check? { LoadRunningKeeps(s); }
    case DrainNext => if s.pc.Drain? { DrainKeeps(s); }
    case MovePop => if s.pc.Popping? { MovePopKeeps(s); }
    case TakePop(now) => if s.pc.Popping? && s.queues[s.pc.p].consumer.CReturn? { TakeKeeps(s, now); }
    case BeginPublish => if s.pc.Stamped? { BeginKeeps(s); }
    case MovePublish => if s.pc.Spinning? { MovePublishKeeps(s); }
    case TakeResult => if s.pc.Spinning? && s.ring.writer.WReturn? { ResultKeeps(s); }
    case Reader(r) => if ReaderStep(r) { ReaderKeeps(s, r); }
  }

  lemma ShapedNext(s: Sequencer, step: SeqStep)
    requires Shaped(s)
    ensures Shaped(Next(s, step)) && |Next(s, step).ring.cursors| == |s.ring.cursors|
  {
  }

  function Exec(s: Sequencer, steps: seq<SeqStep>): (s': Sequencer)
    requires Shaped(s)
    ensures Shaped(s')
  {
    if steps == [] then s
    else
      var before := Exec(s, steps[..|steps| - 1]);
      ShapedNext(before, steps[|steps| - 1]);
      Next(before, steps[|steps| - 1])
  }

  lemma {:induction false} ExecKeepsInv(s: Sequencer, steps: seq<SeqStep>)
    requires Inv(s) && Shaped(s)
    ensures Inv(Exec(s, steps))
  {
    if steps == [] {
    } else {
      ExecKeepsInv(s, steps[..|steps| - 1]);
      SeqKeepsInv(Exec(s, steps[..|steps| - 1]), steps[|steps| - 1]);
    }
  }

  /** Under every schedule the published stream carries the sequence numbers 1, 2, 3, ... without gap or repeat. */
  lemma {:induction false} TotalOrder(capacity: nat, consumers: nat, queueCapacity: nat, blank: Event, steps: seq<SeqStep>)
    requires capacity > 0 && queueCapacity > 0
    ensures Contiguous(Exec(Start(capacity, consumers, queueCapacity, blank), steps).ring.published)
  {
    StartInv(capacity, consumers, queueCapacity, blank);
    ExecKeepsInv(Start(capacity, consumers, queueCapacity, blank), steps);
  }

  /** At most one event has left the queues without being published. */
  lemma {:induction false} HoldsAtMostOne(s: Sequencer)
    requires Inv(s)
    ensures |Held(s.ring, s.pc, s.queues[0], 0)| + |Held(s.ring, s.pc, s.queues[1], 1)|
            + |Held(s.ring, s.pc, s.queues[2], 2)| <= 1
  {
    assert QueueOk(s.ring, s.pc, s.queues[0], 0) && QueueOk(s.ring, s.pc, s.queues[1], 1)
           && QueueOk(s.ring, s.pc, s.queues[2], 2);
  }

  /**
   Under every schedule the published stream is an order-preserving merge of what the producers
   pushed: every event in it is some producer's, the events of each producer are its pops in
   order, which are its pushes in order, and at most one event popped is not published yet.
   */
  lemma {:induction false} OrderPreservingMerge(capacity: nat, consumers: nat, queueCapacity: nat, blank: Event,
                                                steps: seq<SeqStep>, p: nat)
    requires capacity > 0 && queueCapacity > 0 && p < PRODUCERS
    ensures var s := Exec(Start(capacity, consumers, queueCapacity, blank), steps);
            && Attributed(s.ring.published)
            && From(s.ring.published, p) + Held(s.ring, s.pc, s.queues[p], p) == Requests(s.queues[p].popped)
            && s.queues[p].popped <= s.queues[p].pushed
            && From(s.ring.published, p) <= Requests(s.queues[p].pushed)
            && |s.ring.published|
               <= |s.queues[0].popped| + |s.queues[1].popped| + |s.queues[2].popped|
               <= |s.ring.published| + 1
  {
    var start := Start(capacity, consumers, queueCapacity, blank);
    StartInv(capacity, consumers, queueCapacity, blank);
    ExecKeepsInv(start, steps);
    var s := Exec(start, steps);
    assert QueueOk(s.ring, s.pc, s.queues[p], p);
    PopsCounted(s);
  }

  lemma {:induction false} PopsCounted(s: Sequencer)
    requires Inv(s)
    ensures |s.ring.published|
            <= |s.queues[0].popped| + |s.queues[1].popped| + |s.queues[2].popped|
            <= |s.ring.published| + 1
  {
    FromCounts(s.ring.published);
    HoldsAtMostOne(s);
    forall q | 0 <= q < PRODUCERS
      ensures |s.queues[q].popped| == |From(s.ring.published, q)| + |Held(s.ring, s.pc, s.queues[q], q)|
    {
      assert QueueOk(s.ring, s.pc, s.queues[q], q);
    }
  }

  // ---------- what is stamped when ----------

  /** Everything stamped so far: the published stream and the event in flight. */
  function Issued(ring: Ring<Event>, pc: Pc): seq<Event> {
    ring.published + match InFlight(ring, pc) case Some(ev) => [ev] case None => []
  }

  /** The sequencer has an event in hand that it popped from queue p and that is not stamped yet. */
  predicate HasPopped(s: Sequencer, p: nat)
    requires Shaped(s)
  {
    s.pc.Popping? && s.pc.p == p < PRODUCERS && s.queues[p].consumer.CReturn? && s.queues[p].consumer.got.Some?
  }

  /**
   The step stamps this event: it takes a popped event, numbers it, and notes the clock reading
   of that very step and the queue it came from; the producer's own fields it leaves alone.
   */
  ghost predicate Stamps(s: Sequencer, step: SeqStep, ev: Event)
    requires Shaped(s)
  {
    && step == TakePop(ev.sequenceTs)
    && HasPopped(s, ev.producer)
    && ev.seqNum == s.nextSeq
    && (var got := s.queues[ev.producer].consumer.got.value;
        && ev.kind == got.kind && ev.session == got.session && ev.clientId == got.clientId
        && ev.side == got.side && ev.price == got.price && ev.qty == got.qty)
  }

  /** Between s and s' nothing was issued, or one event that the step stamps. */
  ghost predicate Issues(s: Sequencer, step: SeqStep, more: seq<Event>)
    requires Shaped(s)
  {
    && (more == [] || (|more| == 1 && Stamps(s, step, more[0])))
    && Issued(Next(s, step).ring, Next(s, step).pc) == Issued(s.ring, s.pc) + more
  }

  /** A publish moves the event in flight to the end of the stream, which leaves everything issued as it was. */
  lemma {:induction false} PublishIssues(ring: Ring<Event>, pc: Pc, nextSeq: nat)
    requires StreamOk(ring, pc, nextSeq) && pc.Spinning?
    ensures Issued(RingProtocol.Next(ring, WriterMove), pc) == Issued(ring, pc)
  {
    MoveKeepsStream(ring, pc, nextSeq);
  }

  /** The steps that stamp nothing and touch the ring only through the sequencer's own pc. */
  lemma {:induction false} QuietIssues(s: Sequencer, step: SeqStep)
    requires Inv(s) && Shaped(s)
    requires !step.TakePop? && !step.MovePublish? && !step.Reader?
    ensures Issued(Next(s, step).ring, Next(s, step).pc) == Issued(s.ring, s.pc)
  {
  }

  lemma {:induction false} TakeIssues(s: Sequencer, now: Nanos) returns (more: seq<Event>)
    requires Inv(s) && Shaped(s) && s.pc.Popping? && s.queues[s.pc.p].consumer.CReturn?
    ensures Issues(s, TakePop(now), more)
  {
    more := if HasPopped(s, s.pc.p) then [TakeStep(s, now).pc.ev] else [];
  }

  /** What one step issues. */
  lemma {:induction false} StepIssues(s: Sequencer, step: SeqStep) returns (more: seq<Event>)
    requires Inv(s) && Shaped(s)
    ensures Issues(s, step, more)
  {
    if step.TakePop? && s.pc.Popping? && s.queues[s.pc.p].consumer.CReturn? {
      more := TakeIssues(s, step.now);
    } else {
      more := [];
      assert Issued(s.ring, s.pc) + [] == Issued(s.ring, s.pc);
      match step
      case TakePop(_) =>
      case MovePublish => if s.pc.Spinning? { PublishIssues(s.ring, s.pc, s.nextSeq); }
      case Reader(r) => if ReaderStep(r) { ReaderKeepsStream(s.ring, s.pc, s.nextSeq, r); }
      case _ => QuietIssues(s, step);
    }
  }

  /** Every event issued was stamped at some step of the schedule. */
  lemma {:induction false} IssuedAt(s: Sequencer, steps: seq<SeqStep>, i: nat) returns (k: nat)
    requires Inv(s) && Shaped(s) && Issued(s.ring, s.pc) == []
    requires i < |Issued(Exec(s, steps).ring, Exec(s, steps).pc)|
    ensures k < |steps| && Stamps(Exec(s, steps[..k]), steps[k], Issued(Exec(s, steps).ring, Exec(s, steps).pc)[i])
  {
    var n := |steps| - 1;
    var before := Exec(s, steps[..n]);
    ExecKeepsInv(s, steps[..n]);
    var more := StepIssues(before, steps[n]);
    if i < |Issued(before.ring, before.pc)| {
      k := IssuedAt(s, steps[..n], i);
      assert steps[..n][..k] == steps[..k];
    } else {
      k := n;
    }
  }

  /**
   Under every schedule, each published event was stamped by one step of it: the event popped last
   from its producer's queue, with the producer's own fields as they were pushed, the next number,
   and the clock reading of that step.
   */
  lemma {:induction false} StampedOnce(capacity: nat, consumers: nat, queueCapacity: nat, blank: Event,
                                       steps: seq<SeqStep>, i: nat) returns (k: nat)
    requires capacity > 0 && queueCapacity > 0
    requires i < |Exec(Start(capacity, consumers, queueCapacity, blank), steps).ring.published|
    ensures var start := Start(capacity, consumers, queueCapacity, blank);
            var ev := Exec(start, steps).ring.published[i];
            && k < |steps| && Stamps(Exec(start, steps[..k]), steps[k], ev)
            && ev.seqNum == i + 1
            && (var popped := Exec(start, steps[..k]).queues[ev.producer].popped;
                popped != [] && RequestOf(ev) == RequestOf(popped[|popped| - 1]))
  {
    var start := Start(capacity, consumers, queueCapacity, blank);
    StartInv(capacity, consumers, queueCapacity, blank);
    ExecKeepsInv(start, steps);
    k := IssuedAt(start, steps, i);
    ExecKeepsInv(start, steps[..k]);
    var t, p := Exec(start, steps[..k]), Exec(start, steps).ring.published[i].producer;
    assert QueueOk(t.ring, t.pc, t.queues[p], p);
  }

  // ---------- the batch ----------

  /** The step turns to producer p, at the start of its batch. */
  predicate Visits(s: Sequencer, step: SeqStep, p: nat)
    requires Shaped(s)
  {
    s.pc != Drain(p, 0) && Next(s, step).pc == Drain(p, 0)
  }

  /** The last n events issued are all of producer p. */
  ghost predicate LastFrom(events: seq<Event>, n: nat, p: nat) {
    n <= |events| && forall k :: |events| - n <= k < |events| ==> events[k].producer == p
  }

  /** As many as the batch counts, the last events issued are of the producer being drained. */
  ghost predicate BatchOk(s: Sequencer) {
    LastFrom(Issued(s.ring, s.pc), Turn(s.pc).1, Turn(s.pc).0)
  }

  lemma {:induction false} BatchKept(s: Sequencer, step: SeqStep)
    requires Inv(s) && Shaped(s) && BatchOk(s)
    ensures BatchOk(Next(s, step))
  {
    var more := StepIssues(s, step);
    TurnMoves(s, step, more);
  }

  /** The batch count starts anew or goes up by what is issued. */
  lemma {:induction false} TurnMoves(s: Sequencer, step: SeqStep, more: seq<Event>)
    requires Inv(s) && Shaped(s) && Issues(s, step, more)
    ensures var turn, turn' := Turn(s.pc), Turn(Next(s, step).pc);
            || turn'.1 == 0
            || (turn'.0 == turn.0 && turn'.1 == turn.1 + |more| && (more != [] ==> more[0].producer == turn.0))
  {
  }

  lemma {:induction false} BatchAlways(s: Sequencer, steps: seq<SeqStep>)
    requires Inv(s) && Shaped(s) && BatchOk(s)
    ensures BatchOk(Exec(s, steps))
  {
    if steps == [] {
    } else {
      var n := |steps| - 1;
      BatchAlways(s, steps[..n]);
      ExecKeepsInv(s, steps[..n]);
      BatchKept(Exec(s, steps[..n]), steps[n]);
    }
  }

  /**
   Under every schedule the sequencer turns from a producer to the next only if a pop came back
   empty-handed or the last 32 events it stamped were all of that producer.
   */
  lemma {:induction false} TurnsOnlyWhenDone(capacity: nat, consumers: nat, queueCapacity: nat, blank: Event,
                                             steps: seq<SeqStep>, step: SeqStep, p: nat)
    requires capacity > 0 && queueCapacity > 0 && p < PRODUCERS
    requires var s := Exec(Start(capacity, consumers, queueCapacity, blank), steps);
             Visits(s, step, p + 1)
    ensures var s := Exec(Start(capacity, consumers, queueCapacity, blank), steps);
            || s.queues[p].consumer == Spsc.CReturn(None)
            || LastFrom(Issued(s.ring, s.pc), 32, p)
  {
    var start := Start(capacity, consumers, queueCapacity, blank);
    StartInv(capacity, consumers, queueCapacity, blank);
    ExecKeepsInv(start, steps);
    BatchAlways(start, steps);
  }

  // ---------- how long a producer waits ----------

  /** How many of the events come from other producers. */
  function CountOthers(events: seq<Event>, p: nat): nat {
    if events == [] then 0
    else CountOthers(events[..|events| - 1], p) + if events[|events| - 1].producer == p then 0 else 1
  }

  lemma {:induction false} CountOthersConcat(a: seq<Event>, b: seq<Event>, p: nat)
    ensures CountOthers(a + b, p) == CountOthers(a, p) + CountOthers(b, p)
    decreases |b|
  {
    if b == [] {
      assert a + b == a;
    } else {
      assert (a + b)[..|a + b| - 1] == a + b[..|b| - 1];
      CountOthersConcat(a, b[..|b| - 1], p);
    }
  }

  /** From s to s', exactly `more` is issued, and p's counter grows by those of others. */
  ghost predicate Waits(s: Sequencer, s': Sequencer, p: nat, more: seq<Event>) {
    && p < |s.others| && p < |s'.others|
    && Issued(s'.ring, s'.pc) == Issued(s.ring, s.pc) + more
    && s'.others[p] == s.others[p] + CountOthers(more, p)
  }

  lemma {:induction false} WaitsOn(s: Sequencer, s': Sequencer, s'': Sequencer, p: nat, more: seq<Event>, last: seq<Event>)
    requires Waits(s, s', p, more) && Waits(s', s'', p, last)
    ensures Waits(s, s'', p, more + last)
  {
    CountOthersConcat(more, last, p);
    Associate(Issued(s.ring, s.pc), more, last);
  }

  lemma WaitsNot(s: Sequencer, p: nat)
    requires p < |s.others|
    ensures Waits(s, s, p, [])
  {
    assert Issued(s.ring, s.pc) + [] == Issued(s.ring, s.pc);
  }

  /** A producer that the step does not turn to waits for what the step stamps of others. */
  lemma {:induction false} OthersNext(s: Sequencer, step: SeqStep, p: nat, more: seq<Event>)
    requires Inv(s) && Shaped(s) && p < PRODUCERS && !Visits(s, step, p) && Issues(s, step, more)
    ensures Waits(s, Next(s, step), p, more)
  {
    if more != [] {
      assert more[..0] == [] && more == [more[0]];
      assert CountOthers(more, p) == if more[0].producer == p then 0 else 1;
    } else {
      assert Issued(s.ring, s.pc) + [] == Issued(s.ring, s.pc);
    }
  }

  /** From step i of the schedule on, nothing turns to producer p. */
  ghost predicate Unvisited(s: Sequencer, steps: seq<SeqStep>, i: nat, p: nat)
    requires Shaped(s)
  {
    forall k :: i <= k < |steps| ==> !Visits(Exec(s, steps[..k]), steps[k], p)
  }

  lemma {:induction false} UnvisitedBefore(s: Sequencer, steps: seq<SeqStep>, i: nat, p: nat)
    requires Shaped(s) && steps != [] && i < |steps| && Unvisited(s, steps, i, p)
    ensures Unvisited(s, steps[..|steps| - 1], i, p)
    ensures !Visits(Exec(s, steps[..|steps| - 1]), steps[|steps| - 1], p)
  {
    var init := steps[..|steps| - 1];
    forall k | i <= k < |init| ensures !Visits(Exec(s, init[..k]), init[k], p) {
      assert init[..k] == steps[..k] && init[k] == steps[k];
    }
  }

  lemma {:induction false} LastWaits(s: Sequencer, steps: seq<SeqStep>, p: nat) returns (more: seq<Event>)
    requires Inv(s) && Shaped(s) && p < PRODUCERS && steps != []
    requires !Visits(Exec(s, steps[..|steps| - 1]), steps[|steps| - 1], p)
    ensures Waits(Exec(s, steps[..|steps| - 1]), Exec(s, steps), p, more)
  {
    ExecKeepsInv(s, steps[..|steps| - 1]);
    more := StepIssues(Exec(s, steps[..|steps| - 1]), steps[|steps| - 1]);
    OthersNext(Exec(s, steps[..|steps| - 1]), steps[|steps| - 1], p, more);
  }

  /** While producer p is not turned to, its counter grows by the events issued of others. */
  lemma {:induction false} WaitCounts(s: Sequencer, steps: seq<SeqStep>, i: nat, p: nat) returns (more: seq<Event>)
    requires Inv(s) && Shaped(s) && p < PRODUCERS && i <= |steps| && Unvisited(s, steps, i, p)
    ensures Waits(Exec(s, steps[..i]), Exec(s, steps), p, more)
    decreases |steps|
  {
    if i == |steps| {
      assert steps[..i] == steps;
      WaitsNot(Exec(s, steps), p);
      more := [];
    } else {
      var init := steps[..|steps| - 1];
      UnvisitedBefore(s, steps, i, p);
      var before := WaitCounts(s, init, i, p);
      assert init[..i] == steps[..i];
      var last := LastWaits(s, steps, p);
      WaitsOn(Exec(s, steps[..i]), Exec(s, init), Exec(s, steps), p, before, last);
      more := before + last;
    }
  }

  /**
   Under every schedule, over any stretch of it in which the sequencer does not turn to a
   producer, at most 64 events of other producers are stamped.
   */
  lemma {:induction false} BoundedWait(capacity: nat, consumers: nat, queueCapacity: nat, blank: Event,
                                       steps: seq<SeqStep>, i: nat, p: nat) returns (more: seq<Event>)
    requires capacity > 0 && queueCapacity > 0 && p < PRODUCERS && i <= |steps|
    requires Unvisited(Start(capacity, consumers, queueCapacity, blank), steps, i, p)
    ensures var start := Start(capacity, consumers, queueCapacity, blank);
            var before, after := Exec(start, steps[..i]), Exec(start, steps);
            Issued(after.ring, after.pc) == Issued(before.ring, before.pc) + more
    ensures CountOthers(more, p) <= 64
  {
    var start := Start(capacity, consumers, queueCapacity, blank);
    StartInv(capacity, consumers, queueCapacity, blank);
    ExecKeepsInv(start, steps);
    more := WaitCounts(start, steps, i, p);
    assert Exec(start, steps).others[p] <= WaitBound(p, Exec(start, steps).pc);
  }
}
