/**
 That nothing pushed is stuck while the pipeline runs: from every state before the shutdown, some
 schedule publishes every event in the queues and has the matching engine and the log handle it.
 The proof gives such a schedule, step by step, with a measure that each step lowers.
 */
module Deliveries {
  import opened Types
  import opened Engines
  import opened RingProtocol
  import opened Sequencers
  import opened Pipelines
  import opened Shutdowns

  lemma {:induction false} ResumeMore(cfg: Config, s: Pipe, steps: seq<PipeStep>, more: seq<PipeStep>)
    requires Pipelines.Shaped(s)
    ensures Resume(cfg, s, steps + more) == Resume(cfg, Resume(cfg, s, steps), more)
    decreases |steps|
  {
    if steps == [] {
      assert steps + more == more;
    } else {
      assert (steps + more)[0] == steps[0] && (steps + more)[1..] == steps[1..] + more;
      Pipelines.ShapedNext(cfg, s, steps[0]);
      ResumeMore(cfg, Pipelines.Next(cfg, s, steps[0]), steps[1..], more);
    }
  }

  // ---------- the sequencer ----------

  function Waiting(q: Spsc.Queue<Event>): int {
    |q.pushed| - |q.popped|
  }

  /** Events in the queues. */
  function Backlog(s: Sequencer): int
    requires |s.queues| == PRODUCERS
  {
    Waiting(s.queues[0]) + Waiting(s.queues[1]) + Waiting(s.queues[2])
  }

  /** The producer whose turn it is, and whether the turn leaves room for one more pop. */
  function Place(s: Sequencer): (nat, bool) {
    match s.pc
    case Drain(p, i) => (p, i < BATCH)
    case Popping(p, i) =>
      (p, p < |s.queues| && match s.queues[p].consumer
                            case CReturn(got) => got.Some? && i + 1 < BATCH
                            case _ => true)
    case Stamped(p, i, _) => (p, i + 1 < BATCH)
    case Spinning(p, i, _) => (p, i + 1 < BATCH)
    case _ => (PRODUCERS, false)
  }

  /** The current round still comes to a queue with something in it. */
  predicate ComesTo(s: Sequencer, q: nat)
    requires q < |s.queues|
  {
    Waiting(s.queues[q]) > 0 && (q > Place(s).0 || (q == Place(s).0 && Place(s).1))
  }

  /** Whether another round is needed to come to the next event. */
  function RoundsLeft(s: Sequencer): int
    requires |s.queues| == PRODUCERS
  {
    if Backlog(s) == 0 || ComesTo(s, 0) || ComesTo(s, 1) || ComesTo(s, 2) then 0 else 1
  }

  /** Nothing is queued, and nothing popped is unpublished. */
  predicate Through(s: Sequencer)
    requires |s.queues| == PRODUCERS
  {
    && Backlog(s) == 0 && InFlight(s.ring, s.pc).None?
    && !(s.pc.Popping? && s.pc.p < PRODUCERS && HasEvent(s.queues[s.pc.p]))
  }

  predicate HasEvent(q: Spsc.Queue<Event>) {
    q.consumer.CReturn? && q.consumer.got.Some?
  }

  ghost predicate SamePushes(s: Sequencer, s': Sequencer) {
    |s.queues| == |s'.queues| && forall p :: 0 <= p < |s.queues| ==> s'.queues[p].pushed == s.queues[p].pushed
  }

  /** Less of the round is left, or as much and fewer moves. */
  ghost predicate Nearer(s: Sequencer, s': Sequencer) {
    || RoundLeft(s'.ring, s'.pc) < RoundLeft(s.ring, s.pc)
    || (&& RoundLeft(s'.ring, s'.pc) == RoundLeft(s.ring, s.pc)
        && s'.ring.write == s.ring.write && MovesLeft(s') < MovesLeft(s))
  }

  /** Fewer events are queued, or as many and fewer rounds to the next, or as many and s' is nearer. */
  ghost predicate Closer(s: Sequencer, s': Sequencer)
    requires |s.queues| == |s'.queues| == PRODUCERS
  {
    || Backlog(s') < Backlog(s)
    || (&& Backlog(s') == Backlog(s)
        && (RoundsLeft(s') < RoundsLeft(s) || (RoundsLeft(s') == RoundsLeft(s) && Nearer(s, s'))))
  }

  /** The same is queued, and the round comes to the same queues. */
  ghost predicate SameQueues(s: Sequencer, s': Sequencer) {
    && |s.queues| == |s'.queues| == PRODUCERS
    && forall q :: 0 <= q < PRODUCERS ==>
         && s'.queues[q].pushed == s.queues[q].pushed && s'.queues[q].popped == s.queues[q].popped
         && (ComesTo(s', q) <==> ComesTo(s, q))
  }

  lemma SameQueuesCloser(s: Sequencer, s': Sequencer)
    requires SameQueues(s, s') && Nearer(s, s')
    ensures Closer(s, s') && SamePushes(s, s')
  {
    assert ComesTo(s', 0) == ComesTo(s, 0) && ComesTo(s', 1) == ComesTo(s, 1) && ComesTo(s', 2) == ComesTo(s, 2);
  }

  lemma {:induction false} BacklogPositive(s: Sequencer)
    requires Sequencers.Inv(s)
    ensures Backlog(s) >= 0
    ensures forall p :: 0 <= p < PRODUCERS ==> Waiting(s.queues[p]) >= 0
  {
    forall p | 0 <= p < PRODUCERS ensures Waiting(s.queues[p]) >= 0 {
      assert QueueOk(s.ring, s.pc, s.queues[p], p);
    }
  }

  /** A new round comes to every queue. */
  lemma {:induction false} RoundAdvances(s: Sequencer)
    requires Sequencers.Inv(s) && Sequencers.Shaped(s) && s.running && s.pc.Check? && Backlog(s) > 0
    ensures Closer(s, Sequencers.Next(s, LoadRunning)) && SamePushes(s, Sequencers.Next(s, LoadRunning))
  {
    var s' := Sequencers.Next(s, LoadRunning);
    BacklogPositive(s);
    assert s'.queues == s.queues && s'.pc == Drain(0, 0);
  }

  /** Calling pop. */
  lemma {:induction false} CallAdvances(s: Sequencer)
    requires Sequencers.Inv(s) && Sequencers.Shaped(s) && s.pc.Drain? && s.pc.p < PRODUCERS && s.pc.i < BATCH
    ensures SameQueues(s, DrainStep(s)) && Nearer(s, DrainStep(s))
  {
    var p := s.pc.p;
    assert QueueOk(s.ring, s.pc, s.queues[p], p);
  }

  /** Going on after a full batch, or ending the round. */
  lemma {:induction false} TurnAdvances(s: Sequencer)
    requires Sequencers.Inv(s) && Sequencers.Shaped(s) && s.pc.Drain? && (s.pc.p >= PRODUCERS || s.pc.i >= BATCH)
    ensures SameQueues(s, DrainStep(s)) && Nearer(s, DrainStep(s))
  {
    assert DrainStep(s).queues == s.queues;
  }

  /** A move of a pop before the one that takes the event out. */
  lemma {:induction false} PopMoveAdvances(s: Sequencer)
    requires Sequencers.Inv(s) && Sequencers.Shaped(s) && s.pc.Popping?
    requires !s.queues[s.pc.p].consumer.CReturn? && !s.queues[s.pc.p].consumer.CCommit?
    ensures var s' := OnQueue(s, s.pc.p, Spsc.ConsumerMove);
            SameQueues(s, s') && Nearer(s, s')
  {
    var p := s.pc.p;
    assert QueueOk(s.ring, s.pc, s.queues[p], p);
    PopAdvances(s.queues[p]);
    Spsc.EmptyTest(s.queues[p]);
  }

  /** The move that takes it out. */
  lemma {:induction false} PopCommits(s: Sequencer)
    requires Sequencers.Inv(s) && Sequencers.Shaped(s) && s.pc.Popping? && s.queues[s.pc.p].consumer.CCommit?
    ensures var s' := OnQueue(s, s.pc.p, Spsc.ConsumerMove);
            |s'.queues| == PRODUCERS && SamePushes(s, s') && Backlog(s') < Backlog(s)
  {
  }

  /** Stamping what was popped. */
  lemma {:induction false} StampAdvances(s: Sequencer, now: Nanos)
    requires Sequencers.Inv(s) && Sequencers.Shaped(s) && s.pc.Popping? && HasEvent(s.queues[s.pc.p])
    ensures SameQueues(s, TakeStep(s, now)) && Nearer(s, TakeStep(s, now))
  {
  }

  /** Going on after an empty-handed pop. */
  lemma {:induction false} SkipAdvances(s: Sequencer, now: Nanos)
    requires Sequencers.Inv(s) && Sequencers.Shaped(s) && s.pc.Popping?
    requires s.queues[s.pc.p].consumer == Spsc.CReturn(None)
    ensures SameQueues(s, TakeStep(s, now)) && Nearer(s, TakeStep(s, now))
  {
  }

  /** With an event in hand and the readers caught up, towards its publication. */
  lemma {:induction false} PublishCloser(s: Sequencer)
    requires Sequencers.Inv(s) && Sequencers.Shaped(s) && (s.pc.Stamped? || s.pc.Spinning?)
    requires InFlight(s.ring, s.pc).Some? ==> CaughtUp(s.ring)
    ensures var s' := Sequencers.Next(s, SequencerMove(s));
            SameQueues(s, s') && Nearer(s, s')
  {
    var s' := Sequencers.Next(s, SequencerMove(s));
    SequencerPublishes(s);
    assert s'.queues == s.queues && Place(s') == Place(s);
  }

  /** While something is queued or held, the sequencer comes closer to having published it. */
  lemma {:induction false} SequencerCloser(s: Sequencer)
    requires Sequencers.Inv(s) && Sequencers.Shaped(s) && s.running && !s.pc.Stopped? && !Through(s)
    requires InFlight(s.ring, s.pc).Some? ==> CaughtUp(s.ring)
    ensures var s' := Sequencers.Next(s, SequencerMove(s));
            |s'.queues| == PRODUCERS && Closer(s, s') && SamePushes(s, s')
  {
    var s' := Sequencers.Next(s, SequencerMove(s));
    match s.pc
    case Check => RoundAdvances(s);
    case Drain(p, i) =>
      if p < PRODUCERS && i < BATCH {
        CallAdvances(s);
      } else {
        TurnAdvances(s);
      }
      SameQueuesCloser(s, s');
    case Popping(p, _) => PoppingCloser(s);
    case _ =>
      PublishCloser(s);
      SameQueuesCloser(s, s');
  }

  lemma {:induction false} PoppingCloser(s: Sequencer)
    requires Sequencers.Inv(s) && Sequencers.Shaped(s) && s.pc.Popping?
    ensures var s' := Sequencers.Next(s, SequencerMove(s));
            |s'.queues| == PRODUCERS && Closer(s, s') && SamePushes(s, s')
  {
    var s', q := Sequencers.Next(s, SequencerMove(s)), s.queues[s.pc.p];
    if q.consumer.CCommit? {
      PopCommits(s);
    } else {
      if HasEvent(q) {
        StampAdvances(s, 0);
      } else if q.consumer.CReturn? {
        SkipAdvances(s, 0);
      } else {
        PopMoveAdvances(s);
      }
      SameQueuesCloser(s, s');
    }
  }

  // ---------- publishing everything ----------

  /** The measure: events queued, rounds to the next, what is left of the round, how far readers are behind, moves. */
  function ToPublish(s: Pipe): (int, int, int, int, int)
    requires Pipelines.Shaped(s)
  {
    (Backlog(s.seqr), RoundsLeft(s.seqr), RoundLeft(s.seqr.ring, s.seqr.pc), LagUpTo(s, |s.pcs|), MovesLeft(s.seqr))
  }

  predicate Below(a: (int, int, int, int, int), b: (int, int, int, int, int)) {
    || a.0 < b.0
    || (a.0 == b.0 && a.1 < b.1)
    || (a.0 == b.0 && a.1 == b.1 && a.2 < b.2)
    || (a.0 == b.0 && a.1 == b.1 && a.2 == b.2 && a.3 < b.3)
    || (a.0 == b.0 && a.1 == b.1 && a.2 == b.2 && a.3 == b.3 && a.4 < b.4)
  }

  ghost predicate Delivers(cfg: Config, s: Pipe, step: PipeStep)
    requires Pipelines.Shaped(s)
  {
    var s' := Pipelines.Next(cfg, s, step);
    && Pipelines.Shaped(s') && s'.phase == s.phase && SamePushes(s.seqr, s'.seqr)
    && Below(ToPublish(s'), ToPublish(s))
  }

  lemma {:induction false} PublishPositive(cfg: Config, s: Pipe)
    requires Pipelines.Inv(cfg, s)
    ensures var m := ToPublish(s);
            m.0 >= 0 && m.1 >= 0 && m.2 >= 0 && m.3 >= 0 && m.4 >= 0
  {
    BacklogPositive(s.seqr);
    assert WriterOk(s.seqr.ring);
  }

  /** A reader that is behind comes closer, and the sequencer stays where it is. */
  lemma {:induction false} LaggardDelivers(cfg: Config, s: Pipe, c: nat)
    requires Pipelines.Inv(cfg, s) && s.phase == 0 && c < |s.pcs| && Behind(s, c) > 0
    ensures Delivers(cfg, s, ConsumerMove(s, c))
  {
    var s' := Pipelines.Next(cfg, s, ConsumerMove(s, c));
    assert LoopOk(s, c) && CursorOk(s.seqr.ring, c) && ReaderOk(s.seqr.ring, c);
    ConsumerFrame(cfg, s, c);
    ConsumerCatchesUp(cfg, s, c);
    LagDrops(s, s', c, |s.pcs|);
    SamePlace(s.seqr, s'.seqr);
  }

  lemma SamePlace(s: Sequencer, s': Sequencer)
    requires Sequencers.Shaped(s) && s'.queues == s.queues && s'.pc == s.pc && s'.ring.writer == s.ring.writer
    ensures Backlog(s') == Backlog(s) && RoundsLeft(s') == RoundsLeft(s) && SamePushes(s, s')
    ensures RoundLeft(s'.ring, s'.pc) == RoundLeft(s.ring, s.pc) && (Through(s') <==> Through(s))
  {
  }

  lemma {:induction false} SequencerDelivers(cfg: Config, s: Pipe)
    requires Pipelines.Inv(cfg, s) && s.phase == 0 && !Through(s.seqr)
    requires InFlight(s.seqr.ring, s.seqr.pc).Some? ==> CaughtUp(s.seqr.ring)
    ensures Delivers(cfg, s, Sequence(SequencerMove(s.seqr)))
  {
    var move := SequencerMove(s.seqr);
    var s' := Pipelines.Next(cfg, s, Sequence(move));
    Pipelines.ShapedNext(cfg, s, Sequence(move));
    SequencerCloser(s.seqr);
    SequenceFrame(s.seqr, move);
    if s'.seqr.ring.write == s.seqr.ring.write {
      LagStays(s, s', |s.pcs|);
    }
  }

  lemma {:induction false} DeliveryStep(cfg: Config, s: Pipe) returns (step: PipeStep)
    requires Pipelines.Inv(cfg, s) && s.phase == 0 && !Through(s.seqr)
    ensures Delivers(cfg, s, step)
  {
    var ring := s.seqr.ring;
    if c :| 0 <= c < |s.pcs| && Behind(s, c) > 0 && InFlight(ring, s.seqr.pc).Some? {
      step := ConsumerMove(s, c);
      LaggardDelivers(cfg, s, c);
    } else {
      step := Sequence(SequencerMove(s.seqr));
      if InFlight(ring, s.seqr.pc).Some? {
        forall c | 0 <= c < |ring.cursors| ensures ring.write - ring.cursors[c] <= 0 {
          assert Behind(s, c) <= 0;
        }
        AllCaughtUp(ring);
      }
      SequencerDelivers(cfg, s);
    }
  }

  lemma SamePushesOn(s: Sequencer, s': Sequencer, s'': Sequencer)
    requires SamePushes(s, s') && SamePushes(s', s'')
    ensures SamePushes(s, s'')
  {
  }

  /** A schedule that publishes everything in the queues. */
  lemma {:induction false} PublishAll(cfg: Config, s: Pipe) returns (more: seq<PipeStep>)
    requires Pipelines.Inv(cfg, s) && s.phase == 0
    ensures var s' := Resume(cfg, s, more);
            Pipelines.Inv(cfg, s') && s'.phase == 0 && Through(s'.seqr) && SamePushes(s.seqr, s'.seqr)
    decreases ToPublish(s).0, ToPublish(s).1, ToPublish(s).2, ToPublish(s).3, ToPublish(s).4
  {
    PublishPositive(cfg, s);
    if Through(s.seqr) {
      more := [];
    } else {
      var step := DeliveryStep(cfg, s);
      NextKeeps(cfg, s, step);
      var s1 := Pipelines.Next(cfg, s, step);
      var rest := PublishAll(cfg, s1);
      more := [step] + rest;
      assert more[1..] == rest;
      SamePushesOn(s.seqr, s1.seqr, Resume(cfg, s1, rest).seqr);
    }
  }

  // ---------- handling everything ----------

  /** What consumer c has ahead until it has handled the whole stream. */
  function ToHandle(s: Pipe, c: nat): nat
    requires Pipelines.Shaped(s) && c < |s.pcs|
  {
    if Behind(s, c) > 0 then LagOf(s, c) else if Returning(s.seqr.ring.readers[c]) then 1 else 0
  }

  predicate Returning(reader: ReaderPc<Event>) {
    reader.RReturn? && reader.got.Some?
  }

  lemma {:induction false} TakesLast(cfg: Config, s: Pipe, c: nat)
    requires Pipelines.Shaped(s) && c < |s.pcs| && LoopOk(s, c) && Behind(s, c) <= 0 && Returning(s.seqr.ring.readers[c])
    ensures var s' := Pipelines.Next(cfg, s, ConsumerMove(s, c));
            Pipelines.Shaped(s') && c < |s'.pcs| && ToHandle(s', c) == 0
  {
    Pipelines.ShapedNext(cfg, s, ConsumerMove(s, c));
  }

  /** A consumer's move brings it closer to having handled everything and leaves the other one alone. */
  lemma {:induction false} HandlingStep(cfg: Config, s: Pipe, c: nat, d: nat)
    requires Pipelines.Inv(cfg, s) && s.phase == 0 && c < |s.pcs| && d < |s.pcs| && d != c && ToHandle(s, c) > 0
    ensures var s' := Pipelines.Next(cfg, s, ConsumerMove(s, c));
            && Pipelines.Shaped(s') && |s'.pcs| == |s.pcs| && s'.phase == 0
            && ToHandle(s', c) < ToHandle(s, c) && ToHandle(s', d) == ToHandle(s, d)
            && SamePushes(s.seqr, s'.seqr) && (Through(s'.seqr) <==> Through(s.seqr))
  {
    assert LoopOk(s, c) && CursorOk(s.seqr.ring, c) && ReaderOk(s.seqr.ring, c);
    var s' := Pipelines.Next(cfg, s, ConsumerMove(s, c));
    ConsumerFrame(cfg, s, c);
    SamePlace(s.seqr, s'.seqr);
    if Behind(s, c) > 0 {
      ConsumerCatchesUp(cfg, s, c);
      LagMeans(s, c);
    } else {
      TakesLast(cfg, s, c);
    }
  }

  lemma LagMeans(s: Pipe, c: nat)
    requires Pipelines.Shaped(s) && c < |s.pcs|
    ensures Behind(s, c) > 0 ==> LagOf(s, c) >= 9
  {
  }

  /** A schedule that has matcher and log handle everything published. */
  lemma {:induction false} HandleAll(cfg: Config, s: Pipe) returns (more: seq<PipeStep>)
    requires Pipelines.Inv(cfg, s) && s.phase == 0 && Through(s.seqr)
    ensures var s' := Resume(cfg, s, more);
            && Pipelines.Inv(cfg, s') && s'.phase == 0 && Through(s'.seqr) && SamePushes(s.seqr, s'.seqr)
            && ToHandle(s', MATCHER) == 0 && ToHandle(s', LOG) == 0
    decreases ToHandle(s, MATCHER) + ToHandle(s, LOG)
  {
    if ToHandle(s, MATCHER) == 0 && ToHandle(s, LOG) == 0 {
      more := [];
    } else {
      var c, d := if ToHandle(s, MATCHER) > 0 then MATCHER else LOG, if ToHandle(s, MATCHER) > 0 then LOG else MATCHER;
      var step := ConsumerMove(s, c);
      HandlingStep(cfg, s, c, d);
      NextKeeps(cfg, s, step);
      var s1 := Pipelines.Next(cfg, s, step);
      var rest := HandleAll(cfg, s1);
      more := [step] + rest;
      assert more[1..] == rest;
      SamePushesOn(s.seqr, s1.seqr, Resume(cfg, s1, rest).seqr);
    }
  }

  lemma {:induction false} DeliverAll(cfg: Config, s: Pipe) returns (more: seq<PipeStep>)
    requires Pipelines.Inv(cfg, s) && s.phase == 0
    ensures var s' := Resume(cfg, s, more);
            && Pipelines.Inv(cfg, s') && s'.phase == 0 && Through(s'.seqr) && SamePushes(s.seqr, s'.seqr)
            && ToHandle(s', MATCHER) == 0 && ToHandle(s', LOG) == 0
  {
    var first := PublishAll(cfg, s);
    var s1 := Resume(cfg, s, first);
    var second := HandleAll(cfg, s1);
    more := first + second;
    ResumeMore(cfg, s, first, second);
    SamePushesOn(s.seqr, s1.seqr, Resume(cfg, s1, second).seqr);
  }

  /** A consumer with nothing ahead has handled the whole stream. */
  lemma {:induction false} AllHandled(cfg: Config, s: Pipe, c: nat)
    requires Pipelines.Inv(cfg, s) && c < |s.pcs| && ToHandle(s, c) == 0
    ensures Handled(s, c) == s.seqr.ring.published
  {
    var ring := s.seqr.ring;
    assert CursorOk(ring, c);
    LagMeans(s, c);
    assert ring.published[..ring.cursors[c]] == ring.published;
  }

  /** A sequencer that is through has popped and published everything pushed. */
  lemma {:induction false} ThroughMeans(s: Sequencer)
    requires Sequencers.Inv(s) && Through(s)
    ensures forall p :: 0 <= p < PRODUCERS ==>
              s.queues[p].popped == s.queues[p].pushed && From(s.ring.published, p) == Requests(s.queues[p].pushed)
    ensures |s.ring.published| == |s.queues[0].pushed| + |s.queues[1].pushed| + |s.queues[2].pushed|
  {
    BacklogPositive(s);
    forall p | 0 <= p < PRODUCERS
      ensures s.queues[p].popped == s.queues[p].pushed && From(s.ring.published, p) == Requests(s.queues[p].pushed)
    {
      var q := s.queues[p];
      assert QueueOk(s.ring, s.pc, q, p);
      assert Waiting(q) == 0;
      assert q.pushed[..|q.pushed|] == q.pushed;
      assert Held(s.ring, s.pc, q, p) == [];
    }
    FromCounts(s.ring.published);
  }

  /**
   From every state that any schedule reaches before the shutdown begins, some continuation, with
   no further push, publishes every event pushed so far, each producer's in order, and has the
   matching engine and the log handle all of them.
   */
  lemma {:induction false} EverythingDelivered(cfg: Config, steps: seq<PipeStep>) returns (more: seq<PipeStep>)
    requires Sized(cfg) && Pipelines.Exec(cfg, steps).phase == 0
    ensures var before, s := Pipelines.Exec(cfg, steps).seqr, Pipelines.Exec(cfg, steps + more);
            && s.phase == 0
            && (forall p :: 0 <= p < PRODUCERS ==> From(s.seqr.ring.published, p) == Requests(before.queues[p].pushed))
            && |s.seqr.ring.published|
               == |before.queues[0].pushed| + |before.queues[1].pushed| + |before.queues[2].pushed|
            && Outcome(s.engine, s.acks) == Run(cfg.poolCapacity, s.seqr.ring.published)
            && s.wal.log == s.seqr.ring.published
  {
    var s := Pipelines.Exec(cfg, steps);
    Pipelines.ExecKeepsInv(cfg, steps);
    more := DeliverAll(cfg, s);
    ResumeExec(cfg, steps, more);
    var s' := Resume(cfg, s, more);
    ThroughMeans(s'.seqr);
    AllHandled(cfg, s', MATCHER);
    AllHandled(cfg, s', LOG);
  }
}
