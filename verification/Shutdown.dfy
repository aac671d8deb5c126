/**
 That the shutdown of src/gateway_main.cpp can always be completed: from every state the pipeline
 can be in, some schedule has the main thread join everyone. The proof gives such a schedule,
 step by step, with a measure that each step lowers.
 */
module Shutdowns {
  import opened Engines
  import opened RingProtocol
  import opened Sequencers
  import opened Pipelines

  /** Going on from a state by a schedule of steps. */
  function Resume(cfg: Config, s: Pipe, steps: seq<PipeStep>): (s': Pipe)
    requires Pipelines.Shaped(s)
    ensures Pipelines.Shaped(s')
    decreases |steps|
  {
    if steps == [] then s
    else
      Pipelines.ShapedNext(cfg, s, steps[0]);
      Resume(cfg, Pipelines.Next(cfg, s, steps[0]), steps[1..])
  }

  lemma {:induction false} ResumeExec(cfg: Config, steps: seq<PipeStep>, more: seq<PipeStep>)
    requires Sized(cfg)
    ensures Pipelines.Exec(cfg, steps + more) == Resume(cfg, Pipelines.Exec(cfg, steps), more)
    decreases |more|
  {
    if more == [] {
      assert steps + more == steps;
    } else {
      var first := steps + [more[0]];
      assert first[..|steps|] == steps;
      assert steps + more == first + more[1..];
      ResumeExec(cfg, first, more[1..]);
    }
  }

  // ---------- what is left to do ----------

  /** Phases of the shutdown still ahead. */
  function PhasesLeft(s: Pipe): int {
    2 + 2 * |s.pcs| - s.phase
  }

  /** How much of its current round the sequencer has ahead before it tests the flag again. */
  function RoundLeft(ring: Ring<Event>, pc: Pc): int {
    match pc
    case Stopped => 0
    case Check => 1
    case Drain(p, i) => 3 * Ahead(p, i) + 2
    case Popping(p, i) => 3 * Ahead(p, i) + 2
    case Stamped(p, i, _) => 3 * Ahead(p, i) + 1
    case Spinning(p, i, _) => 3 * Ahead(p, i) + if ring.writer == WReturn(true) then 0 else 1
  }

  function Ahead(p: nat, i: nat): int {
    (PRODUCERS - p) * (BATCH + 1) + BATCH - i + 1
  }

  /** Moves left in a pop. */
  function PopLeft(q: Spsc.Queue<Event>): nat {
    match q.consumer
    case CLoaded(_) => 4
    case CCopy(_) => 3
    case CCommit(_, _) => 2
    case _ => 1
  }

  /** Moves left in a publish when every reader has caught up: a scan that began too early fails once. */
  function PublishLeft(ring: Ring<Event>): int {
    var n := |ring.cursors|;
    match ring.writer
    case WIdle => n + 5
    case WLoaded(_, _) => n + 4
    case WScan(_, w, i, min) =>
      if min.None? || w - min.value < |ring.slots| then 3 + n - i else n + 7 + n - i
    case WStore(_, _) => 2
    case WPublish(_, _) => 1
    case WReturn(ok) => if ok then 0 else n + 6
  }

  function MovesLeft(s: Sequencer): int {
    match s.pc
    case Drain(_, _) => 5
    case Popping(p, _) => if p < |s.queues| then PopLeft(s.queues[p]) else 0
    case Stamped(_, _, _) => PublishLeft(s.ring)
    case Spinning(_, _, _) => PublishLeft(s.ring)
    case _ => 0
  }

  /** Moves until a reader that is behind has consumed one more event. */
  function TurnLeft(pc: ConsumerPc, reader: ReaderPc<Event>): nat {
    match reader
    case RCommit(_, _) => 1
    case RCopy(_) => 2
    case RLoaded(_) => 3
    case RReturn(got) => if got.Some? then 7 else 6
    case RIdle => if pc.Test? then 5 else if pc == Chunk(CHUNK) then 6 else 4
  }

  function Behind(s: Pipe, c: nat): int
    requires Pipelines.Shaped(s) && c < |s.pcs|
  {
    s.seqr.ring.write - s.seqr.ring.cursors[c]
  }

  function LagOf(s: Pipe, c: nat): int
    requires Pipelines.Shaped(s) && c < |s.pcs|
  {
    if Behind(s, c) <= 0 then 0 else 8 * Behind(s, c) + TurnLeft(s.pcs[c], s.seqr.ring.readers[c])
  }

  function LagUpTo(s: Pipe, n: nat): (lag: int)
    requires Pipelines.Shaped(s) && n <= |s.pcs|
    ensures lag >= 0
  {
    if n == 0 then 0 else LagUpTo(s, n - 1) + LagOf(s, n - 1)
  }

  /** Where a consumer that was told to stop stands on its way out. */
  function StageLeft(pc: ConsumerPc): nat {
    match pc
    case Joined => 0
    case FinalDrain => 1
    case Test => 2
    case Chunk(_) => 3
  }

  function ExitTurnLeft(reader: ReaderPc<Event>): nat {
    match reader
    case RReturn(got) => if got.Some? then 5 else 0
    case RCommit(_, _) => 1
    case RCopy(_) => 2
    case RLoaded(_) => 3
    case RIdle => 4
  }

  /** What a consumer on its way out still has to read, and moves of the read it is in. */
  function ExitLeft(s: Pipe, c: nat): int
    requires Pipelines.Shaped(s) && c < |s.pcs|
  {
    8 * Behind(s, c) + ExitTurnLeft(s.seqr.ring.readers[c])
  }

  /** The consumer the main thread is waiting for, once the sequencer has been joined. */
  function Leaving(s: Pipe): nat
    requires s.phase >= 2
  {
    (s.phase - 2) / 2
  }

  /** The measure: phases, then rounds or stages, then how far readers are behind, then moves. */
  function Measure(s: Pipe): (int, int, int, int)
    requires Pipelines.Shaped(s)
  {
    if s.phase < 2 then (PhasesLeft(s), RoundLeft(s.seqr.ring, s.seqr.pc), LagUpTo(s, |s.pcs|), MovesLeft(s.seqr))
    else if Leaving(s) < |s.pcs| then
      var c := Leaving(s);
      (PhasesLeft(s), StageLeft(s.pcs[c]), ExitLeft(s, c), 0)
    else (PhasesLeft(s), 0, 0, 0)
  }

  predicate Less(a: (int, int, int, int), b: (int, int, int, int)) {
    || a.0 < b.0
    || (a.0 == b.0 && a.1 < b.1)
    || (a.0 == b.0 && a.1 == b.1 && a.2 < b.2)
    || (a.0 == b.0 && a.1 == b.1 && a.2 == b.2 && a.3 < b.3)
  }

  ghost predicate Positive(m: (int, int, int, int)) {
    m.0 >= 0 && m.1 >= 0 && m.2 >= 0 && m.3 >= 0
  }

  // ---------- consumers ----------

  /** The next move of a consumer's loop. */
  function ConsumerMove(s: Pipe, c: nat): PipeStep
    requires Pipelines.Shaped(s) && c < |s.pcs|
  {
    if s.pcs[c].Test? || s.pcs[c].Joined? then LoadFlag(c)
    else if s.pcs[c] == Chunk(CHUNK) then EndChunk(c, 0, 0)
    else if s.seqr.ring.readers[c].RIdle? then CallConsume(c)
    else if s.seqr.ring.readers[c].RReturn? then TakeEvent(c, 0, 0)
    else MoveConsume(c)
  }

  /** Everything a consumer's move leaves alone. */
  ghost predicate OnlyMoves(s: Pipe, s': Pipe, c: nat)
    requires Pipelines.Shaped(s)
  {
    && Pipelines.Shaped(s') && |s'.pcs| == |s.pcs| && s'.phase == s.phase
    && s'.seqr.pc == s.seqr.pc && s'.seqr.queues == s.seqr.queues
    && s'.seqr.ring.write == s.seqr.ring.write && s'.seqr.ring.writer == s.seqr.ring.writer
    && |s'.seqr.ring.slots| == |s.seqr.ring.slots|
    && forall d :: 0 <= d < |s.pcs| && d != c ==>
         && s'.pcs[d] == s.pcs[d]
         && s'.seqr.ring.readers[d] == s.seqr.ring.readers[d]
         && s'.seqr.ring.cursors[d] == s.seqr.ring.cursors[d]
  }

  lemma {:induction false} ReadMoves(s: Pipe, step: Step<Event>, c: nat)
    requires Pipelines.Shaped(s) && (step == Consume(c) || step == ReaderMove(c) || step == ReaderDone(c))
    ensures OnlyMoves(s, OnRing(s, step), c)
  {
    Sequencers.ShapedNext(s.seqr, Reader(step));
  }

  lemma {:induction false} TakeMoves(cfg: Config, s: Pipe, c: nat)
    requires Pipelines.Shaped(s) && c < |s.pcs| && s.seqr.ring.readers[c].RReturn? && Calling(s.pcs[c])
    ensures OnlyMoves(s, Take(cfg, s, c, 0, 0), c)
  {
    ReadMoves(s, ReaderDone(c), c);
    assert Take(cfg, s, c, 0, 0).seqr == OnRing(s, ReaderDone(c)).seqr;
  }

  /** A consumer's move touches that consumer only. */
  lemma {:induction false} ConsumerFrame(cfg: Config, s: Pipe, c: nat)
    requires Pipelines.Shaped(s) && c < |s.pcs|
    ensures OnlyMoves(s, Pipelines.Next(cfg, s, ConsumerMove(s, c)), c)
  {
    match ConsumerMove(s, c)
    case CallConsume(_) => ReadMoves(s, Consume(c), c);
    case MoveConsume(_) => ReadMoves(s, ReaderMove(c), c);
    case TakeEvent(_, _, _) => if Calling(s.pcs[c]) { TakeMoves(cfg, s, c); }
    case _ =>
  }

  /** While it is running and behind, a consumer comes closer to the end of the stream. */
  lemma {:induction false} ConsumerCatchesUp(cfg: Config, s: Pipe, c: nat)
    requires Pipelines.Shaped(s) && c < |s.pcs| && LoopOk(s, c) && CursorOk(s.seqr.ring, c) && ReaderOk(s.seqr.ring, c)
    requires s.running[c] && Behind(s, c) > 0
    ensures var s' := Pipelines.Next(cfg, s, ConsumerMove(s, c));
            Pipelines.Shaped(s') && c < |s'.pcs| && LagOf(s', c) < LagOf(s, c)
  {
    Pipelines.ShapedNext(cfg, s, ConsumerMove(s, c));
  }

  ghost predicate Leaves(s: Pipe, s': Pipe, c: nat) {
    && Pipelines.Shaped(s) && Pipelines.Shaped(s') && c < |s.pcs| && c < |s'.pcs|
    && (|| StageLeft(s'.pcs[c]) < StageLeft(s.pcs[c])
        || (StageLeft(s'.pcs[c]) == StageLeft(s.pcs[c]) && ExitLeft(s', c) < ExitLeft(s, c)))
  }

  lemma {:induction false} TakeLeaves(cfg: Config, s: Pipe, c: nat)
    requires Pipelines.Shaped(s) && c < |s.pcs| && s.seqr.ring.readers[c].RReturn? && Calling(s.pcs[c])
    ensures Leaves(s, Take(cfg, s, c, 0, 0), c)
  {
    TakeMoves(cfg, s, c);
  }

  lemma {:induction false} ReadLeaves(s: Pipe, c: nat)
    requires Pipelines.Shaped(s) && c < |s.pcs| && CursorOk(s.seqr.ring, c) && ReaderOk(s.seqr.ring, c)
    requires !s.seqr.ring.readers[c].RReturn?
    ensures Leaves(s, OnRing(s, if s.seqr.ring.readers[c].RIdle? then Consume(c) else ReaderMove(c)), c)
  {
    Sequencers.ShapedNext(s.seqr, Reader(if s.seqr.ring.readers[c].RIdle? then Consume(c) else ReaderMove(c)));
  }

  /** Told to stop, a consumer comes closer to its exit. */
  lemma {:induction false} ConsumerLeaves(cfg: Config, s: Pipe, c: nat)
    requires Pipelines.Shaped(s) && c < |s.pcs| && LoopOk(s, c) && CursorOk(s.seqr.ring, c) && ReaderOk(s.seqr.ring, c)
    requires !s.running[c] && !s.pcs[c].Joined?
    ensures Leaves(s, Pipelines.Next(cfg, s, ConsumerMove(s, c)), c)
  {
    match ConsumerMove(s, c)
    case CallConsume(_) => ReadLeaves(s, c);
    case MoveConsume(_) => ReadLeaves(s, c);
    case TakeEvent(_, _, _) => TakeLeaves(cfg, s, c);
    case _ =>
  }

  lemma {:induction false} LagDrops(s: Pipe, s': Pipe, c: nat, n: nat)
    requires Pipelines.Shaped(s) && Pipelines.Shaped(s') && |s.pcs| == |s'.pcs| && n <= |s.pcs| && c < |s.pcs|
    requires forall d :: 0 <= d < |s.pcs| && d != c ==> LagOf(s', d) == LagOf(s, d)
    requires LagOf(s', c) < LagOf(s, c)
    ensures c < n ==> LagUpTo(s', n) < LagUpTo(s, n)
    ensures c >= n ==> LagUpTo(s', n) == LagUpTo(s, n)
  {
    if n == 0 {
    } else {
      LagDrops(s, s', c, n - 1);
    }
  }

  lemma {:induction false} LagStays(s: Pipe, s': Pipe, n: nat)
    requires Pipelines.Shaped(s) && Pipelines.Shaped(s') && |s.pcs| == |s'.pcs| && n <= |s.pcs|
    requires s'.pcs == s.pcs && s'.seqr.ring.readers == s.seqr.ring.readers
    requires s'.seqr.ring.cursors == s.seqr.ring.cursors && s'.seqr.ring.write == s.seqr.ring.write
    ensures LagUpTo(s', n) == LagUpTo(s, n)
  {
    if n == 0 {
    } else {
      LagStays(s, s', n - 1);
    }
  }

  // ---------- the sequencer ----------

  /** The next move of the sequencer. */
  function SequencerMove(s: Sequencer): SeqStep
    requires Sequencers.Shaped(s)
  {
    match s.pc
    case Drain(_, _) => DrainNext
    case Popping(p, _) => if p < PRODUCERS && s.queues[p].consumer.CReturn? then TakePop(0) else MovePop
    case Stamped(_, _, _) => BeginPublish
    case Spinning(_, _, _) => if s.ring.writer.WReturn? then TakeResult else MovePublish
    case _ => LoadRunning
  }

  ghost predicate CaughtUp(ring: Ring<Event>) {
    forall c :: 0 <= c < |ring.cursors| ==> ring.cursors[c] == ring.write
  }

  /** With every reader caught up, a publish comes closer to its end. */
  lemma {:induction false} PublishAdvances(ring: Ring<Event>)
    requires RingProtocol.Inv(ring) && CaughtUp(ring) && !ring.writer.WIdle? && !ring.writer.WReturn?
    ensures var ring' := RingProtocol.Next(ring, WriterMove);
            && ring'.readers == ring.readers && ring'.cursors == ring.cursors && |ring'.slots| == |ring.slots|
            && (if ring.writer.WPublish? then ring'.writer == WReturn(true)
                else ring'.writer != WReturn(true) && ring'.write == ring.write && PublishLeft(ring') < PublishLeft(ring))
  {
    assert WriterOk(ring);
  }

  lemma {:induction false} PopAdvances(q: Spsc.Queue<Event>)
    requires Spsc.Inv(q) && (q.consumer.CLoaded? || q.consumer.CCopy? || q.consumer.CCommit?)
    ensures PopLeft(Spsc.Next(q, Spsc.ConsumerMove)) < PopLeft(q)
  {
  }

  /** Between events, the sequencer comes closer to testing its flag, and from there it stops. */
  lemma {:induction false} SequencerDrains(s: Sequencer)
    requires Sequencers.Inv(s) && Sequencers.Shaped(s) && !s.running
    requires s.pc.Check? || s.pc.Drain? || s.pc.Popping?
    ensures var s' := Sequencers.Next(s, SequencerMove(s));
            && s'.ring == s.ring
            && (|| RoundLeft(s'.ring, s'.pc) < RoundLeft(s.ring, s.pc)
                || (RoundLeft(s'.ring, s'.pc) == RoundLeft(s.ring, s.pc) && MovesLeft(s') < MovesLeft(s)))
  {
    if s.pc.Popping? {
      var p := s.pc.p;
      assert QueueOk(s.ring, s.pc, s.queues[p], p);
      if !s.queues[p].consumer.CReturn? {
        PopAdvances(s.queues[p]);
      }
    } else if s.pc.Drain? && s.pc.p < PRODUCERS {
      assert QueueOk(s.ring, s.pc, s.queues[s.pc.p], s.pc.p);
    }
  }

  /** With an event in hand and every reader caught up, it comes closer to having published it. */
  lemma {:induction false} SequencerPublishes(s: Sequencer)
    requires Sequencers.Inv(s) && Sequencers.Shaped(s) && (s.pc.Stamped? || s.pc.Spinning?)
    requires InFlight(s.ring, s.pc).Some? ==> CaughtUp(s.ring)
    ensures var s' := Sequencers.Next(s, SequencerMove(s));
            && s'.ring.readers == s.ring.readers && s'.ring.cursors == s.ring.cursors
            && (|| RoundLeft(s'.ring, s'.pc) < RoundLeft(s.ring, s.pc)
                || (&& RoundLeft(s'.ring, s'.pc) == RoundLeft(s.ring, s.pc) && s'.ring.write == s.ring.write
                    && MovesLeft(s') < MovesLeft(s)))
  {
    if s.pc.Spinning? && !s.ring.writer.WReturn? {
      PublishAdvances(s.ring);
    }
  }

  // ---------- every state has a step that lowers the measure ----------

  ghost predicate Lowers(cfg: Config, s: Pipe, step: PipeStep)
    requires Pipelines.Shaped(s)
  {
    && Pipelines.Shaped(Pipelines.Next(cfg, s, step))
    && Less(Measure(Pipelines.Next(cfg, s, step)), Measure(s))
  }

  /** A reader that is behind while the sequencer holds an event. */
  lemma {:induction false} LaggardLowers(cfg: Config, s: Pipe, c: nat)
    requires Pipelines.Inv(cfg, s) && s.phase == 1 && c < |s.pcs| && Behind(s, c) > 0
    ensures Lowers(cfg, s, ConsumerMove(s, c))
  {
    var s' := Pipelines.Next(cfg, s, ConsumerMove(s, c));
    assert LoopOk(s, c) && CursorOk(s.seqr.ring, c) && ReaderOk(s.seqr.ring, c);
    ConsumerFrame(cfg, s, c);
    ConsumerCatchesUp(cfg, s, c);
    LagDrops(s, s', c, |s.pcs|);
  }

  lemma {:induction false} SequencerLowers(cfg: Config, s: Pipe)
    requires Pipelines.Inv(cfg, s) && s.phase == 1 && !s.seqr.pc.Stopped?
    requires InFlight(s.seqr.ring, s.seqr.pc).Some? ==> CaughtUp(s.seqr.ring)
    ensures Lowers(cfg, s, Sequence(SequencerMove(s.seqr)))
  {
    var step := Sequence(SequencerMove(s.seqr));
    var s' := Pipelines.Next(cfg, s, step);
    Pipelines.ShapedNext(cfg, s, step);
    if s.seqr.pc.Stamped? || s.seqr.pc.Spinning? {
      SequencerPublishes(s.seqr);
    } else {
      SequencerDrains(s.seqr);
    }
    if s'.seqr.ring.write == s.seqr.ring.write {
      LagStays(s, s', |s.pcs|);
    }
  }

  lemma {:induction false} AllCaughtUp(ring: Ring<Event>)
    requires RingProtocol.Inv(ring) && forall c :: 0 <= c < |ring.cursors| ==> ring.write - ring.cursors[c] <= 0
    ensures CaughtUp(ring)
  {
    forall c | 0 <= c < |ring.cursors| ensures ring.cursors[c] == ring.write {
      assert CursorOk(ring, c);
    }
  }

  lemma {:induction false} StoppingLowers(cfg: Config, s: Pipe) returns (step: PipeStep)
    requires Pipelines.Inv(cfg, s) && s.phase == 1 && !s.seqr.pc.Stopped?
    ensures Lowers(cfg, s, step)
  {
    var ring := s.seqr.ring;
    if c :| 0 <= c < |s.pcs| && Behind(s, c) > 0 && InFlight(ring, s.seqr.pc).Some? {
      step := ConsumerMove(s, c);
      LaggardLowers(cfg, s, c);
    } else {
      step := Sequence(SequencerMove(s.seqr));
      if InFlight(ring, s.seqr.pc).Some? {
        forall c | 0 <= c < |ring.cursors| ensures ring.write - ring.cursors[c] <= 0 {
          assert Behind(s, c) <= 0;
        }
        AllCaughtUp(ring);
      }
      SequencerLowers(cfg, s);
    }
  }

  lemma {:induction false} LeavingLowers(cfg: Config, s: Pipe)
    requires Pipelines.Inv(cfg, s) && s.phase >= 2 && s.phase % 2 == 1 && PhasesLeft(s) > 0
    requires !s.pcs[Leaving(s)].Joined?
    ensures Lowers(cfg, s, ConsumerMove(s, Leaving(s)))
  {
    var c := Leaving(s);
    assert LoopOk(s, c) && CursorOk(s.seqr.ring, c) && ReaderOk(s.seqr.ring, c);
    ConsumerFrame(cfg, s, c);
    ConsumerLeaves(cfg, s, c);
  }

  lemma {:induction false} PhaseLowers(cfg: Config, s: Pipe)
    requires Pipelines.Shaped(s) && ShutdownStep(s).phase > s.phase
    ensures Lowers(cfg, s, Shutdown)
  {
    Pipelines.ShapedNext(cfg, s, Shutdown);
  }

  lemma {:induction false} Progress(cfg: Config, s: Pipe) returns (step: PipeStep)
    requires Pipelines.Inv(cfg, s) && PhasesLeft(s) > 0
    ensures Lowers(cfg, s, step)
  {
    if s.phase == 1 && !s.seqr.pc.Stopped? {
      step := StoppingLowers(cfg, s);
    } else if s.phase >= 2 && s.phase % 2 == 1 && !s.pcs[Leaving(s)].Joined? {
      step := ConsumerMove(s, Leaving(s));
      LeavingLowers(cfg, s);
    } else {
      step := Shutdown;
      PhaseLowers(cfg, s);
    }
  }

  lemma {:induction false} MeasurePositive(cfg: Config, s: Pipe)
    requires Pipelines.Inv(cfg, s)
    ensures Positive(Measure(s))
  {
    assert WriterOk(s.seqr.ring);
    if s.phase >= 2 && Leaving(s) < |s.pcs| {
      assert CursorOk(s.seqr.ring, Leaving(s));
    }
  }

  /** From any state of the invariant, a schedule that completes the shutdown. */
  lemma {:induction false} Complete(cfg: Config, s: Pipe) returns (more: seq<PipeStep>)
    requires Pipelines.Inv(cfg, s)
    ensures PhasesLeft(Resume(cfg, s, more)) == 0
    decreases Measure(s).0, Measure(s).1, Measure(s).2, Measure(s).3
  {
    MeasurePositive(cfg, s);
    if PhasesLeft(s) == 0 {
      more := [];
    } else {
      var step := Progress(cfg, s);
      NextKeeps(cfg, s, step);
      var rest := Complete(cfg, Pipelines.Next(cfg, s, step));
      more := [step] + rest;
      assert more[1..] == rest;
    }
  }

  /**
   From every state that any schedule reaches, some continuation has the main thread join the
   sequencer and every consumer, with the whole stream handled and durable.
   */
  lemma {:induction false} ShutdownCompletes(cfg: Config, steps: seq<PipeStep>) returns (more: seq<PipeStep>)
    requires Sized(cfg)
    ensures var s := Pipelines.Exec(cfg, steps + more);
            && s.phase == 2 + 2 * |s.pcs|
            && Outcome(s.engine, s.acks) == Run(cfg.poolCapacity, s.seqr.ring.published)
            && s.wal.log == s.seqr.ring.published && s.wal.durable == |s.seqr.ring.published|
  {
    Pipelines.ExecKeepsInv(cfg, steps);
    more := Complete(cfg, Pipelines.Exec(cfg, steps));
    ResumeExec(cfg, steps, more);
    ShutdownDrainsEverything(cfg, steps + more);
  }
}
