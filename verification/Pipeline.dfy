/**
 The whole pipeline: sequencer, broadcast ring, the matching engine and the write-ahead log
 as its first two consumers (any further ones only read), and the main thread that shuts
 everything down in order (src/gateway_main.cpp). Every thread moves one atomic step at a
 time, in any interleaving.
 */
module Pipelines {
  import opened Types
  import opened Engines
  import EngineLaws
  import opened RingProtocol
  import opened Sequencers
  import opened Wals

  const MATCHER: nat := 0
  const LOG: nat := 1
  const CHUNK: nat := 32

  /** A consumer's run loop: test the flag, drain up to a chunk, and after the flag drops drain to the end. */
  datatype ConsumerPc = Test | Chunk(i: nat) | FinalDrain | Joined

  /** `phase` counts the main thread's shutdown: 0 running, 1 sequencer told to stop, 2 sequencer joined, ... */
  datatype Pipe = Pipe(seqr: Sequencer, pcs: seq<ConsumerPc>, running: seq<bool>,
                       engine: Engine, acks: seq<Ack>, wal: Wal, phase: nat)

  datatype Config = Config(ringCapacity: nat, consumers: nat, queueCapacity: nat, poolCapacity: nat,
                           policy: Policy, blank: Event, t0: int)

  /** The capacities the threads are started with. */
  predicate Sized(cfg: Config) {
    cfg.ringCapacity > 0 && cfg.queueCapacity > 0 && cfg.consumers >= 2
  }

  datatype PipeStep =
    | Sequence(step: SeqStep)                       // the sequencer or one of its producers
    | LoadFlag(c: nat)                              // consumer c tests its running flag
    | CallConsume(c: nat)                           // consumer c enters try_consume
    | MoveConsume(c: nat)                           // its next load or store on the ring
    | TakeEvent(c: nat, now: int, done: int)        // it takes the result, handling an event or ending its chunk
    | EndChunk(c: nat, now: int, done: int)         // it has drained a full chunk
    | Shutdown                                      // the main thread's next action, once possible

  predicate Shaped(s: Pipe) {
    Sequencers.Shaped(s.seqr) && |s.pcs| == |s.running| == |s.seqr.ring.cursors| && |s.pcs| >= 2
  }

  function OnRing(s: Pipe, step: Step<Event>): Pipe
    requires Shaped(s)
  {
    s.(seqr := Sequencers.Next(s.seqr, Reader(step)))
  }

  function Handle(cfg: Config, s: Pipe, c: nat, ev: Event, now: int, done: int): Pipe {
    if c == MATCHER then
      var out := Apply(cfg.poolCapacity, s.engine, ev);
      s.(engine := out.engine, acks := s.acks + out.acks)
    else if c == LOG then s.(wal := Append(cfg.policy, s.wal, ev, now, done))
    else s
  }

  function Poll(cfg: Config, s: Pipe, c: nat, now: int, done: int): Pipe {
    if c == LOG then s.(wal := MaybeFsync(cfg.policy, s.wal, false, now, done)) else s
  }

  function Finish(cfg: Config, s: Pipe, c: nat, done: int): Pipe {
    if c == LOG then s.(wal := Close(cfg.policy, s.wal, done)) else s
  }

  function SetPc(s: Pipe, c: nat, pc: ConsumerPc): Pipe
    requires c < |s.pcs|
  {
    s.(pcs := s.pcs[c := pc])
  }

  predicate Calling(pc: ConsumerPc) {
    pc.FinalDrain? || (pc.Chunk? && pc.i < CHUNK)
  }

  function Take(cfg: Config, s: Pipe, c: nat, now: int, done: int): Pipe
    requires Shaped(s) && c < |s.pcs| && s.seqr.ring.readers[c].RReturn? && Calling(s.pcs[c])
  {
    var got := s.seqr.ring.readers[c].got;
    var s1 := OnRing(s, ReaderDone(c));
    if got.Some? then
      var s2 := Handle(cfg, s1, c, got.value, now, done);
      if s.pcs[c].Chunk? then SetPc(s2, c, Chunk(s.pcs[c].i + 1)) else s2
    else if s.pcs[c].Chunk? then SetPc(Poll(cfg, s1, c, now, done), c, Test)
    else SetPc(Finish(cfg, s1, c, done), c, Joined)
  }

  /** Stop the sequencer, join it, then stop and join each consumer in turn. */
  function ShutdownStep(s: Pipe): Pipe
    requires Shaped(s)
  {
    if s.phase == 0 then s.(seqr := Sequencers.Next(s.seqr, Stop), phase := 1)
    else if s.phase == 1 then if s.seqr.pc.Stopped? then s.(phase := 2) else s
    else
      var c := (s.phase - 2) / 2;
      if c >= |s.pcs| then s
      else if s.phase % 2 == 0 then s.(running := s.running[c := false], phase := s.phase + 1)
      else if s.pcs[c].Joined? then s.(phase := s.phase + 1) else s
  }

  function Next(cfg: Config, s: Pipe, step: PipeStep): Pipe
    requires Shaped(s)
  {
    match step
    case Sequence(q) => if q.Reader? || q.Stop? then s else s.(seqr := Sequencers.Next(s.seqr, q))
    case LoadFlag(c) =>
      if c < |s.pcs| && s.pcs[c].Test? then SetPc(s, c, if s.running[c] then Chunk(0) else FinalDrain) else s
    case CallConsume(c) => if c < |s.pcs| && Calling(s.pcs[c]) then OnRing(s, Consume(c)) else s
    case MoveConsume(c) => OnRing(s, ReaderMove(c))
    case TakeEvent(c, now, done) =>
      if c < |s.pcs| && s.seqr.ring.readers[c].RReturn? && Calling(s.pcs[c]) then Take(cfg, s, c, now, done) else s
    case EndChunk(c, now, done) =>
      if c < |s.pcs| && s.pcs[c] == Chunk(CHUNK) then SetPc(Poll(cfg, s, c, now, done), c, Test) else s
    case Shutdown => ShutdownStep(s)
  }

  /** All consumers are registered, and every thread started, before anything is published. */
  function Start(cfg: Config): (s: Pipe)
    requires Sized(cfg)
    ensures Shaped(s)
  {
    Pipe(Sequencers.Start(cfg.ringCapacity, cfg.consumers, cfg.queueCapacity, cfg.blank),
         seq(cfg.consumers, _ => Test), seq(cfg.consumers, _ => true),
         EMPTY, [], Wal([], 0, 0, cfg.t0, true), 0)
  }

  // ---------- the invariant ----------

  /** The events consumer c has handled: all it consumed but for one it is still returning. */
  function Handled(s: Pipe, c: nat): seq<Event>
    requires Shaped(s) && c < |s.pcs|
  {
    var ring := s.seqr.ring;
    if ring.readers[c].RReturn? && ring.readers[c].got.Some? && ring.consumed[c] != []
    then ring.consumed[c][..|ring.consumed[c]| - 1]
    else ring.consumed[c]
  }

  ghost predicate MatcherOk(cfg: Config, s: Pipe)
    requires Shaped(s)
  {
    Outcome(s.engine, s.acks) == Run(cfg.poolCapacity, Handled(s, MATCHER))
  }

  ghost predicate LogOk(cfg: Config, s: Pipe)
    requires Shaped(s)
  {
    && s.wal.log == Handled(s, LOG)
    && DurableOk(cfg.policy, s.wal)
    && (s.wal.isOpen <==> !s.pcs[LOG].Joined?)
    && (!s.wal.isOpen ==> s.wal.durable == |s.wal.log|)
  }

  ghost predicate LoopOk(s: Pipe, c: nat)
    requires Shaped(s) && c < |s.pcs|
  {
    var ring := s.seqr.ring;
    && (!Calling(s.pcs[c]) ==> ring.readers[c].RIdle?)
    && (s.running[c] <==> s.phase < 3 + 2 * c)
    && (s.pcs[c].FinalDrain? || s.pcs[c].Joined? ==> !s.running[c])
    && (s.pcs[c].FinalDrain? && ring.readers[c] == RReturn(None) ==> ring.consumed[c] == ring.published)
    && (s.pcs[c].Joined? ==> ring.consumed[c] == ring.published)
    && (s.phase >= 4 + 2 * c ==> s.pcs[c].Joined?)
    && (s.pcs[c].Chunk? ==> s.pcs[c].i <= CHUNK)
  }

  ghost predicate Inv(cfg: Config, s: Pipe) {
    && Shaped(s)
    && Sequencers.Inv(s.seqr)
    && (s.phase == 0 ==> s.seqr.running && !s.seqr.pc.Stopped?)
    && (s.phase >= 1 ==> !s.seqr.running)
    && (s.phase >= 2 ==> s.seqr.pc.Stopped?)
    && s.phase <= 2 + 2 * |s.pcs|
    && MatcherOk(cfg, s)
    && LogOk(cfg, s)
    && (forall c :: 0 <= c < |s.pcs| ==> LoopOk(s, c))
  }

  lemma {:induction false} StartInv(cfg: Config)
    requires Sized(cfg)
    ensures Inv(cfg, Start(cfg))
  {
    Sequencers.StartInv(cfg.ringCapacity, cfg.consumers, cfg.queueCapacity, cfg.blank);
  }

  // ---------- what each kind of step leaves alone ----------

  /** The sequencer and its producers touch no reader, only extend the stream, and not even that once stopped. */
  lemma SequenceFrame(s: Sequencer, q: SeqStep)
    requires Sequencers.Shaped(s) && !q.Reader?
    ensures var s' := Sequencers.Next(s, q);
            && s'.ring.readers == s.ring.readers && s'.ring.cursors == s.ring.cursors
            && s'.ring.consumed == s.ring.consumed && |s'.ring.slots| == |s.ring.slots|
            && (s.pc.Stopped? ==> s'.pc.Stopped? && s'.ring == s.ring)
            && (!s.running ==> !s'.running)
            && (s.running && !s.pc.Stopped? && !q.Stop? ==> s'.running && !s'.pc.Stopped?)
  {
  }

  /** A reader's step touches only that reader's variables. */
  lemma ReaderFrame(ring: Ring<Event>, step: Step<Event>, r: nat, c: nat)
    requires RingProtocol.Shaped(ring) && (step == Consume(r) || step == ReaderMove(r) || step == ReaderDone(r))
    requires c < |ring.readers|
    ensures var ring' := RingProtocol.Next(ring, step);
            && RingProtocol.Shaped(ring') && |ring'.readers| == |ring.readers|
            && ring'.published == ring.published && ring'.write == ring.write && ring'.writer == ring.writer
            && (c != r ==> ring'.readers[c] == ring.readers[c] && ring'.consumed[c] == ring.consumed[c])
  {
  }

  /** Moving one loop without touching what it consumed keeps the matcher and the log in step. */
  lemma LoopFramed(s: Pipe, s': Pipe, c: nat)
    requires Shaped(s) && Shaped(s') && |s'.pcs| == |s.pcs| && c < |s.pcs| && LoopOk(s, c)
    requires s'.pcs[c] == s.pcs[c] && s'.running[c] == s.running[c] && s'.phase == s.phase
    requires s'.seqr.ring.readers[c] == s.seqr.ring.readers[c]
    requires s'.seqr.ring.consumed[c] == s.seqr.ring.consumed[c]
    requires s.phase < 2 || s'.seqr.ring.published == s.seqr.ring.published
    ensures LoopOk(s', c)
    ensures Handled(s', c) == Handled(s, c)
  {
  }

  // ---------- each step keeps the invariant ----------

  lemma {:induction false} SequenceKeeps(cfg: Config, s: Pipe, q: SeqStep)
    requires Inv(cfg, s) && !q.Reader? && !q.Stop?
    ensures Inv(cfg, Next(cfg, s, Sequence(q)))
  {
    var s' := Next(cfg, s, Sequence(q));
    SeqKeepsInv(s.seqr, q);
    SequenceFrame(s.seqr, q);
    forall c | 0 <= c < |s.pcs| ensures LoopOk(s', c) {
      assert LoopOk(s, c);
      LoopFramed(s, s', c);
    }
    LoopFramed(s, s', MATCHER);
    LoopFramed(s, s', LOG);
  }

  lemma {:induction false} LoadFlagKeeps(cfg: Config, s: Pipe, c: nat)
    requires Inv(cfg, s) && c < |s.pcs| && s.pcs[c].Test?
    ensures Inv(cfg, Next(cfg, s, LoadFlag(c)))
  {
    var s' := Next(cfg, s, LoadFlag(c));
    forall d | 0 <= d < |s.pcs| ensures LoopOk(s', d) {
      assert LoopOk(s, d);
    }
    assert LoopOk(s, c);
  }

  lemma {:induction false} CallKeeps(cfg: Config, s: Pipe, c: nat)
    requires Inv(cfg, s) && c < |s.pcs| && Calling(s.pcs[c])
    ensures Inv(cfg, Next(cfg, s, CallConsume(c)))
  {
    var s' := Next(cfg, s, CallConsume(c));
    SeqKeepsInv(s.seqr, Reader(Consume(c)));
    forall d | 0 <= d < |s.pcs| ensures LoopOk(s', d) && Handled(s', d) == Handled(s, d) {
      assert LoopOk(s, d);
      ReaderFrame(s.seqr.ring, Consume(c), c, d);
    }
  }

  lemma {:induction false} MoveKeeps(cfg: Config, s: Pipe, c: nat)
    requires Inv(cfg, s)
    ensures Inv(cfg, Next(cfg, s, MoveConsume(c)))
  {
    var s' := Next(cfg, s, MoveConsume(c));
    var ring := s.seqr.ring;
    SeqKeepsInv(s.seqr, Reader(ReaderMove(c)));
    forall d | 0 <= d < |s.pcs| ensures LoopOk(s', d) && Handled(s', d) == Handled(s, d) {
      assert LoopOk(s, d);
      if c < |s.pcs| {
        ReaderFrame(ring, ReaderMove(c), c, d);
        if d == c {
          MoveOwn(s, c);
        }
      }
    }
  }

  lemma {:induction false} MoveOwn(s: Pipe, c: nat)
    requires Shaped(s) && RingProtocol.Inv(s.seqr.ring) && c < |s.pcs| && LoopOk(s, c)
    ensures var s' := OnRing(s, ReaderMove(c));
            Shaped(s') && LoopOk(s', c) && Handled(s', c) == Handled(s, c)
  {
    var ring := s.seqr.ring;
    assert CursorOk(ring, c) && ReaderOk(ring, c);
    if ring.readers[c].RLoaded? && ring.readers[c].c >= ring.write {
      assert ring.published[..ring.cursors[c]] == ring.published;
    } else if ring.readers[c].RCommit? {
      var out := ring.readers[c].out;
      assert (ring.consumed[c] + [out])[..|ring.consumed[c]|] == ring.consumed[c];
    }
  }

  /** Taking an event hands the handler exactly the next event of what the consumer consumed. */
  lemma {:induction false} TakeOwn(s: Pipe, c: nat)
    requires Shaped(s) && RingProtocol.Inv(s.seqr.ring) && c < |s.pcs| && LoopOk(s, c)
    requires s.seqr.ring.readers[c].RReturn?
    ensures var s', got := OnRing(s, ReaderDone(c)), s.seqr.ring.readers[c].got;
            && Shaped(s') && s'.seqr.ring.readers[c].RIdle?
            && s'.seqr.ring.consumed == s.seqr.ring.consumed && s'.seqr.ring.published == s.seqr.ring.published
            && Handled(s', c) == Handled(s, c) + if got.Some? then [got.value] else []
  {
    var ring := s.seqr.ring;
    assert ReaderOk(ring, c);
    if ring.readers[c].got.Some? {
      var n := |ring.consumed[c]| - 1;
      assert ring.consumed[c] == ring.consumed[c][..n] + [ring.consumed[c][n]];
    }
  }

  lemma {:induction false} TakeOtherLoop(cfg: Config, s: Pipe, c: nat, now: int, done: int, d: nat)
    requires Shaped(s) && c < |s.pcs| && s.seqr.ring.readers[c].RReturn? && Calling(s.pcs[c])
    requires d < |s.pcs| && d != c && LoopOk(s, d)
    ensures var s' := Take(cfg, s, c, now, done);
            && Shaped(s') && |s'.pcs| == |s.pcs| && s'.pcs[d] == s.pcs[d]
            && LoopOk(s', d) && Handled(s', d) == Handled(s, d)
  {
    ReaderFrame(s.seqr.ring, ReaderDone(c), c, d);
    LoopFramed(s, Take(cfg, s, c, now, done), d);
  }

  lemma {:induction false} TakeOwnLoop(cfg: Config, s: Pipe, c: nat, now: int, done: int)
    requires Shaped(s) && RingProtocol.Inv(s.seqr.ring) && c < |s.pcs| && LoopOk(s, c)
    requires s.seqr.ring.readers[c].RReturn? && Calling(s.pcs[c])
    ensures var s', got := Take(cfg, s, c, now, done), s.seqr.ring.readers[c].got;
            && Shaped(s') && LoopOk(s', c)
            && Handled(s', c) == Handled(s, c) + if got.Some? then [got.value] else []
  {
    TakeOwn(s, c);
  }

  lemma {:induction false} TakeLoop(cfg: Config, s: Pipe, c: nat, now: int, done: int, d: nat)
    requires Inv(cfg, s) && c < |s.pcs| && s.seqr.ring.readers[c].RReturn? && Calling(s.pcs[c]) && d < |s.pcs|
    ensures var s' := Take(cfg, s, c, now, done);
            Shaped(s') && |s'.pcs| == |s.pcs| && LoopOk(s', d)
  {
    assert LoopOk(s, c) && LoopOk(s, d);
    if d == c {
      TakeOwnLoop(cfg, s, c, now, done);
    } else {
      TakeOtherLoop(cfg, s, c, now, done, d);
    }
  }

  lemma {:induction false} TakeMatcher(cfg: Config, s: Pipe, c: nat, now: int, done: int)
    requires Inv(cfg, s) && c < |s.pcs| && s.seqr.ring.readers[c].RReturn? && Calling(s.pcs[c])
    ensures Shaped(Take(cfg, s, c, now, done)) && MatcherOk(cfg, Take(cfg, s, c, now, done))
  {
    var got := s.seqr.ring.readers[c].got;
    assert LoopOk(s, c) && LoopOk(s, MATCHER);
    if c != MATCHER {
      TakeOtherLoop(cfg, s, c, now, done, MATCHER);
    } else {
      TakeOwnLoop(cfg, s, c, now, done);
      if got.Some? {
        EngineLaws.RunOne(cfg.poolCapacity, Handled(s, c), got.value);
      } else {
        assert Handled(s, c) + [] == Handled(s, c);
      }
    }
  }

  /** The log's own take: an append, a poll or the closing sync. */
  lemma {:induction false} TakeOwnLog(cfg: Config, s: Pipe, now: int, done: int)
    requires Shaped(s) && RingProtocol.Inv(s.seqr.ring) && LoopOk(s, LOG) && LogOk(cfg, s)
    requires s.seqr.ring.readers[LOG].RReturn? && Calling(s.pcs[LOG])
    ensures Shaped(Take(cfg, s, LOG, now, done)) && LogOk(cfg, Take(cfg, s, LOG, now, done))
  {
    var got := s.seqr.ring.readers[LOG].got;
    TakeOwnLoop(cfg, s, LOG, now, done);
    if got.Some? {
      PerformSyncs(cfg.policy, s.wal, Write(got.value, now, done));
    } else {
      assert Handled(s, LOG) + [] == Handled(s, LOG);
    }
  }

  lemma {:induction false} TakeLog(cfg: Config, s: Pipe, c: nat, now: int, done: int)
    requires Inv(cfg, s) && c < |s.pcs| && s.seqr.ring.readers[c].RReturn? && Calling(s.pcs[c])
    ensures Shaped(Take(cfg, s, c, now, done)) && LogOk(cfg, Take(cfg, s, c, now, done))
  {
    assert LoopOk(s, c) && LoopOk(s, LOG);
    if c == LOG {
      TakeOwnLog(cfg, s, now, done);
    } else {
      TakeOtherLoop(cfg, s, c, now, done, LOG);
    }
  }

  lemma {:induction false} TakeKeeps(cfg: Config, s: Pipe, c: nat, now: int, done: int)
    requires Inv(cfg, s) && c < |s.pcs| && s.seqr.ring.readers[c].RReturn? && Calling(s.pcs[c])
    ensures Inv(cfg, Take(cfg, s, c, now, done))
  {
    var s' := Take(cfg, s, c, now, done);
    SeqKeepsInv(s.seqr, Reader(ReaderDone(c)));
    assert s'.seqr == Sequencers.Next(s.seqr, Reader(ReaderDone(c)));
    forall d | 0 <= d < |s.pcs| ensures Shaped(s') && |s'.pcs| == |s.pcs| && LoopOk(s', d) {
      TakeLoop(cfg, s, c, now, done, d);
    }
    TakeMatcher(cfg, s, c, now, done);
    TakeLog(cfg, s, c, now, done);
  }

  lemma {:induction false} EndChunkKeeps(cfg: Config, s: Pipe, c: nat, now: int, done: int)
    requires Inv(cfg, s) && c < |s.pcs| && s.pcs[c] == Chunk(CHUNK)
    ensures Inv(cfg, Next(cfg, s, EndChunk(c, now, done)))
  {
    var s' := Next(cfg, s, EndChunk(c, now, done));
    forall d | 0 <= d < |s.pcs| ensures LoopOk(s', d) {
      assert LoopOk(s, d);
    }
    assert Handled(s', MATCHER) == Handled(s, MATCHER) && Handled(s', LOG) == Handled(s, LOG);
  }

  lemma {:induction false} StopSequencerKeeps(cfg: Config, s: Pipe)
    requires Inv(cfg, s) && s.phase <= 1
    ensures Inv(cfg, ShutdownStep(s))
  {
    var s' := ShutdownStep(s);
    SeqKeepsInv(s.seqr, Stop);
    forall d | 0 <= d < |s.pcs| ensures LoopOk(s', d) {
      assert LoopOk(s, d);
    }
    assert Handled(s', MATCHER) == Handled(s, MATCHER) && Handled(s', LOG) == Handled(s, LOG);
  }

  lemma StopConsumerKeeps(s: Pipe, d: nat)
    requires Shaped(s) && d < |s.pcs| && LoopOk(s, d) && 2 <= s.phase < 2 + 2 * |s.pcs|
    ensures LoopOk(ShutdownStep(s), d)
  {
  }

  /** Stopping and joining consumers moves no event and no loop. */
  lemma {:induction false} StopConsumersKeeps(cfg: Config, s: Pipe)
    requires Inv(cfg, s) && 2 <= s.phase < 2 + 2 * |s.pcs|
    ensures Inv(cfg, ShutdownStep(s))
  {
    var s' := ShutdownStep(s);
    assert s' == s.(running := s'.running, phase := s'.phase);
    forall d | 0 <= d < |s.pcs| ensures LoopOk(s', d) {
      StopConsumerKeeps(s, d);
    }
    assert Handled(s', MATCHER) == Handled(s, MATCHER) && Handled(s', LOG) == Handled(s, LOG);
  }

  lemma {:induction false} ShutdownKeeps(cfg: Config, s: Pipe)
    requires Inv(cfg, s)
    ensures Inv(cfg, ShutdownStep(s))
  {
    if s.phase <= 1 {
      StopSequencerKeeps(cfg, s);
    } else if s.phase < 2 + 2 * |s.pcs| {
      StopConsumersKeeps(cfg, s);
    }
  }

  lemma {:induction false} NextKeeps(cfg: Config, s: Pipe, step: PipeStep)
    requires Inv(cfg, s)
    ensures Inv(cfg, Next(cfg, s, step))
  {
    match step
    case Sequence(q) => if !q.Reader? && !q.Stop? { SequenceKeeps(cfg, s, q); }
    case LoadFlag(c) => if c < |s.pcs| && s.pcs[c].Test? { LoadFlagKeeps(cfg, s, c); }
    case CallConsume(c) => if c < |s.pcs| && Calling(s.pcs[c]) { CallKeeps(cfg, s, c); }
    case MoveConsume(c) => MoveKeeps(cfg, s, c);
    case TakeEvent(c, now, done) =>
      if c < |s.pcs| && s.seqr.ring.readers[c].RReturn? && Calling(s.pcs[c]) { TakeKeeps(cfg, s, c, now, done); }
    case EndChunk(c, now, done) =>
      if c < |s.pcs| && s.pcs[c] == Chunk(CHUNK) { EndChunkKeeps(cfg, s, c, now, done); }
    case Shutdown => ShutdownKeeps(cfg, s);
  }

  // ---------- every interleaving of the whole pipeline ----------

  lemma {:induction false} ShapedNext(cfg: Config, s: Pipe, step: PipeStep)
    requires Shaped(s)
    ensures Shaped(Next(cfg, s, step))
  {
    match step
    case Sequence(q) => Sequencers.ShapedNext(s.seqr, q);
    case CallConsume(c) => Sequencers.ShapedNext(s.seqr, Reader(Consume(c)));
    case MoveConsume(c) => Sequencers.ShapedNext(s.seqr, Reader(ReaderMove(c)));
    case TakeEvent(c, now, done) => Sequencers.ShapedNext(s.seqr, Reader(ReaderDone(c)));
    case Shutdown => Sequencers.ShapedNext(s.seqr, Stop);
    case _ =>
  }

  /** The pipeline after a schedule of steps. */
  function Exec(cfg: Config, steps: seq<PipeStep>): (s: Pipe)
    requires Sized(cfg)
    ensures Shaped(s)
  {
    if steps == [] then Start(cfg)
    else
      var before := Exec(cfg, steps[..|steps| - 1]);
      ShapedNext(cfg, before, steps[|steps| - 1]);
      Next(cfg, before, steps[|steps| - 1])
  }

  lemma {:induction false} ExecKeepsInv(cfg: Config, steps: seq<PipeStep>)
    requires Sized(cfg)
    ensures Inv(cfg, Exec(cfg, steps))
  {
    if steps == [] {
      StartInv(cfg);
    } else {
      ExecKeepsInv(cfg, steps[..|steps| - 1]);
      NextKeeps(cfg, Exec(cfg, steps[..|steps| - 1]), steps[|steps| - 1]);
    }
  }

  lemma {:induction false} HandledIsPrefix(cfg: Config, s: Pipe, c: nat)
    requires Inv(cfg, s) && c < |s.pcs|
    ensures |Handled(s, c)| <= |s.seqr.ring.published|
    ensures Handled(s, c) == s.seqr.ring.published[..|Handled(s, c)|]
  {
    assert CursorOk(s.seqr.ring, c);
  }

  lemma ContiguousIncreasing(events: seq<Event>)
    requires Contiguous(events)
    ensures EngineLaws.Increasing(events)
  {
  }

  /**
   At every point of every interleaved run, the matcher is the fold of the engine over the
   first n published events and the log is the first m of them, so replaying the log gives the
   matcher's state whenever m = n.
   */
  lemma {:induction false} ReplayReproduces(cfg: Config, steps: seq<PipeStep>) returns (n: nat, m: nat)
    requires Sized(cfg)
    ensures var s := Exec(cfg, steps);
            var events := s.seqr.ring.published;
            && n <= |events| && m <= |events|
            && Outcome(s.engine, s.acks) == Run(cfg.poolCapacity, events[..n])
            && s.wal.log == events[..m]
            && (m == n ==> Run(cfg.poolCapacity, s.wal.log) == Outcome(s.engine, s.acks))
  {
    var s := Exec(cfg, steps);
    ExecKeepsInv(cfg, steps);
    HandledIsPrefix(cfg, s, MATCHER);
    HandledIsPrefix(cfg, s, LOG);
    n, m := |Handled(s, MATCHER)|, |Handled(s, LOG)|;
  }

  /** The sequencer's numbers meet the engine's demand for fresh ids, so its invariant holds throughout. */
  lemma {:induction false} EngineInvariantInPipeline(cfg: Config, steps: seq<PipeStep>) returns (n: nat)
    requires Sized(cfg)
    ensures var s := Exec(cfg, steps);
            && n <= |s.seqr.ring.published|
            && EngineLaws.Increasing(s.seqr.ring.published)
            && (var h := EngineLaws.Replay(cfg.poolCapacity, s.seqr.ring.published[..n]);
                EngineLaws.Inv(cfg.poolCapacity, h) && h.engine == s.engine)
  {
    var m;
    n, m := ReplayReproduces(cfg, steps);
    var s := Exec(cfg, steps);
    ExecKeepsInv(cfg, steps);
    ContiguousIncreasing(s.seqr.ring.published);
    EngineLaws.RunKeepsInv(cfg.poolCapacity, s.seqr.ring.published[..n]);
    EngineLaws.ReplayIsRun(cfg.poolCapacity, s.seqr.ring.published[..n]);
  }

  /** Once the main thread has joined everyone, matcher and log have the entire stream, all of it durable. */
  lemma {:induction false} ShutdownDrainsEverything(cfg: Config, steps: seq<PipeStep>)
    requires Sized(cfg)
    requires Exec(cfg, steps).phase == 2 + 2 * |Exec(cfg, steps).pcs|
    ensures var s := Exec(cfg, steps);
            var events := s.seqr.ring.published;
            && Outcome(s.engine, s.acks) == Run(cfg.poolCapacity, events)
            && s.wal.log == events && s.wal.durable == |events| && !s.wal.isOpen
            && InFlight(s.seqr.ring, s.seqr.pc).None?
  {
    ExecKeepsInv(cfg, steps);
    var s := Exec(cfg, steps);
    assert LoopOk(s, MATCHER) && LoopOk(s, LOG);
  }

  /** At every point the disk holds a prefix of the log, missing fewer than the policy's record count. */
  lemma {:induction false} LogIsDurablePrefix(cfg: Config, steps: seq<PipeStep>)
    requires Sized(cfg)
    ensures var w := Exec(cfg, steps).wal;
            && w.durable <= |w.log| <= |Exec(cfg, steps).seqr.ring.published|
            && (|w.log| == w.durable || |w.log| - w.durable < cfg.policy.everyN)
  {
    ExecKeepsInv(cfg, steps);
    HandledIsPrefix(cfg, Exec(cfg, steps), LOG);
  }

  /**
   After a crash at any point of any schedule only the durable records are left. Replaying them
   gives the engine over the first d published events, fewer than everyN records short of the
   whole log; that engine meets its invariant, and it has the matcher's state and acks if the
   matcher has handled exactly d events.
   */
  lemma {:induction false} CrashRecovery(cfg: Config, steps: seq<PipeStep>)
    requires Sized(cfg)
    ensures var s := Exec(cfg, steps);
            var d, events := s.wal.durable, s.seqr.ring.published;
            && d <= |s.wal.log| <= |events|
            && (|s.wal.log| == d || |s.wal.log| - d < cfg.policy.everyN)
            && s.wal.log[..d] == events[..d]
            && Run(cfg.poolCapacity, s.wal.log[..d]) == Run(cfg.poolCapacity, events[..d])
            && EngineLaws.Inv(cfg.poolCapacity, EngineLaws.Replay(cfg.poolCapacity, s.wal.log[..d]))
            && (|Handled(s, MATCHER)| == d ==>
                  Run(cfg.poolCapacity, s.wal.log[..d]) == Outcome(s.engine, s.acks))
  {
    var s := Exec(cfg, steps);
    ExecKeepsInv(cfg, steps);
    HandledIsPrefix(cfg, s, MATCHER);
    HandledIsPrefix(cfg, s, LOG);
    assert s.wal.log[..s.wal.durable] == s.seqr.ring.published[..s.wal.durable];
    ContiguousIncreasing(s.seqr.ring.published);
    EngineLaws.RunKeepsInv(cfg.poolCapacity, s.wal.log[..s.wal.durable]);
  }
}
