/**
 The run loop of a ring consumer (include/matching_engine_consumer.hpp, include/wal_consumer.hpp) in
 the pipeline: it drains in chunks of at most 32 events, and tests its flag between chunks.
 */
module Chunks {
  import opened Types
  import opened Engines
  import opened RingProtocol
  import opened Sequencers
  import opened Pipelines

  lemma PcsStay(cfg: Config, s: Pipe, step: PipeStep)
    requires Pipelines.Shaped(s)
    ensures |Pipelines.Next(cfg, s, step).pcs| == |s.pcs|
  {
  }

  /** The events a step has consumer c handle: one at most, and only when the consumer takes it. */
  function TakenBy(s: Pipe, step: PipeStep, c: nat): nat
    requires Pipelines.Shaped(s) && c < |s.pcs|
  {
    var reader := s.seqr.ring.readers[c];
    if step.TakeEvent? && step.c == c && Calling(s.pcs[c]) && reader.RReturn? && reader.got.Some? then 1 else 0
  }

  /** The steps that move the ring for a reader other than by taking an event. */
  lemma {:induction false} ReadHandles(s: Pipe, step: Step<Event>, r: nat, c: nat)
    requires Pipelines.Shaped(s) && RingProtocol.Inv(s.seqr.ring) && c < |s.pcs| && LoopOk(s, c)
    requires (step == Consume(r) && r < |s.pcs| && Calling(s.pcs[r])) || step == ReaderMove(r)
    ensures Pipelines.Shaped(OnRing(s, step)) && Handled(OnRing(s, step), c) == Handled(s, c)
  {
    Sequencers.ShapedNext(s.seqr, Reader(step));
    ReaderFrame(s.seqr.ring, step, r, c);
    if r == c && step.ReaderMove? {
      MoveOwn(s, c);
    }
  }

  lemma {:induction false} TakeHandles(cfg: Config, s: Pipe, d: nat, now: int, done: int, c: nat)
    requires Pipelines.Inv(cfg, s) && c < |s.pcs| && d < |s.pcs| && s.seqr.ring.readers[d].RReturn? && Calling(s.pcs[d])
    ensures var s' := Take(cfg, s, d, now, done);
            && Pipelines.Shaped(s') && c < |s'.pcs|
            && |Handled(s', c)| == |Handled(s, c)| + TakenBy(s, TakeEvent(d, now, done), c)
  {
    assert LoopOk(s, c) && LoopOk(s, d);
    if d == c {
      TakeOwnLoop(cfg, s, c, now, done);
    } else {
      TakeOtherLoop(cfg, s, d, now, done, c);
    }
  }

  lemma {:induction false} StepHandles(cfg: Config, s: Pipe, step: PipeStep, c: nat)
    requires Pipelines.Inv(cfg, s) && c < |s.pcs|
    ensures var s' := Pipelines.Next(cfg, s, step);
            && Pipelines.Shaped(s') && c < |s'.pcs|
            && |Handled(s', c)| == |Handled(s, c)| + TakenBy(s, step, c)
  {
    Pipelines.ShapedNext(cfg, s, step);
    PcsStay(cfg, s, step);
    assert LoopOk(s, c);
    match step
    case Sequence(q) => if !q.Reader? && !q.Stop? { SequenceFrame(s.seqr, q); }
    case CallConsume(d) => if d < |s.pcs| && Calling(s.pcs[d]) { ReadHandles(s, Consume(d), d, c); }
    case MoveConsume(d) => ReadHandles(s, ReaderMove(d), d, c);
    case TakeEvent(d, now, done) =>
      if d < |s.pcs| && s.seqr.ring.readers[d].RReturn? && Calling(s.pcs[d]) { TakeHandles(cfg, s, d, now, done, c); }
    case Shutdown => SequenceFrame(s.seqr, Stop);
    case _ =>
  }

  /** Inside a chunk the counter goes up by what is handled. */
  lemma ChunkStep(cfg: Config, s: Pipe, step: PipeStep, c: nat)
    requires Pipelines.Shaped(s) && c < |s.pcs| && s.pcs[c].Chunk?
    requires c < |Pipelines.Next(cfg, s, step).pcs| && Pipelines.Next(cfg, s, step).pcs[c].Chunk?
    ensures Pipelines.Next(cfg, s, step).pcs[c].i == s.pcs[c].i + TakenBy(s, step, c)
  {
  }

  /** From step j of the schedule on, consumer c is inside a chunk. */
  ghost predicate InChunk(cfg: Config, steps: seq<PipeStep>, j: nat, c: nat)
    requires Sized(cfg)
  {
    forall k :: j <= k <= |steps| ==>
      c < |Pipelines.Exec(cfg, steps[..k]).pcs| && Pipelines.Exec(cfg, steps[..k]).pcs[c].Chunk?
  }

  lemma {:induction false} InChunkBefore(cfg: Config, steps: seq<PipeStep>, j: nat, c: nat)
    requires Sized(cfg) && j < |steps| && InChunk(cfg, steps, j, c)
    ensures InChunk(cfg, steps[..|steps| - 1], j, c)
  {
    var init := steps[..|steps| - 1];
    forall k | j <= k <= |init|
      ensures c < |Pipelines.Exec(cfg, init[..k]).pcs| && Pipelines.Exec(cfg, init[..k]).pcs[c].Chunk?
    {
      assert init[..k] == steps[..k];
    }
  }

  /**
   Under every schedule, a consumer that stays inside a chunk has handled exactly as many events as
   its counter went up, which is at most 32; so it tests its flag again after no more than that.
   */
  lemma {:induction false} ChunkIsBounded(cfg: Config, steps: seq<PipeStep>, j: nat, c: nat)
    requires Sized(cfg) && j <= |steps| && InChunk(cfg, steps, j, c)
    ensures var before, now := Pipelines.Exec(cfg, steps[..j]), Pipelines.Exec(cfg, steps);
            && c < |before.pcs| && c < |now.pcs| && before.pcs[c].Chunk? && now.pcs[c].Chunk?
            && |Handled(now, c)| - |Handled(before, c)| == now.pcs[c].i - before.pcs[c].i <= 32
    decreases |steps|
  {
    var n := |steps| - 1;
    assert steps[..|steps|] == steps;
    Pipelines.ExecKeepsInv(cfg, steps);
    assert LoopOk(Pipelines.Exec(cfg, steps), c);
    if j == |steps| {
    } else {
      var init := steps[..n];
      InChunkBefore(cfg, steps, j, c);
      ChunkIsBounded(cfg, init, j, c);
      assert init[..j] == steps[..j] && init[..|init|] == init;
      Pipelines.ExecKeepsInv(cfg, init);
      StepHandles(cfg, Pipelines.Exec(cfg, init), steps[n], c);
      ChunkStep(cfg, Pipelines.Exec(cfg, init), steps[n], c);
    }
  }

  /** And it leaves a chunk, to test its flag, only after 32 events or when the ring gave it none. */
  lemma {:induction false} LeavesChunkOnlyWhenDone(cfg: Config, steps: seq<PipeStep>, step: PipeStep, c: nat)
    requires Sized(cfg)
    requires var s := Pipelines.Exec(cfg, steps);
             c < |s.pcs| && s.pcs[c].Chunk?
    requires var s' := Pipelines.Next(cfg, Pipelines.Exec(cfg, steps), step);
             c < |s'.pcs| && !s'.pcs[c].Chunk?
    ensures var s := Pipelines.Exec(cfg, steps);
            && Pipelines.Next(cfg, s, step).pcs[c].Test?
            && (s.pcs[c].i == 32 || s.seqr.ring.readers[c] == RReturn(None))
  {
  }
}
