/**
 What the write-ahead log does in the pipeline: at every point of every schedule it is the log
 of the appends and polls its thread has made, so its loss window is that of such runs.
 */
module LogRuns {
  import opened Engines
  import opened RingProtocol
  import opened Wals
  import opened Pipelines

  /** What a step has the log do: append what it took, poll when it took nothing or has drained a chunk. */
  function LogStep(s: Pipe, step: PipeStep): seq<LogOp>
    requires Pipelines.Shaped(s)
  {
    match step
    case TakeEvent(c, now, done) =>
      if c != LOG || !s.seqr.ring.readers[LOG].RReturn? || !Calling(s.pcs[LOG]) then []
      else (match s.seqr.ring.readers[LOG].got
            case Some(ev) => [Write(ev, now, done)]
            case None => if s.pcs[LOG].Chunk? then [Idle(now, done)] else [])
    case EndChunk(c, now, done) => if c == LOG && s.pcs[LOG] == Chunk(32) then [Idle(now, done)] else []
    case _ => []
  }

  /** Everything the log was made to do in a schedule, in order. */
  function LogOps(cfg: Config, steps: seq<PipeStep>): seq<LogOp>
    requires Sized(cfg)
  {
    if steps == [] then []
    else LogOps(cfg, steps[..|steps| - 1]) + LogStep(Pipelines.Exec(cfg, steps[..|steps| - 1]), steps[|steps| - 1])
  }

  /** While the log is open it is exactly the log of those operations; closing it makes the rest durable. */
  ghost predicate Follows(cfg: Config, w: Wal, ops: seq<LogOp>) {
    var run := Journal(cfg.policy, cfg.t0, ops);
    if w.isOpen then w == run else w.log == run.log && w.durable == |w.log|
  }

  lemma {:induction false} JournalOne(policy: Policy, t0: int, ops: seq<LogOp>, op: LogOp)
    ensures Journal(policy, t0, ops + [op]) == Perform(policy, Journal(policy, t0, ops), op)
  {
    assert (ops + [op])[..|ops|] == ops;
  }

  lemma {:induction false} TakeFollows(cfg: Config, s: Pipe, ops: seq<LogOp>, c: nat, now: int, done: int)
    requires Pipelines.Inv(cfg, s) && Follows(cfg, s.wal, ops)
    requires c < |s.pcs| && s.seqr.ring.readers[c].RReturn? && Calling(s.pcs[c])
    ensures Follows(cfg, Take(cfg, s, c, now, done).wal, ops + LogStep(s, TakeEvent(c, now, done)))
  {
    var did := LogStep(s, TakeEvent(c, now, done));
    if did == [] {
      assert ops + did == ops;
    } else {
      assert did == [did[0]];
      JournalOne(cfg.policy, cfg.t0, ops, did[0]);
    }
  }

  lemma {:induction false} StepFollows(cfg: Config, s: Pipe, ops: seq<LogOp>, step: PipeStep)
    requires Pipelines.Inv(cfg, s) && Follows(cfg, s.wal, ops)
    ensures Follows(cfg, Pipelines.Next(cfg, s, step).wal, ops + LogStep(s, step))
  {
    assert ops + [] == ops;
    match step
    case TakeEvent(c, now, done) =>
      if c < |s.pcs| && s.seqr.ring.readers[c].RReturn? && Calling(s.pcs[c]) {
        TakeFollows(cfg, s, ops, c, now, done);
      }
    case EndChunk(c, now, done) => JournalOne(cfg.policy, cfg.t0, ops, Idle(now, done));
    case _ =>
  }

  lemma {:induction false} LogFollows(cfg: Config, steps: seq<PipeStep>)
    requires Sized(cfg)
    ensures Follows(cfg, Pipelines.Exec(cfg, steps).wal, LogOps(cfg, steps))
  {
    if steps == [] {
    } else {
      var init := steps[..|steps| - 1];
      LogFollows(cfg, init);
      Pipelines.ExecKeepsInv(cfg, init);
      StepFollows(cfg, Pipelines.Exec(cfg, init), LogOps(cfg, init), steps[|steps| - 1]);
    }
  }

  /**
   The loss window in the pipeline, under every schedule: after the log's last append or poll,
   which it makes for every event it takes, whenever it finds none and after every chunk of 32,
   either every record is durable or fewer than everyN are not and the last sync ended less than
   the interval before the clock reading of that append or poll.
   */
  lemma {:induction false} PipelineLossWindow(cfg: Config, steps: seq<PipeStep>)
    requires Sized(cfg)
    ensures var w, ops := Pipelines.Exec(cfg, steps).wal, LogOps(cfg, steps);
            && w.log == Written(ops)
            && (!w.isOpen ==> w.durable == |w.log|)
            && (w.isOpen && ops != [] ==>
                  || w.durable == |w.log|
                  || (&& |w.log| - w.durable < cfg.policy.everyN
                      && ops[|ops| - 1].now - LastSync(cfg.policy, cfg.t0, ops) < cfg.policy.interval))
  {
    var ops := LogOps(cfg, steps);
    LogFollows(cfg, steps);
    JournalOk(cfg.policy, cfg.t0, ops);
    if ops != [] {
      LossWindow(cfg.policy, cfg.t0, ops);
    }
  }

  /** And when it syncs: a step of the log's that is under both thresholds leaves what is durable alone, any other does not. */
  lemma {:induction false} PipelineSyncExact(cfg: Config, steps: seq<PipeStep>, step: PipeStep)
    requires Sized(cfg)
    requires var s := Pipelines.Exec(cfg, steps);
             s.wal.isOpen && Pipelines.Next(cfg, s, step).wal.isOpen
    ensures var s := Pipelines.Exec(cfg, steps);
            var w, w', did := s.wal, Pipelines.Next(cfg, s, step).wal, LogStep(s, step);
            if did == [] then w' == w
            else
              && |did| == 1
              && w'.durable == if |w'.log| - w.durable < cfg.policy.everyN
                                  && did[0].now - LastSync(cfg.policy, cfg.t0, LogOps(cfg, steps)) < cfg.policy.interval
                               then w.durable else |w'.log|
  {
    var s, ops := Pipelines.Exec(cfg, steps), LogOps(cfg, steps);
    LogFollows(cfg, steps);
    Pipelines.ExecKeepsInv(cfg, steps);
    StepFollows(cfg, s, ops, step);
    var did := LogStep(s, step);
    if did == [] {
      assert ops + did == ops;
    } else {
      assert did == [did[0]];
      SyncExact(cfg.policy, cfg.t0, ops, did[0]);
    }
  }
}
