/**
 The replay harness (src/main.cpp): a feed thread pushing every event through the ring and
 an engine thread popping until it sees the feed done and the ring empty, interleaved at the
 ring's atomic steps.
 */
module Harness {
  import Spsc

  datatype EnginePc = Popping | CheckDone | CheckEmpty | Exited

  /** `sent` feed events have been pushed; `handled` is what the engine processed, in order. */
  datatype State<T> = State(queue: Spsc.Queue<T>, sent: nat, feedDone: bool, engine: EnginePc, handled: seq<T>)

  datatype Step =
    | FeedPush | FeedMove | FeedTake | FeedFinish
    | EnginePop | EngineMove | EngineTake | EngineLoadDone | EngineIsEmpty

  function FeedStep<T>(feed: seq<T>, s: State<T>, step: Step): State<T>
    requires Spsc.Shaped(s.queue)
  {
    var q := s.queue;
    match step
    case FeedPush =>
      if s.sent < |feed| && !s.feedDone then s.(queue := Spsc.Next(q, Spsc.Push(feed[s.sent]))) else s
    case FeedMove => s.(queue := Spsc.Next(q, Spsc.ProducerMove))
    case FeedTake =>
      if q.producer.PReturn?
      then s.(queue := Spsc.Next(q, Spsc.ProducerDone), sent := if q.producer.ok then s.sent + 1 else s.sent)
      else s
    case _ =>
      if s.sent == |feed| && q.producer.PIdle? then s.(feedDone := true) else s
  }

  function EngineStep<T>(s: State<T>, step: Step): State<T>
    requires Spsc.Shaped(s.queue)
  {
    var q := s.queue;
    match step
    case EnginePop => if s.engine.Popping? then s.(queue := Spsc.Next(q, Spsc.Pop)) else s
    case EngineMove => s.(queue := Spsc.Next(q, Spsc.ConsumerMove))
    case EngineTake =>
      if s.engine.Popping? && q.consumer.CReturn? then
        var s1 := s.(queue := Spsc.Next(q, Spsc.ConsumerDone));
        if q.consumer.got.Some? then s1.(handled := s.handled + [q.consumer.got.value])
        else s1.(engine := CheckDone)
      else if s.engine.CheckEmpty? && q.consumer.CEmptyReturn? then
        s.(queue := Spsc.Next(q, Spsc.ConsumerDone), engine := if q.consumer.isEmpty then Exited else Popping)
      else s
    case EngineLoadDone =>
      if s.engine.CheckDone? then s.(engine := if s.feedDone then CheckEmpty else Popping) else s
    case _ => if s.engine.CheckEmpty? then s.(queue := Spsc.Next(q, Spsc.IsEmpty)) else s
  }

  function Next<T>(feed: seq<T>, s: State<T>, step: Step): (s': State<T>)
    requires Spsc.Shaped(s.queue)
    ensures Spsc.Shaped(s'.queue)
  {
    if step.FeedPush? || step.FeedMove? || step.FeedTake? || step.FeedFinish?
    then FeedStep(feed, s, step) else EngineStep(s, step)
  }

  function Exec<T>(feed: seq<T>, s: State<T>, steps: seq<Step>): (s': State<T>)
    requires Spsc.Shaped(s.queue)
    ensures Spsc.Shaped(s'.queue)
  {
    if steps == [] then s else Next(feed, Exec(feed, s, steps[..|steps| - 1]), steps[|steps| - 1])
  }

  function Start<T>(capacity: nat, blank: T): (s: State<T>)
    requires capacity > 0
    ensures Spsc.Shaped(s.queue)
  {
    State(Spsc.Start(capacity, blank), 0, false, Popping, [])
  }

  /** The pushes made are the feed, in order, up to where the feed thread stands. */
  ghost predicate FeedOk<T>(feed: seq<T>, s: State<T>) {
    var q := s.queue;
    && s.sent <= |feed|
    && (match q.producer
        case PIdle => q.pushed == feed[..s.sent]
        case PReturn(ok) =>
          if ok then s.sent < |feed| && q.pushed == feed[..s.sent + 1] else q.pushed == feed[..s.sent]
        case PLoaded(item, _) => s.sent < |feed| && q.pushed == feed[..s.sent] && item == feed[s.sent]
        case PStore(item, _) => s.sent < |feed| && q.pushed == feed[..s.sent] && item == feed[s.sent]
        case PCommit(item, _) => s.sent < |feed| && q.pushed == feed[..s.sent] && item == feed[s.sent])
    && (s.feedDone ==> s.sent == |feed| && q.producer.PIdle?)
  }

  /** The engine has handled what it popped, and the last checks are only made once the feed is done. */
  ghost predicate EngineOk<T>(feed: seq<T>, s: State<T>) {
    var q := s.queue;
    && (match q.consumer
        case CReturn(got) =>
          && s.engine.Popping?
          && (if got.Some? then q.popped == s.handled + [got.value] else q.popped == s.handled)
        case CEmpty(head) => s.engine.CheckEmpty? && q.popped == s.handled && head == q.head
        case CEmptyReturn(isEmpty) =>
          s.engine.CheckEmpty? && q.popped == s.handled && (isEmpty ==> q.popped == feed)
        case CIdle => q.popped == s.handled
        case _ => s.engine.Popping? && q.popped == s.handled)
    && (s.engine.CheckEmpty? || s.engine.Exited? ==> s.feedDone)
    && (s.engine.Exited? ==> q.consumer.CIdle? && s.handled == feed)
  }

  ghost predicate Inv<T>(feed: seq<T>, s: State<T>) {
    Spsc.Inv(s.queue) && FeedOk(feed, s) && EngineOk(feed, s)
  }

  lemma {:induction false} FeedKeepsInv<T>(feed: seq<T>, s: State<T>, step: Step)
    requires Inv(feed, s)
    requires step.FeedPush? || step.FeedMove? || step.FeedTake? || step.FeedFinish?
    ensures Inv(feed, Next(feed, s, step))
  {
    match step
    case FeedPush => if s.sent < |feed| { Spsc.NextKeepsInv(s.queue, Spsc.Push(feed[s.sent])); }
    case FeedMove =>
      Spsc.NextKeepsInv(s.queue, Spsc.ProducerMove);
      if s.queue.producer.PCommit? {
        assert feed[..s.sent + 1] == feed[..s.sent] + [feed[s.sent]];
      }
    case FeedTake => Spsc.NextKeepsInv(s.queue, Spsc.ProducerDone);
    case FeedFinish =>
  }

  /** After the feed is done the pushes stand still, so an empty ring means everything was popped. */
  lemma {:induction false} EmptyMeansDrained<T>(feed: seq<T>, s: State<T>)
    requires Inv(feed, s) && s.feedDone && s.queue.head == s.queue.tail
    ensures s.queue.popped == feed
  {
    Spsc.EmptyTest(s.queue);
    assert |s.queue.popped| == |s.queue.pushed|;
    assert s.queue.pushed == feed[..|feed|] == feed;
  }

  lemma {:induction false} MoveKeepsInv<T>(feed: seq<T>, s: State<T>)
    requires Inv(feed, s)
    ensures Inv(feed, Next(feed, s, EngineMove))
  {
    Spsc.NextKeepsInv(s.queue, Spsc.ConsumerMove);
    if s.queue.consumer.CEmpty? && s.queue.head == s.queue.tail {
      EmptyMeansDrained(feed, s);
    }
  }

  lemma {:induction false} EngineKeepsInv<T>(feed: seq<T>, s: State<T>, step: Step)
    requires Inv(feed, s)
    requires !(step.FeedPush? || step.FeedMove? || step.FeedTake? || step.FeedFinish?)
    ensures Inv(feed, Next(feed, s, step))
  {
    match step
    case EnginePop => Spsc.NextKeepsInv(s.queue, Spsc.Pop);
    case EngineMove => MoveKeepsInv(feed, s);
    case EngineTake => Spsc.NextKeepsInv(s.queue, Spsc.ConsumerDone);
    case EngineLoadDone =>
    case _ => Spsc.NextKeepsInv(s.queue, Spsc.IsEmpty);
  }

  lemma {:induction false} NextKeepsInv<T>(feed: seq<T>, s: State<T>, step: Step)
    requires Inv(feed, s)
    ensures Inv(feed, Next(feed, s, step))
  {
    if step.FeedPush? || step.FeedMove? || step.FeedTake? || step.FeedFinish? {
      FeedKeepsInv(feed, s, step);
    } else {
      EngineKeepsInv(feed, s, step);
    }
  }

  lemma {:induction false} ExecKeepsInv<T>(feed: seq<T>, s: State<T>, steps: seq<Step>)
    requires Inv(feed, s)
    ensures Inv(feed, Exec(feed, s, steps))
  {
    if steps == [] {
    } else {
      var init, step := steps[..|steps| - 1], steps[|steps| - 1];
      ExecKeepsInv(feed, s, init);
      NextKeepsInv(feed, Exec(feed, s, init), step);
    }
  }

  /**
   Under every schedule the engine handles the feed in order, once each, and it leaves its
   loop only after the whole feed has been handled.
   */
  lemma {:induction false} EngineHandlesWholeFeed<T>(capacity: nat, blank: T, feed: seq<T>, steps: seq<Step>)
    requires capacity > 0
    ensures var s := Exec(feed, Start(capacity, blank), steps);
            && s.handled <= feed
            && (s.engine.Exited? ==> s.handled == feed)
  {
    var s0: State<T> := Start(capacity, blank);
    Spsc.StartInv(capacity, blank);
    ExecKeepsInv(feed, s0, steps);
    var s := Exec(feed, s0, steps);
    assert s.handled <= s.queue.popped <= s.queue.pushed <= feed;
  }

  // ---------- the engine thread can always get to its exit ----------

  lemma {:induction false} ExecMore<T>(feed: seq<T>, s: State<T>, steps: seq<Step>, more: seq<Step>)
    requires Spsc.Shaped(s.queue)
    ensures Exec(feed, s, steps + more) == Exec(feed, Exec(feed, s, steps), more)
    decreases |more|
  {
    if more == [] {
      assert steps + more == steps;
    } else {
      var n := |more| - 1;
      assert (steps + more)[..|steps| + n] == steps + more[..n];
      ExecMore(feed, s, steps, more[..n]);
    }
  }

  /** The next step of the feed thread. */
  function FeedMoveOf<T>(feed: seq<T>, s: State<T>): Step {
    match s.queue.producer
    case PIdle => if s.sent < |feed| then FeedPush else FeedFinish
    case PReturn(_) => FeedTake
    case _ => FeedMove
  }

  /** The next step of the engine thread. */
  function EngineMoveOf<T>(s: State<T>): Step {
    if s.engine.CheckDone? then EngineLoadDone
    else
      match s.queue.consumer
      case CIdle => if s.engine.Popping? then EnginePop else EngineIsEmpty
      case CReturn(_) => EngineTake
      case CEmptyReturn(_) => EngineTake
      case _ => EngineMove
  }

  /** Steps of the feed thread until it has pushed once more. */
  function PushLeft<T>(s: State<T>): nat {
    match s.queue.producer
    case PCommit(_, _) => 1
    case PStore(_, _) => 2
    case PLoaded(_, _) => 3
    case PIdle => 4
    case PReturn(_) => 5
  }

  /** Steps of the engine thread until it has popped once more, when there is something to pop. */
  function PopLeft<T>(s: State<T>): nat {
    match s.queue.consumer
    case CCommit(_, _) => 1
    case CCopy(_) => 2
    case CLoaded(_) => 3
    case CIdle => if s.engine.Popping? then 4 else if s.engine.CheckEmpty? then 7 else 8
    case CEmptyReturn(_) => 5
    case CEmpty(_) => 6
    case CReturn(got) => if got.Some? then 5 else 9
  }

  /** Steps of the engine thread until it leaves, when everything has been popped and the feed is done. */
  function ExitLeft<T>(s: State<T>): nat {
    match s.queue.consumer
    case CIdle => if s.engine.Popping? then 7 else if s.engine.CheckDone? then 4 else if s.engine.CheckEmpty? then 3 else 0
    case CEmptyReturn(isEmpty) => if isEmpty then 1 else 8
    case CEmpty(_) => 2
    case CReturn(got) => if got.Some? then 8 else 5
    case _ => 6
  }

  /** Events still to be pushed, and the announcement that all have been. */
  function Unsent<T>(feed: seq<T>, s: State<T>): int {
    2 * (|feed| - |s.queue.pushed|) + if s.feedDone then 0 else 1
  }

  function Queued<T>(s: State<T>): int {
    |s.queue.pushed| - |s.queue.popped|
  }

  function TurnLeft<T>(s: State<T>): nat {
    if Queued(s) > 0 then PopLeft(s) else if s.feedDone then ExitLeft(s) else PushLeft(s)
  }

  /** The engine drains the ring first, then the feed pushes one more. */
  function Move<T>(feed: seq<T>, s: State<T>): Step {
    if Queued(s) > 0 || s.feedDone then EngineMoveOf(s) else FeedMoveOf(feed, s)
  }

  ghost predicate Lowers<T>(feed: seq<T>, s: State<T>, s': State<T>) {
    || Unsent(feed, s') < Unsent(feed, s)
    || (Unsent(feed, s') == Unsent(feed, s) && Queued(s') < Queued(s))
    || (Unsent(feed, s') == Unsent(feed, s) && Queued(s') == Queued(s) && TurnLeft(s') < TurnLeft(s))
  }

  /** Everything has been pushed and popped exactly once the engine's test or exit says so. */
  lemma {:induction false} Drained<T>(feed: seq<T>, s: State<T>)
    requires Inv(feed, s)
    ensures 0 <= Queued(s) && |s.queue.pushed| <= |feed|
    ensures s.queue.popped == feed ==> Queued(s) == 0
  {
  }

  lemma {:induction false} PopProgress<T>(feed: seq<T>, s: State<T>)
    requires Inv(feed, s) && Queued(s) > 0
    ensures Lowers(feed, s, Next(feed, s, EngineMoveOf(s)))
  {
    Drained(feed, s);
    Spsc.EmptyTest(s.queue);
  }

  lemma {:induction false} ExitProgress<T>(feed: seq<T>, s: State<T>)
    requires Inv(feed, s) && Queued(s) == 0 && s.feedDone && !s.engine.Exited?
    ensures Lowers(feed, s, Next(feed, s, EngineMoveOf(s)))
  {
    Spsc.EmptyTest(s.queue);
  }

  /** With an empty ring of two slots or more a push goes through. */
  lemma {:induction false} PushProgress<T>(feed: seq<T>, s: State<T>)
    requires Inv(feed, s) && Queued(s) == 0 && !s.feedDone && (|s.queue.buf| >= 2 || feed == [])
    ensures Lowers(feed, s, Next(feed, s, FeedMoveOf(feed, s)))
  {
    Spsc.FullTest(s.queue);
  }

  lemma SameRing<T>(feed: seq<T>, s: State<T>, step: Step)
    requires Spsc.Shaped(s.queue)
    ensures |Next(feed, s, step).queue.buf| == |s.queue.buf|
  {
  }

  lemma {:induction false} Complete<T>(feed: seq<T>, s: State<T>) returns (more: seq<Step>)
    requires Inv(feed, s) && (|s.queue.buf| >= 2 || feed == [])
    ensures Exec(feed, s, more).engine.Exited?
    decreases Unsent(feed, s), Queued(s), TurnLeft(s)
  {
    Drained(feed, s);
    if s.engine.Exited? {
      more := [];
    } else {
      var step := Move(feed, s);
      if Queued(s) > 0 {
        PopProgress(feed, s);
      } else if s.feedDone {
        ExitProgress(feed, s);
      } else {
        PushProgress(feed, s);
      }
      NextKeepsInv(feed, s, step);
      SameRing(feed, s, step);
      Drained(feed, Next(feed, s, step));
      var rest := Complete(feed, Next(feed, s, step));
      more := [step] + rest;
      ExecMore(feed, s, [step], rest);
      assert [step][..0] == [];
    }
  }

  /**
   From every state that any schedule reaches, some continuation has the engine thread leave its
   loop with the whole feed handled, if the ring has two slots or there is nothing to feed.
   */
  lemma {:induction false} EngineExits<T>(capacity: nat, blank: T, feed: seq<T>, steps: seq<Step>)
    returns (more: seq<Step>)
    requires capacity >= 2 || (capacity == 1 && feed == [])
    ensures var s := Exec(feed, Start(capacity, blank), steps + more);
            s.engine.Exited? && s.handled == feed
  {
    var s0: State<T> := Start(capacity, blank);
    Spsc.StartInv(capacity, blank);
    ExecKeepsInv(feed, s0, steps);
    SameRingAlways(feed, s0, steps);
    more := Complete(feed, Exec(feed, s0, steps));
    ExecMore(feed, s0, steps, more);
    EngineHandlesWholeFeed(capacity, blank, feed, steps + more);
  }

  lemma {:induction false} SameRingAlways<T>(feed: seq<T>, s: State<T>, steps: seq<Step>)
    requires Spsc.Shaped(s.queue)
    ensures |Exec(feed, s, steps).queue.buf| == |s.queue.buf|
  {
    if steps == [] {
    } else {
      SameRingAlways(feed, s, steps[..|steps| - 1]);
      SameRing(feed, Exec(feed, s, steps[..|steps| - 1]), steps[|steps| - 1]);
    }
  }

  /** Otherwise it never does: a ring of one slot is always full, and nothing of the feed gets through. */
  lemma {:induction false} OneSlotNeverExits<T>(blank: T, feed: seq<T>, steps: seq<Step>)
    requires feed != []
    ensures var s := Exec(feed, Start(1, blank), steps);
            s.queue.pushed == [] && !s.engine.Exited?
  {
    var s0: State<T> := Start(1, blank);
    Spsc.StartInv(1, blank);
    ExecKeepsInv(feed, s0, steps);
    SameRingAlways(feed, s0, steps);
    if steps == [] {
    } else {
      var n := |steps| - 1;
      OneSlotNeverExits(blank, feed, steps[..n]);
      ExecKeepsInv(feed, s0, steps[..n]);
      SameRingAlways(feed, s0, steps[..n]);
      NothingPushed(feed, Exec(feed, s0, steps[..n]), steps[n]);
    }
  }

  lemma NothingPushed<T>(feed: seq<T>, s: State<T>, step: Step)
    requires Inv(feed, s) && |s.queue.buf| == 1
    ensures Next(feed, s, step).queue.pushed == s.queue.pushed
  {
  }
}
