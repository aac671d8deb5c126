/**
 The single-producer single-consumer ring (include/spsc_ring_buffer.hpp) as a step system,
 one step for each atomic load or store of head, tail or a slot, in every interleaving of the
 two threads. It refines a bounded FIFO that holds one item less than its capacity.
 Sequential consistency is assumed.
 */
module Spsc {
  import opened Types
  import opened Cursors

  datatype ProducerPc<T> =
    | PIdle
    | PLoaded(item: T, head: nat)
    | PStore(item: T, head: nat)
    | PCommit(item: T, head: nat)
    | PReturn(ok: bool)

  datatype ConsumerPc<T> =
    | CIdle
    | CLoaded(tail: nat)
    | CCopy(tail: nat)
    | CCommit(tail: nat, out: T)
    | CReturn(got: Option<T>)
    | CEmpty(head: nat)
    | CEmptyReturn(isEmpty: bool)

  datatype Queue<T> = Queue(buf: seq<T>, head: nat, tail: nat, producer: ProducerPc<T>, consumer: ConsumerPc<T>,
                            pushed: seq<T>, popped: seq<T>)

  datatype Step<T> =
    | Push(item: T) | ProducerMove | ProducerDone
    | Pop | IsEmpty | ConsumerMove | ConsumerDone

  function MoveProducer<T>(s: Queue<T>): Queue<T>
    requires |s.buf| > 0 && s.head < |s.buf|
  {
    match s.producer
    case PLoaded(item, head) =>
      s.(producer := if (head + 1) % |s.buf| == s.tail then PReturn(false) else PStore(item, head))
    case PStore(item, head) =>
      if head < |s.buf| then s.(buf := s.buf[head := item], producer := PCommit(item, head)) else s
    case PCommit(item, head) =>
      s.(head := (head + 1) % |s.buf|, pushed := s.pushed + [item], producer := PReturn(true))
    case _ => s
  }

  function MoveConsumer<T>(s: Queue<T>): Queue<T>
    requires |s.buf| > 0
  {
    match s.consumer
    case CLoaded(tail) =>
      s.(consumer := if tail == s.head then CReturn(None) else CCopy(tail))
    case CCopy(tail) =>
      if tail < |s.buf| then s.(consumer := CCommit(tail, s.buf[tail])) else s
    case CCommit(tail, out) =>
      s.(tail := (tail + 1) % |s.buf|, popped := s.popped + [out], consumer := CReturn(Some(out)))
    case CEmpty(head) => s.(consumer := CEmptyReturn(head == s.tail))
    case _ => s
  }

  predicate Shaped<T>(s: Queue<T>) {
    |s.buf| > 0 && s.head < |s.buf| && s.tail < |s.buf|
  }

  /** One step; a step that is not enabled changes nothing. */
  function Next<T>(s: Queue<T>, step: Step<T>): (s': Queue<T>)
    requires Shaped(s)
    ensures Shaped(s') && |s'.buf| == |s.buf|
  {
    match step
    case Push(item) => if s.producer.PIdle? then s.(producer := PLoaded(item, s.head)) else s
    case ProducerMove => MoveProducer(s)
    case ProducerDone => if s.producer.PReturn? then s.(producer := PIdle) else s
    case Pop => if s.consumer.CIdle? then s.(consumer := CLoaded(s.tail)) else s
    case IsEmpty => if s.consumer.CIdle? then s.(consumer := CEmpty(s.head)) else s
    case ConsumerMove => MoveConsumer(s)
    case ConsumerDone => if s.consumer.CReturn? || s.consumer.CEmptyReturn? then s.(consumer := CIdle) else s
  }

  function Start<T>(capacity: nat, blank: T): (s: Queue<T>)
    requires capacity > 0
    ensures Shaped(s)
  {
    Queue(seq(capacity, _ => blank), 0, 0, PIdle, CIdle, [], [])
  }

  /** The queue contents: pushed and not yet popped. */
  function Contents<T>(s: Queue<T>): seq<T>
    requires |s.popped| <= |s.pushed|
  {
    s.pushed[|s.popped|..]
  }

  // ---------- the invariant ----------

  /** Head and tail are the push and pop counts wrapped around the buffer, which holds the contents. */
  ghost predicate BufferOk<T>(s: Queue<T>)
    requires Shaped(s)
  {
    var cap := |s.buf|;
    && |s.popped| <= |s.pushed| < |s.popped| + cap
    && s.popped == s.pushed[..|s.popped|]
    && s.head == |s.pushed| % cap && s.tail == |s.popped| % cap
    && (forall k :: |s.popped| <= k < |s.pushed| ==> s.buf[k % cap] == s.pushed[k])
  }

  ghost predicate ProducerOk<T>(s: Queue<T>)
    requires Shaped(s)
  {
    match s.producer
    case PLoaded(_, head) => head == s.head
    case PStore(_, head) => head == s.head && |s.pushed| + 1 < |s.popped| + |s.buf|
    case PCommit(item, head) => head == s.head && |s.pushed| + 1 < |s.popped| + |s.buf| && s.buf[head] == item
    case _ => true
  }

  ghost predicate ConsumerOk<T>(s: Queue<T>)
    requires Shaped(s)
  {
    match s.consumer
    case CLoaded(tail) => tail == s.tail
    case CCopy(tail) => tail == s.tail && |s.popped| < |s.pushed|
    case CCommit(tail, out) => tail == s.tail && |s.popped| < |s.pushed| && out == s.pushed[|s.popped|]
    case CReturn(got) => got.Some? ==> s.popped != [] && s.popped[|s.popped| - 1] == got.value
    case _ => true
  }

  ghost predicate Inv<T>(s: Queue<T>) {
    Shaped(s) && BufferOk(s) && ProducerOk(s) && ConsumerOk(s)
  }

  lemma StartInv<T>(capacity: nat, blank: T)
    requires capacity > 0
    ensures Inv(Start(capacity, blank))
  {
  }

  /** The producer's full test is exact: it sees the tail wrap to its next slot only when capacity - 1 items are queued. */
  lemma {:induction false} FullTest<T>(s: Queue<T>)
    requires Inv(s)
    ensures (s.head + 1) % |s.buf| == s.tail <==> |Contents(s)| == |s.buf| - 1
  {
    ModNext(|s.pushed|, |s.buf|);
    SameSlot(|s.pushed| + 1, |s.popped|, |s.buf|);
  }

  /** The consumer's empty test is exact. */
  lemma {:induction false} EmptyTest<T>(s: Queue<T>)
    requires Inv(s)
    ensures s.tail == s.head <==> Contents(s) == []
  {
    SameSlot(|s.pushed|, |s.popped|, |s.buf|);
  }

  lemma {:induction false} ProducerStepKeepsInv<T>(s: Queue<T>)
    requires Inv(s)
    ensures Inv(MoveProducer(s))
  {
    var s', cap := MoveProducer(s), |s.buf|;
    match s.producer
    case PLoaded(_, _) => FullTest(s);
    case PStore(item, head) =>
      forall k | |s.popped| <= k < |s.pushed| ensures s'.buf[k % cap] == s.pushed[k] {
        SlotApart(k, |s.pushed|, cap);
      }
    case PCommit(item, head) =>
      ModNext(|s.pushed|, cap);
      assert s'.pushed[..|s.popped|] == s.pushed[..|s.popped|];
    case _ =>
  }

  lemma {:induction false} ConsumerStepKeepsInv<T>(s: Queue<T>)
    requires Inv(s)
    ensures Inv(MoveConsumer(s))
  {
    match s.consumer
    case CLoaded(_) => EmptyTest(s);
    case CCommit(_, _) =>
      ModNext(|s.popped|, |s.buf|);
      assert s.pushed[..|s.popped| + 1] == s.pushed[..|s.popped|] + [s.pushed[|s.popped|]];
    case _ =>
  }

  lemma {:induction false} NextKeepsInv<T>(s: Queue<T>, step: Step<T>)
    requires Inv(s)
    ensures Inv(Next(s, step))
  {
    match step
    case ProducerMove => ProducerStepKeepsInv(s);
    case ConsumerMove => ConsumerStepKeepsInv(s);
    case _ =>
  }

  function Exec<T>(s: Queue<T>, steps: seq<Step<T>>): (s': Queue<T>)
    requires Shaped(s)
    ensures Shaped(s') && |s'.buf| == |s.buf|
  {
    if steps == [] then s else Next(Exec(s, steps[..|steps| - 1]), steps[|steps| - 1])
  }

  lemma {:induction false} ExecKeepsInv<T>(s: Queue<T>, steps: seq<Step<T>>)
    requires Inv(s)
    ensures Inv(Exec(s, steps))
  {
    if steps == [] {
    } else {
      ExecKeepsInv(s, steps[..|steps| - 1]);
      NextKeepsInv(Exec(s, steps[..|steps| - 1]), steps[|steps| - 1]);
    }
  }

  // ---------- refinement of a bounded FIFO ----------

  /** One abstract step of a FIFO that holds at most `room` items. */
  ghost predicate FifoStep<T>(room: int, q: seq<T>, q': seq<T>) {
    || q' == q
    || (|q| < room && q' != [] && q'[..|q'| - 1] == q)
    || (q != [] && q' == q[1..])
  }

  /** A refused push saw a full queue; a fruitless pop saw an empty one; a pop gave the front item. */
  ghost predicate ResultsOk<T>(s: Queue<T>, s': Queue<T>)
    requires Shaped(s) && |s.popped| <= |s.pushed| && |s'.popped| <= |s'.pushed|
  {
    && (s.producer.PLoaded? && s'.producer == PReturn(false) ==> |Contents(s)| == |s.buf| - 1)
    && (s.consumer.CLoaded? && s'.consumer == CReturn(None) ==> Contents(s) == [])
    && (s.consumer.CCommit? && s'.consumer.CReturn? ==>
          Contents(s) != [] && s'.consumer.got == Some(Contents(s)[0]) && Contents(s') == Contents(s)[1..])
    && (s.producer.PCommit? && s'.producer.PReturn? ==> Contents(s') == Contents(s) + [s.producer.item])
  }

  /**
   Every step of every interleaving is a step of a FIFO of capacity - 1 items, or changes
   nothing in it, and what push and pop report is true of the FIFO at that step.
   */
  lemma {:induction false} RefinesFifo<T>(capacity: nat, blank: T, steps: seq<Step<T>>, step: Step<T>)
    requires capacity > 0
    ensures var s := Exec(Start(capacity, blank), steps);
            var s' := Next(s, step);
            && |s.popped| <= |s.pushed| && |s'.popped| <= |s'.pushed|
            && |Contents(s)| <= capacity - 1
            && FifoStep(capacity - 1, Contents(s), Contents(s'))
            && ResultsOk(s, s')
  {
    var s0 := Start(capacity, blank);
    StartInv(capacity, blank);
    ExecKeepsInv(s0, steps);
    var s := Exec(s0, steps);
    NextKeepsInv(s, step);
    StepRefines(s, step);
  }

  lemma {:induction false} ProducerRefines<T>(s: Queue<T>)
    requires Inv(s) && Inv(MoveProducer(s))
    ensures FifoStep(|s.buf| - 1, Contents(s), Contents(MoveProducer(s)))
    ensures ResultsOk(s, MoveProducer(s))
  {
    var s' := MoveProducer(s);
    FullTest(s);
    if s.producer.PCommit? {
      assert Contents(s') == Contents(s) + [s.producer.item];
      assert Contents(s')[..|Contents(s)|] == Contents(s);
    }
  }

  lemma {:induction false} ConsumerRefines<T>(s: Queue<T>)
    requires Inv(s) && Inv(MoveConsumer(s))
    ensures FifoStep(|s.buf| - 1, Contents(s), Contents(MoveConsumer(s)))
    ensures ResultsOk(s, MoveConsumer(s))
  {
    EmptyTest(s);
    if s.consumer.CCommit? {
      assert Contents(MoveConsumer(s)) == Contents(s)[1..];
    }
  }

  lemma {:induction false} StepRefines<T>(s: Queue<T>, step: Step<T>)
    requires Inv(s) && Inv(Next(s, step))
    ensures FifoStep(|s.buf| - 1, Contents(s), Contents(Next(s, step)))
    ensures ResultsOk(s, Next(s, step))
  {
    if step.ProducerMove? {
      ProducerRefines(s);
    } else if step.ConsumerMove? {
      ConsumerRefines(s);
    }
  }

  // ---------- empty() ----------

  /** From the load of the head at step i up to step n, the consumer stays in that call of empty() and pops nothing. */
  lemma {:induction false} EmptyCall<T>(s: Queue<T>, steps: seq<Step<T>>, i: nat, n: nat)
    requires Shaped(s) && i < n <= |steps| && steps[i].IsEmpty? && Exec(s, steps[..i]).consumer.CIdle?
    requires forall k :: i < k < n ==> !steps[k].ConsumerMove?
    ensures var loaded, now := Exec(s, steps[..i]), Exec(s, steps[..n]);
            now.consumer == CEmpty(loaded.head) && now.tail == loaded.tail
    decreases n
  {
    assert steps[..n][..n - 1] == steps[..n - 1];
    if n == i + 1 {
    } else {
      EmptyCall(s, steps, i, n - 1);
    }
  }

  /**
   What empty() answers, under every schedule: it loads the head at step i and compares at step j,
   and says true exactly if the queue was empty at step i, whatever is pushed in between.
   */
  lemma {:induction false} EmptyAnswer<T>(capacity: nat, blank: T, steps: seq<Step<T>>, i: nat, j: nat)
    requires capacity > 0 && i < j < |steps| && steps[i].IsEmpty? && steps[j].ConsumerMove?
    requires Exec(Start(capacity, blank), steps[..i]).consumer.CIdle?
    requires forall k :: i < k < j ==> !steps[k].ConsumerMove?
    ensures var loaded := Exec(Start(capacity, blank), steps[..i]);
            && |loaded.popped| <= |loaded.pushed|
            && Exec(Start(capacity, blank), steps[..j + 1]).consumer == CEmptyReturn(Contents(loaded) == [])
  {
    var s0 := Start(capacity, blank);
    StartInv(capacity, blank);
    ExecKeepsInv(s0, steps[..i]);
    EmptyTest(Exec(s0, steps[..i]));
    EmptyCall(s0, steps, i, j);
    assert steps[..j + 1][..j] == steps[..j];
  }

  /** The producer never stores into the slot the consumer is copying. */
  lemma {:induction false} NoTornPop<T>(capacity: nat, blank: T, steps: seq<Step<T>>)
    requires capacity > 0
    ensures var s := Exec(Start(capacity, blank), steps);
            s.producer.PStore? && s.consumer.CCopy? ==> s.producer.head != s.consumer.tail
  {
    StartInv(capacity, blank);
    ExecKeepsInv(Start(capacity, blank), steps);
    EmptyTest(Exec(Start(capacity, blank), steps));
  }
}
