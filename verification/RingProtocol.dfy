/**
 The broadcast ring (include/broadcast_ring.hpp) as a step system: one step for each atomic
 load or store, one writer and any number of readers registered before the first publish,
 interleaved in every possible way. Sequential consistency is assumed, and counters do not wrap.
 */
module RingProtocol {
  import opened Types
  import opened Cursors

  /** Where try_publish stands; `w` is the write cursor it loaded. */
  datatype WriterPc<T> =
    | WIdle
    | WLoaded(item: T, w: nat)
    | WScan(item: T, w: nat, i: nat, min: Option<nat>)
    | WStore(item: T, w: nat)
    | WPublish(item: T, w: nat)
    | WReturn(ok: bool)

  /** Where a reader's try_consume stands; `c` is its own cursor as loaded. */
  datatype ReaderPc<T> =
    | RIdle
    | RLoaded(c: nat)
    | RCopy(c: nat)
    | RCommit(c: nat, out: T)
    | RReturn(got: Option<T>)

  /** Shared variables, program counters, and what was published and consumed so far. */
  datatype Ring<T> = Ring(slots: seq<T>, write: nat, cachedMin: nat, cursors: seq<nat>,
                          writer: WriterPc<T>, readers: seq<ReaderPc<T>>,
                          published: seq<T>, consumed: seq<seq<T>>)

  datatype Step<T> =
    | Publish(item: T)      // the writer enters try_publish and loads its cursor
    | WriterMove            // the writer's next load or store
    | WriterDone            // the writer takes the result of try_publish
    | Consume(r: nat)       // a reader enters try_consume and loads its cursor
    | ReaderMove(r: nat)    // that reader's next load or store
    | ReaderDone(r: nat)    // that reader takes the result of try_consume

  function Smaller(min: Option<nat>, c: nat): nat {
    if min.Some? && min.value <= c then min.value else c
  }

  function MoveWriter<T>(s: Ring<T>): Ring<T>
    requires |s.slots| > 0
  {
    match s.writer
    case WLoaded(item, w) =>
      if w - s.cachedMin >= |s.slots| then s.(writer := WScan(item, w, 0, None))
      else s.(writer := WStore(item, w))
    case WScan(item, w, i, min) =>
      if i < |s.cursors| then s.(writer := WScan(item, w, i + 1, Some(Smaller(min, s.cursors[i]))))
      else
        var slowest := if min.None? then s.write else min.value;
        s.(cachedMin := slowest,
           writer := if w - slowest >= |s.slots| then WReturn(false) else WStore(item, w))
    case WStore(item, w) =>
      s.(slots := s.slots[w % |s.slots| := item], writer := WPublish(item, w))
    case WPublish(item, w) =>
      s.(write := w + 1, published := s.published + [item], writer := WReturn(true))
    case _ => s
  }

  function MoveReader<T>(s: Ring<T>, r: nat): Ring<T>
    requires |s.slots| > 0 && r < |s.readers| == |s.cursors| == |s.consumed|
  {
    match s.readers[r]
    case RLoaded(c) =>
      s.(readers := s.readers[r := if c >= s.write then RReturn(None) else RCopy(c)])
    case RCopy(c) =>
      s.(readers := s.readers[r := RCommit(c, s.slots[c % |s.slots|])])
    case RCommit(c, out) =>
      s.(cursors := s.cursors[r := c + 1], consumed := s.consumed[r := s.consumed[r] + [out]],
         readers := s.readers[r := RReturn(Some(out))])
    case _ => s
  }

  predicate Shaped<T>(s: Ring<T>) {
    |s.slots| > 0 && |s.readers| == |s.cursors| == |s.consumed|
  }

  /** One step; a step that is not enabled changes nothing. */
  function Next<T>(s: Ring<T>, step: Step<T>): Ring<T>
    requires Shaped(s)
  {
    match step
    case Publish(item) => if s.writer.WIdle? then s.(writer := WLoaded(item, s.write)) else s
    case WriterMove => MoveWriter(s)
    case WriterDone => if s.writer.WReturn? then s.(writer := WIdle) else s
    case Consume(r) =>
      if r < |s.readers| && s.readers[r].RIdle? then s.(readers := s.readers[r := RLoaded(s.cursors[r])]) else s
    case ReaderMove(r) => if r < |s.readers| then MoveReader(s, r) else s
    case ReaderDone(r) =>
      if r < |s.readers| && s.readers[r].RReturn? then s.(readers := s.readers[r := RIdle]) else s
  }

  function Start<T>(capacity: nat, consumers: nat, blank: T): (s: Ring<T>)
    requires capacity > 0
    ensures Shaped(s)
  {
    Ring(seq(capacity, _ => blank), 0, 0, seq(consumers, _ => 0), WIdle, seq(consumers, _ => RIdle),
         [], seq(consumers, _ => []))
  }

  // ---------- the invariant ----------

  /** Events below this bound have been overwritten or are about to be. */
  function Horizon<T>(s: Ring<T>): int {
    (if s.writer.WPublish? then s.write + 1 else s.write) - |s.slots|
  }

  /** The ring still holds every published item a reader may need. */
  ghost predicate SlotsOk<T>(s: Ring<T>)
    requires |s.slots| > 0
  {
    && |s.published| == s.write
    && forall k :: 0 <= k < s.write && Horizon(s) <= k ==> s.slots[k % |s.slots|] == s.published[k]
  }

  ghost predicate CursorOk<T>(s: Ring<T>, r: nat)
    requires Shaped(s) && r < |s.cursors|
  {
    && s.cachedMin <= s.cursors[r] <= s.write
    && Horizon(s) <= s.cursors[r]
    && (s.writer.WStore? ==> s.write - s.cursors[r] < |s.slots|)
    && (s.writer.WScan? && r < s.writer.i ==> s.writer.min.Some? && s.writer.min.value <= s.cursors[r])
    && s.cursors[r] <= |s.published|
    && s.consumed[r] == s.published[..s.cursors[r]]
  }

  ghost predicate ReaderOk<T>(s: Ring<T>, r: nat)
    requires Shaped(s) && r < |s.cursors|
  {
    match s.readers[r]
    case RLoaded(c) => c == s.cursors[r]
    case RCopy(c) => c == s.cursors[r] < s.write
    case RCommit(c, out) => c == s.cursors[r] < |s.published| && out == s.published[c]
    case RReturn(got) => got.Some? ==> s.consumed[r] != [] && s.consumed[r][|s.consumed[r]| - 1] == got.value
    case RIdle => true
  }

  ghost predicate WriterOk<T>(s: Ring<T>)
    requires Shaped(s)
  {
    && s.cachedMin <= s.write
    && match s.writer
       case WLoaded(_, w) => w == s.write
       case WScan(_, w, i, min) =>
         && w == s.write && i <= |s.cursors|
         && (i == 0 ==> min.None?)
         && (i > 0 ==> min.Some? && s.write - |s.slots| <= min.value <= s.write)
       case WStore(_, w) => w == s.write
       case WPublish(item, w) => w == s.write && s.slots[w % |s.slots|] == item
       case _ => true
  }

  ghost predicate Inv<T>(s: Ring<T>) {
    && Shaped(s)
    && SlotsOk(s)
    && WriterOk(s)
    && (forall r :: 0 <= r < |s.cursors| ==> CursorOk(s, r))
    && (forall r :: 0 <= r < |s.cursors| ==> ReaderOk(s, r))
  }

  lemma StartInv<T>(capacity: nat, consumers: nat, blank: T)
    requires capacity > 0
    ensures Inv(Start(capacity, consumers, blank))
  {
  }

  /** Storing the next item spares every slot that some reader may still copy. */
  lemma {:induction false} StoreKeepsSlots<T>(s: Ring<T>)
    requires Inv(s) && s.writer.WStore?
    ensures SlotsOk(MoveWriter(s))
  {
    var w, cap := s.writer.w, |s.slots|;
    var s' := MoveWriter(s);
    forall k | 0 <= k < s'.write && Horizon(s') <= k ensures s'.slots[k % cap] == s'.published[k] {
      SlotApart(k, w, cap);
    }
  }

  lemma PublishKeepsSlots<T>(s: Ring<T>)
    requires Inv(s) && s.writer.WPublish?
    ensures SlotsOk(MoveWriter(s))
  {
  }

  lemma {:induction false} WriterKeepsReaders<T>(s: Ring<T>, r: nat)
    requires Inv(s) && r < |s.cursors|
    ensures Shaped(MoveWriter(s)) && CursorOk(MoveWriter(s), r) && ReaderOk(MoveWriter(s), r)
  {
    assert CursorOk(s, r) && ReaderOk(s, r);
    var s' := MoveWriter(s);
    if s.writer.WPublish? {
      assert s'.published[..s.cursors[r]] == s.published[..s.cursors[r]];
    }
  }

  lemma {:induction false} WriterStepKeepsInv<T>(s: Ring<T>)
    requires Inv(s)
    ensures Inv(MoveWriter(s))
  {
    var s' := MoveWriter(s);
    forall r | 0 <= r < |s.cursors| ensures CursorOk(s', r) && ReaderOk(s', r) {
      WriterKeepsReaders(s, r);
    }
    match s.writer
    case WStore(_, _) => StoreKeepsSlots(s);
    case WPublish(_, _) => PublishKeepsSlots(s);
    case WScan(_, _, i, _) =>
      if i < |s.cursors| {
        assert CursorOk(s, i);
      }
    case _ =>
  }

  /** What a reader copies is the item at its cursor; the others do not notice. */
  lemma {:induction false} ReaderKeepsReaders<T>(s: Ring<T>, r: nat, q: nat)
    requires Inv(s) && r < |s.cursors| && q < |s.cursors|
    ensures Shaped(MoveReader(s, r)) && CursorOk(MoveReader(s, r), q) && ReaderOk(MoveReader(s, r), q)
  {
    assert CursorOk(s, q) && ReaderOk(s, q);
    if q == r && s.readers[r].RCommit? {
      var c := s.readers[r].c;
      assert s.published[..c] + [s.published[c]] == s.published[..c + 1];
    }
  }

  lemma {:induction false} ReaderStepKeepsInv<T>(s: Ring<T>, r: nat)
    requires Inv(s) && r < |s.cursors|
    ensures Inv(MoveReader(s, r))
  {
    forall q | 0 <= q < |s.cursors| ensures CursorOk(MoveReader(s, r), q) && ReaderOk(MoveReader(s, r), q) {
      ReaderKeepsReaders(s, r, q);
    }
  }

  /** Entering and leaving a call touches nothing shared. */
  lemma {:induction false} CallsKeepReaders<T>(s: Ring<T>, step: Step<T>, q: nat)
    requires Inv(s) && q < |s.cursors| && !step.WriterMove? && !step.ReaderMove?
    ensures Shaped(Next(s, step)) && CursorOk(Next(s, step), q) && ReaderOk(Next(s, step), q)
  {
    assert CursorOk(s, q) && ReaderOk(s, q);
  }

  lemma {:induction false} NextKeepsInv<T>(s: Ring<T>, step: Step<T>)
    requires Inv(s)
    ensures Inv(Next(s, step))
  {
    if step.WriterMove? {
      WriterStepKeepsInv(s);
    } else if step.ReaderMove? {
      if step.r < |s.cursors| {
        ReaderStepKeepsInv(s, step.r);
      }
    } else {
      forall q | 0 <= q < |s.cursors| ensures CursorOk(Next(s, step), q) && ReaderOk(Next(s, step), q) {
        CallsKeepReaders(s, step, q);
      }
    }
  }

  // ---------- every interleaving ----------

  /** The state after a schedule of steps. */
  function Exec<T>(s: Ring<T>, steps: seq<Step<T>>): (s': Ring<T>)
    requires Shaped(s)
    ensures Shaped(s')
    ensures |s'.slots| == |s.slots| && |s'.cursors| == |s.cursors|
  {
    if steps == [] then s else Next(Exec(s, steps[..|steps| - 1]), steps[|steps| - 1])
  }

  lemma {:induction false} ExecKeepsInv<T>(s: Ring<T>, steps: seq<Step<T>>)
    requires Inv(s)
    ensures Inv(Exec(s, steps))
  {
    if steps == [] {
    } else {
      ExecKeepsInv(s, steps[..|steps| - 1]);
      NextKeepsInv(Exec(s, steps[..|steps| - 1]), steps[|steps| - 1]);
    }
  }

  /**
   Under every schedule, what a reader has consumed is exactly a prefix of what was
   published, of the length of its cursor, and no reader is more than a ring behind.
   */
  lemma {:induction false} ConsumedIsPrefix<T>(capacity: nat, consumers: nat, blank: T, steps: seq<Step<T>>, r: nat)
    requires capacity > 0 && r < consumers
    ensures var s := Exec(Start(capacity, consumers, blank), steps);
            && s.cursors[r] <= |s.published| <= s.cursors[r] + capacity
            && s.consumed[r] == s.published[..s.cursors[r]]
  {
    StartInv(capacity, consumers, blank);
    ExecKeepsInv(Start(capacity, consumers, blank), steps);
    assert CursorOk(Exec(Start(capacity, consumers, blank), steps), r);
  }

  /**
   Under every schedule, the slot the writer is about to store into is not one a reader is
   copying, and the item a reader is about to copy is the one published at its cursor.
   */
  lemma {:induction false} NoTornRead<T>(capacity: nat, consumers: nat, blank: T, steps: seq<Step<T>>, r: nat)
    requires capacity > 0 && r < consumers
    ensures var s := Exec(Start(capacity, consumers, blank), steps);
            s.readers[r].RCopy? ==>
              var c := s.readers[r].c;
              && (s.writer.WStore? ==> s.writer.w % capacity != c % capacity)
              && c < |s.published| && s.slots[c % capacity] == s.published[c]
  {
    var s0 := Start(capacity, consumers, blank);
    StartInv(capacity, consumers, blank);
    ExecKeepsInv(s0, steps);
    var s := Exec(s0, steps);
    assert CursorOk(s, r) && ReaderOk(s, r);
    if s.readers[r].RCopy? && s.writer.WStore? {
      SlotApart(s.readers[r].c, s.writer.w, capacity);
    }
  }

  /**
   The lazily cached gate is safe under every schedule although the scan reads cursors one at
   a time while they move: it never exceeds a cursor, and no item is stored when the slowest
   reader is a full ring behind.
   */
  lemma {:induction false} GateIsSafe<T>(capacity: nat, consumers: nat, blank: T, steps: seq<Step<T>>, r: nat)
    requires capacity > 0 && r < consumers
    ensures var s := Exec(Start(capacity, consumers, blank), steps);
            && s.cachedMin <= s.cursors[r]
            && (s.writer.WStore? ==> s.write - s.cursors[r] < capacity)
  {
    StartInv(capacity, consumers, blank);
    ExecKeepsInv(Start(capacity, consumers, blank), steps);
    assert CursorOk(Exec(Start(capacity, consumers, blank), steps), r);
  }

  /** From the j-th step of the schedule on, the writer has been in one and the same scan. */
  ghost predicate ScanningSince<T>(s: Ring<T>, steps: seq<Step<T>>, j: nat)
    requires Shaped(s)
  {
    forall k :: j <= k <= |steps| ==> Exec(s, steps[..k]).writer.WScan?
  }

  lemma {:induction false} ScanExtends<T>(s: Ring<T>, steps: seq<Step<T>>, j: nat)
    requires Shaped(s) && steps != [] && j < |steps| && Exec(s, steps).writer.WScan?
    requires ScanningSince(s, steps[..|steps| - 1], j)
    ensures ScanningSince(s, steps, j)
  {
    var n := |steps| - 1;
    forall k | j <= k <= |steps| ensures Exec(s, steps[..k]).writer.WScan? {
      if k <= n {
        assert steps[..k] == steps[..n][..k];
      } else {
        assert steps[..k] == steps;
      }
    }
  }

  /** A step that ends inside a scan either loads one more cursor or leaves the writer as it was. */
  lemma ScanStep<T>(s: Ring<T>, step: Step<T>)
    requires Shaped(s) && Next(s, step).writer.WScan? && Next(s, step).writer.min.Some?
    ensures s.writer.WScan? && Next(s, step).write == s.write
    ensures var i, min, min' := s.writer.i, s.writer.min, Next(s, step).writer.min;
            || Next(s, step).writer == s.writer
            || (i < |s.cursors| && Next(s, step).writer.i == i + 1 && min' == Some(Smaller(min, s.cursors[i])))
  {
  }

  /** The minimum a scan has found so far is a value one of the cursors had when the scan loaded it. */
  lemma {:induction false} ScanSawCursor<T>(s: Ring<T>, steps: seq<Step<T>>) returns (j: nat, r: nat)
    requires Shaped(s) && s.writer.WIdle?
    requires Exec(s, steps).writer.WScan? && Exec(s, steps).writer.min.Some?
    ensures j < |steps| && r < |s.cursors| && ScanningSince(s, steps, j)
    ensures var t, now := Exec(s, steps[..j]), Exec(s, steps);
            t.writer.WScan? && t.writer.i == r && t.write == now.write && t.cursors[r] == now.writer.min.value
  {
    var n := |steps| - 1;
    var before, now := Exec(s, steps[..n]), Exec(s, steps);
    ScanStep(before, steps[n]);
    if now.writer != before.writer && now.writer.min.value == before.cursors[before.writer.i] {
      j, r := n, before.writer.i;
      assert ScanningSince(s, steps[..n], n) by {
        assert steps[..n][..n] == steps[..n];
      }
    } else {
      j, r := ScanSawCursor(s, steps[..n]);
      assert steps[..n][..j] == steps[..j];
    }
    ScanExtends(s, steps, j);
  }

  /**
   A publish is refused only if, at a moment during the refusing call itself, some reader's
   cursor was loaded and was exactly a full ring behind.
   */
  lemma {:induction false} RefusalIsExact<T>(capacity: nat, consumers: nat, blank: T, steps: seq<Step<T>>)
    returns (j: nat, r: nat)
    requires capacity > 0
    requires var s := Exec(Start(capacity, consumers, blank), steps);
             s.writer.WScan? && MoveWriter(s).writer == WReturn(false)
    ensures j < |steps| && r < consumers
    ensures ScanningSince(Start(capacity, consumers, blank), steps, j)
    ensures var s0 := Start(capacity, consumers, blank);
            var loaded, s := Exec(s0, steps[..j]), Exec(s0, steps);
            && loaded.writer.WScan? && loaded.writer.i == r && loaded.write == s.write
            && loaded.cursors[r] == s.write - capacity == MoveWriter(s).cachedMin
  {
    var s0 := Start(capacity, consumers, blank);
    StartInv(capacity, consumers, blank);
    ExecKeepsInv(s0, steps);
    assert WriterOk(Exec(s0, steps));
    j, r := ScanSawCursor(s0, steps);
  }
}
