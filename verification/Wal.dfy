/**
 The write-ahead log consumer (include/wal_consumer.hpp) over an abstract file: `log` is what
 was written to it and `durable` how much of that has reached the disk. Clock readings are
 parameters; writes and syncs are taken to succeed.
 */
module Wals {
  import opened Engines

  datatype Policy = Policy(everyN: nat, interval: int)

  datatype Wal = Wal(log: seq<Event>, durable: nat, unsynced: nat, lastSync: int, isOpen: bool)

  /** Sync when forced, or when something is unsynced and either threshold is reached. */
  function MaybeFsync(policy: Policy, w: Wal, force: bool, now: int, done: int): Wal {
    if w.unsynced == 0 && !force then w
    else if !force && w.unsynced < policy.everyN && now - w.lastSync < policy.interval then w
    else w.(durable := |w.log|, unsynced := 0, lastSync := done)
  }

  function Append(policy: Policy, w: Wal, ev: Event, now: int, done: int): Wal {
    MaybeFsync(policy, w.(log := w.log + [ev], unsynced := w.unsynced + 1), false, now, done)
  }

  function Close(policy: Policy, w: Wal, done: int): Wal {
    if !w.isOpen then w else MaybeFsync(policy, w, true, done, done).(isOpen := false)
  }

  /** The disk holds a prefix of the log, missing fewer than everyN records (none when everyN is 0). */
  ghost predicate DurableOk(policy: Policy, w: Wal) {
    && w.durable + w.unsynced == |w.log|
    && (w.unsynced == 0 || w.unsynced < policy.everyN)
  }

  // ---------- runs of appends and polls ----------

  /** An append, or a poll between appends, with the clock as read before and after a sync. */
  datatype LogOp = Write(ev: Event, now: int, done: int) | Idle(now: int, done: int)

  function Perform(policy: Policy, w: Wal, op: LogOp): Wal {
    match op
    case Write(ev, now, done) => Append(policy, w, ev, now, done)
    case Idle(now, done) => MaybeFsync(policy, w, false, now, done)
  }

  /** The log after a run, opened at t0. */
  function Journal(policy: Policy, t0: int, ops: seq<LogOp>): Wal {
    if ops == [] then Wal([], 0, 0, t0, true)
    else Perform(policy, Journal(policy, t0, ops[..|ops| - 1]), ops[|ops| - 1])
  }

  /** The records of a run. */
  function Written(ops: seq<LogOp>): seq<Event> {
    if ops == [] then []
    else Written(ops[..|ops| - 1]) + if ops[|ops| - 1].Write? then [ops[|ops| - 1].ev] else []
  }

  /** When the last sync of a run ended, or the log was opened: a sync is an operation at which more became durable. */
  function LastSync(policy: Policy, t0: int, ops: seq<LogOp>): int {
    if ops == [] then t0
    else
      var init := ops[..|ops| - 1];
      if Journal(policy, t0, ops).durable > Journal(policy, t0, init).durable then ops[|ops| - 1].done
      else LastSync(policy, t0, init)
  }

  /** One operation, on any log: when it syncs, and what it leaves unsynced. */
  lemma PerformSyncs(policy: Policy, w: Wal, op: LogOp)
    requires DurableOk(policy, w) && w.isOpen
    ensures var w' := Perform(policy, w, op);
            && DurableOk(policy, w') && w'.isOpen
            && w'.log == w.log + (if op.Write? then [op.ev] else [])
            && w'.durable == (if |w'.log| - w.durable < policy.everyN && op.now - w.lastSync < policy.interval
                              then w.durable else |w'.log|)
            && w'.lastSync == (if w'.durable > w.durable then op.done else w.lastSync)
  {
  }

  lemma {:induction false} JournalOk(policy: Policy, t0: int, ops: seq<LogOp>)
    ensures var w := Journal(policy, t0, ops);
            DurableOk(policy, w) && w.isOpen && w.log == Written(ops) && w.lastSync == LastSync(policy, t0, ops)
  {
    if ops == [] {
    } else {
      var init := ops[..|ops| - 1];
      JournalOk(policy, t0, init);
      PerformSyncs(policy, Journal(policy, t0, init), ops[|ops| - 1]);
    }
  }

  /**
   Exactly when a run syncs: an operation that finds fewer than everyN records not durable and
   the end of the last sync less than the interval ago leaves what is durable alone; any other
   makes everything written durable.
   */
  lemma {:induction false} SyncExact(policy: Policy, t0: int, ops: seq<LogOp>, op: LogOp)
    ensures var before, after := Journal(policy, t0, ops), Journal(policy, t0, ops + [op]);
            && after.log == Written(ops + [op])
            && after.durable == if |after.log| - before.durable < policy.everyN
                                   && op.now - LastSync(policy, t0, ops) < policy.interval
                                then before.durable else |after.log|
  {
    assert (ops + [op])[..|ops|] == ops;
    JournalOk(policy, t0, ops);
    JournalOk(policy, t0, ops + [op]);
    PerformSyncs(policy, Journal(policy, t0, ops), op);
  }

  /** Nothing is unsynced, or few records are and the last sync ended less than the interval before `now`. */
  ghost predicate InWindow(policy: Policy, t0: int, ops: seq<LogOp>, now: int) {
    var w := Journal(policy, t0, ops);
    || w.durable == |w.log|
    || (|w.log| - w.durable < policy.everyN && now - LastSync(policy, t0, ops) < policy.interval)
  }

  /**
   The loss window: after every append and every poll either everything written is durable, or
   fewer than everyN records are not and the last sync ended less than the interval before.
   */
  lemma {:induction false} LossWindow(policy: Policy, t0: int, ops: seq<LogOp>)
    requires ops != []
    ensures InWindow(policy, t0, ops, ops[|ops| - 1].now)
  {
    var n := |ops| - 1;
    assert ops == ops[..n] + [ops[n]];
    SyncExact(policy, t0, ops[..n], ops[n]);
  }

  /**
   Whatever the clock does, after any appends and polls the disk holds a prefix of the records
   missing fewer than everyN, and closing makes all of them durable.
   */
  lemma {:induction false} DurabilityOverRuns(policy: Policy, t0: int, ops: seq<LogOp>, end: int)
    ensures var w, closed := Journal(policy, t0, ops), Close(policy, Journal(policy, t0, ops), end);
            && w.log == Written(ops) && w.durable <= |w.log|
            && (policy.everyN >= 1 ==> |w.log| - w.durable < policy.everyN)
            && (policy.everyN == 0 ==> w.durable == |w.log|)
            && closed.log == Written(ops) && closed.durable == |closed.log| && !closed.isOpen
  {
    JournalOk(policy, t0, ops);
  }

  class WalConsumer {
    const policy: Policy
    var file: seq<Event>
    var durable: nat
    var isOpen: bool
    var unsynced: nat
    var lastSync: int
    var recordsWritten: nat

    ghost function View(): Wal
      reads this
    {
      Wal(file, durable, unsynced, lastSync, isOpen)
    }

    constructor (everyN: nat, interval: int)
      ensures policy == Policy(everyN, interval)
      ensures !isOpen && file == [] && durable == unsynced == recordsWritten == 0
    {
      policy := Policy(everyN, interval);
      file, durable, isOpen, unsynced, lastSync, recordsWritten := [], 0, false, 0, 0, 0;
    }

    method Open(now: int)
      modifies this`isOpen, this`lastSync
      ensures View() == old(View()).(isOpen := true, lastSync := now)
    {
      isOpen, lastSync := true, now;
    }

    method Sync(force: bool, now: int, done: int)
      modifies this`durable, this`unsynced, this`lastSync
      ensures View() == MaybeFsync(policy, old(View()), force, now, done)
    {
      if unsynced == 0 && !force {
        return;
      }
      if !force && unsynced < policy.everyN && now - lastSync < policy.interval {
        return;
      }
      durable := |file|;
      unsynced := 0;
      lastSync := done;
    }

    /** Writes one record. It syncs unless few records are unsynced and the last sync is recent, and notes when it did. */
    method AppendRecord(ev: Event, now: int, done: int)
      requires isOpen
      modifies this
      ensures View() == Append(policy, old(View()), ev, now, done)
      ensures recordsWritten == old(recordsWritten) + 1 && file == old(file) + [ev]
      ensures old(DurableOk(policy, View())) ==>
                && DurableOk(policy, View())
                && durable == (if |file| - old(durable) < policy.everyN && now - old(lastSync) < policy.interval
                               then old(durable) else |file|)
                && lastSync == if durable > old(durable) then done else old(lastSync)
    {
      ghost var before := View();
      file := file + [ev];
      recordsWritten := recordsWritten + 1;
      unsynced := unsynced + 1;
      Sync(false, now, done);
      if DurableOk(policy, before) {
        PerformSyncs(policy, before, Write(ev, now, done));
      }
    }

    /** Forces the rest of the log to disk. */
    method CloseFile(done: int)
      modifies this
      ensures View() == Close(policy, old(View()), done)
      ensures old(isOpen) ==> durable == |file| && unsynced == 0 && !isOpen
    {
      if !isOpen {
        return;
      }
      Sync(true, done, done);
      isOpen := false;
    }
  }

  /** A log opened and driven by appends and polls: its file and what of it is durable are those of the run. */
  method Drive(policy: Policy, t0: int, ops: seq<LogOp>) returns (wal: WalConsumer)
    ensures fresh(wal) && wal.View() == Journal(policy, t0, ops)
    ensures wal.file == Written(ops) && wal.lastSync == LastSync(policy, t0, ops)
  {
    wal := new WalConsumer(policy.everyN, policy.interval);
    wal.Open(t0);
    var i := 0;
    while i < |ops|
      invariant 0 <= i <= |ops| && fresh(wal)
      invariant wal.policy == policy && wal.View() == Journal(policy, t0, ops[..i])
    {
      JournalOk(policy, t0, ops[..i]);
      assert ops[..i + 1][..i] == ops[..i] && ops[..i + 1][i] == ops[i];
      if ops[i].Write? {
        wal.AppendRecord(ops[i].ev, ops[i].now, ops[i].done);
      } else {
        wal.Sync(false, ops[i].now, ops[i].done);
      }
      i := i + 1;
    }
    assert ops[..i] == ops;
    JournalOk(policy, t0, ops);
  }
}
