/** The consumer loop over a whole stream of events, from an empty engine. */
module Drains {
  import opened Engines
  import opened EngineLaws
  import opened MatchingEngines

  /**
   Draining a whole stream: increasing sequence numbers alone keep every call's id fresh, and
   the running engine ends where the abstract run ends, with the same acks.
   */
  method Drain(poolCapacity: nat, events: seq<Event>) returns (m: MatchingEngineConsumer)
    requires Increasing(events)
    ensures m.Valid() && m.View() == Run(poolCapacity, events).engine
    ensures m.acks == Run(poolCapacity, events).acks
  {
    m := new MatchingEngineConsumer(poolCapacity);
    var i := 0;
    while i < |events|
      invariant 0 <= i <= |events|
      invariant fresh(m) && fresh(m.book) && fresh(m.book.pool)
      invariant fresh(m.book.pool.storage) && fresh(m.book.pool.nextFree)
      invariant m.Valid() && m.book.pool.storage.Length == poolCapacity
      invariant m.View() == Run(poolCapacity, events[..i]).engine
      invariant m.acks == Run(poolCapacity, events[..i]).acks
    {
      NextIsFresh(poolCapacity, events, i);
      PrefixNext(events, i);
      RunOne(poolCapacity, events[..i], events[i]);
      m.Apply(events[i]);
      i := i + 1;
    }
    assert events[..i] == events;
  }

  lemma PrefixNext(events: seq<Event>, i: nat)
    requires i < |events|
    ensures events[..i + 1] == events[..i] + [events[i]]
  {
  }
}
