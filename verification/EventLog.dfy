/** The bounded log of conference events (core/MediaControlUnit.h, class EventManager). */
module EventLog {
  import opened ModArithmetic

  function Halved<E>(log: seq<E>, capacity: nat): seq<E> {
    if |log| >= capacity then log[|log| / 2..] else log
  }

  function Added<E>(log: seq<E>, capacity: nat, event: E): seq<E> {
    Halved(log, capacity) + [event]
  }

  /** The log after events were added to an empty one. */
  function Logged<E>(capacity: nat, events: seq<E>): seq<E>
    decreases |events|
  {
    if events == [] then [] else Added(Logged(capacity, events[..|events| - 1]), capacity, events[|events| - 1])
  }

  ghost predicate Latest<E>(log: seq<E>, events: seq<E>, capacity: nat) {
    && |log| <= |events| && log == events[|events| - |log|..]
    && |log| <= (if capacity >= 2 then capacity else 2)
  }

  /** The log always holds the latest events, in order, and not more than the capacity (or two). */
  lemma {:induction false} LogIsSuffix<E>(capacity: nat, events: seq<E>)
    ensures Latest(Logged(capacity, events), events, capacity)
    decreases |events|
  {
    if events == [] {
    } else {
      var before, last := events[..|events| - 1], events[|events| - 1];
      LogIsSuffix(capacity, before);
      assert events == before + [last];
      var log := Logged(capacity, before);
      AddKeepsLatest(log, capacity, before, last);
      assert Logged(capacity, events) == Added(log, capacity, last);
    }
  }

  lemma AddKeepsLatest<E>(log: seq<E>, capacity: nat, events: seq<E>, last: E)
    requires Latest(log, events, capacity)
    ensures Latest(Added(log, capacity, last), events + [last], capacity)
  {
    var kept := Halved(log, capacity);
    assert kept == events[|events| - |kept|..];
  }

  /** The exact size: full up to the capacity, then between half and full in a fixed cycle. */
  lemma {:induction false} LogSize<E>(capacity: nat, events: seq<E>)
    requires capacity >= 2
    ensures |Logged(capacity, events)| == SizeAfter(capacity, |events|)
    decreases |events|
  {
    if events == [] {
    } else {
      var n := |events| - 1;
      LogSize(capacity, events[..n]);
      SizeStep(capacity, n);
    }
  }

  function SizeAfter(capacity: nat, n: nat): nat
    requires capacity >= 2
  {
    if n <= capacity then n else capacity - capacity / 2 + 1 + (n - capacity - 1) % (capacity / 2)
  }

  lemma SizeStep(capacity: nat, n: nat)
    requires capacity >= 2
    ensures var size := SizeAfter(capacity, n);
            SizeAfter(capacity, n + 1) == (if size >= capacity then size - size / 2 else size) + 1
  {
    if n > capacity {
      Cycle(n - capacity - 1, capacity / 2);
    }
  }

  /** The next number in a cycle. */
  lemma Cycle(a: nat, m: nat)
    requires m > 0
    ensures (a + 1) % m == if a % m + 1 == m then 0 else a % m + 1
  {
    assert a == a / m * m + a % m;
    if a % m + 1 == m {
      assert a + 1 == (a / m + 1) * m + 0;
      UniqueMod(a + 1, m, a / m + 1, 0);
    } else {
      UniqueMod(a + 1, m, a / m, a % m + 1);
    }
  }

  class EventManager<E> {
    var eventList: seq<E>
    const capacity: nat

    constructor (cap: nat)
      ensures capacity == cap && eventList == []
    {
      capacity, eventList := cap, [];
    }

    /** Moves the newer half to the front when the log is full, then appends. */
    method Add(event: E)
      modifies this
      ensures eventList == Added(old(eventList), capacity, event)
      ensures var was := old(eventList);
              eventList == (if |was| >= capacity then was[|was| / 2..] else was) + [event]
    {
      if |eventList| >= capacity {
        var half := |eventList| / 2;
        eventList := eventList[half..];
      }
      eventList := eventList + [event];
    }

    /** Swaps the log with the caller's list. */
    method Get(list: seq<E>) returns (events: seq<E>)
      modifies this
      ensures events == old(eventList) && eventList == list
    {
      events, eventList := eventList, list;
    }
  }
}
