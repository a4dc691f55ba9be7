/** The replay history: recent events, bounded in number and in bytes. */
module History {
  import opened Base

  // A serialized event.
  type Event = Bytes

  const HISTORY_BYTES: nat := 8 * 1024 * 1024
  const HISTORY_EVENTS: nat := 2000

  function Size(events: seq<Event>): nat {
    if events == [] then 0 else |events[0]| + Size(events[1..])
  }

  predicate Fits(events: seq<Event>) {
    |events| <= HISTORY_EVENTS && Size(events) <= HISTORY_BYTES
  }

  predicate Oversized(e: Event) {
    |e| > HISTORY_BYTES
  }

  // The events that can be replayed at all.
  function Kept(events: seq<Event>): seq<Event> {
    if events == [] then []
    else Kept(events[..|events| - 1]) + if Oversized(events[|events| - 1]) then [] else [events[|events| - 1]]
  }

  // The history after one more event: the oldest give way until the new one fits.
  function MakeRoom(history: seq<Event>, e: Event): seq<Event> {
    if history == [] || Fits(history + [e]) then history else MakeRoom(history[1..], e)
  }

  function Pushed(history: seq<Event>, e: Event): seq<Event> {
    if Oversized(e) then history else MakeRoom(history, e) + [e]
  }

  /* ---------- the ring ---------- */

  class Ring {
    var history: seq<Event>
    var historyBytes: nat

    ghost predicate Valid()
      reads this
    {
      historyBytes == Size(history) && Fits(history)
    }

    constructor ()
      ensures Valid() && history == []
    {
      history, historyBytes := [], 0;
    }

    method Push(event: Event)
      requires Valid()
      modifies this
      ensures Valid() && history == Pushed(old(history), event)
    {
      if |event| <= HISTORY_BYTES {
        while |history| >= HISTORY_EVENTS || historyBytes + |event| > HISTORY_BYTES
          invariant Valid()
          invariant MakeRoom(old(history), event) == MakeRoom(history, event)
          decreases |history|
        {
          SizeSnoc(history, event);
          var oldest := history[0];
          history := history[1..];
          historyBytes := historyBytes - |oldest|;
        }
        SizeSnoc(history, event);
        historyBytes := historyBytes + |event|;
        history := history + [event];
      }
    }

    method ClearHistory()
      modifies this
      ensures Valid() && history == []
    {
      history, historyBytes := [], 0;
    }
  }

  /* ---------- what the ring holds ---------- */

  lemma {:induction false} SizeSnoc(events: seq<Event>, e: Event)
    ensures Size(events + [e]) == Size(events) + |e|
  {
    if events == [] {
      assert events + [e] == [e];
      assert Size([e][1..]) == 0;
    } else {
      assert (events + [e])[1..] == events[1..] + [e];
      SizeSnoc(events[1..], e);
    }
  }

  // The last n events.
  function Last(events: seq<Event>, n: nat): seq<Event>
    requires n <= |events|
  {
    events[|events| - n..]
  }

  // A suffix of the log that fits, and no longer suffix does.
  predicate LongestFitting(history: seq<Event>, log: seq<Event>) {
    && |history| <= |log| && history == Last(log, |history|) && Fits(history)
    && forall n | |history| < n <= |log| :: !Fits(Last(log, n))
  }

  lemma FitsWithout(events: seq<Event>, e: Event)
    requires Fits(events + [e])
    ensures Fits(events)
  {
    SizeSnoc(events, e);
  }

  lemma LastSnoc(log: seq<Event>, e: Event, n: nat)
    requires n <= |log|
    ensures Last(log + [e], n + 1) == Last(log, n) + [e]
  {
  }

  // Making room drops no more than it must.
  lemma {:induction false} MakeRoomExact(log: seq<Event>, n: nat, e: Event)
    requires n <= |log| && !Oversized(e)
    requires forall k | n < k <= |log| :: !Fits(Last(log, k) + [e])
    ensures var room := MakeRoom(Last(log, n), e);
            && |room| <= n && room == Last(log, |room|) && Fits(room + [e])
            && forall k | |room| < k <= |log| :: !Fits(Last(log, k) + [e])
    decreases n
  {
    var h := Last(log, n);
    if h == [] {
      SizeSnoc([], e);
    } else if !Fits(h + [e]) {
      assert h[1..] == Last(log, n - 1);
      MakeRoomExact(log, n - 1, e);
    }
  }

  lemma PushLongest(history: seq<Event>, log: seq<Event>, e: Event)
    requires LongestFitting(history, log) && !Oversized(e)
    ensures LongestFitting(Pushed(history, e), log + [e])
  {
    forall k | |history| < k <= |log| ensures !Fits(Last(log, k) + [e]) {
      if Fits(Last(log, k) + [e]) {
        FitsWithout(Last(log, k), e);
      }
    }
    MakeRoomExact(log, |history|, e);
    var room := MakeRoom(history, e);
    LastSnoc(log, e, |room|);
    forall n | |room| + 1 < n <= |log| + 1 ensures !Fits(Last(log + [e], n)) {
      LastSnoc(log, e, n - 1);
    }
  }

  function PushedAll(events: seq<Event>): seq<Event> {
    if events == [] then [] else Pushed(PushedAll(events[..|events| - 1]), events[|events| - 1])
  }

  // After any run of events the history is the longest suffix within both bounds of the events
  // that are not oversized.
  lemma {:induction false} HistoryExact(events: seq<Event>)
    ensures LongestFitting(PushedAll(events), Kept(events))
  {
    if events != [] {
      var init, e := events[..|events| - 1], events[|events| - 1];
      HistoryExact(init);
      if Oversized(e) {
        assert Kept(events) == Kept(init) + [] == Kept(init);
      } else {
        PushLongest(PushedAll(init), Kept(init), e);
      }
    }
  }
}
