/**
 * os/x11/event_queue.cpp: the X11 event queue.
 *
 * The library's own FIFO (`m_events`, a concurrent queue used here from
 * one thread) is the sequence `events`.  The X connection is reduced to
 * the events it has already queued (`pending`) and the events it holds
 * after a wait (`arriving`, an input); XSync is not part of this model.
 * Finding the WindowX11 of an X window is the function `windows`, and the
 * events that window queues when it handles an XEvent are `react`.  The
 * clock is an input too: `elapsed` is the time the call has taken when it
 * decides how long to wait.
 */
module X11EventQueue {
  import opened Wrappers
  import opened Events

  /** base::tick_t is a 64-bit unsigned count of milliseconds. */
  const TickModulus: int := 0x1_0000_0000_0000_0000

  /** An XEvent: the X window it is for, and the rest. */
  datatype XEvent = XEvent(xwindow: nat, detail: int)

  /**
   * The timeout of getEvent: EventQueue::kWithoutTimeout, or a number of
   * milliseconds (the seconds of the source times 1000, truncated).
   */
  datatype Timeout = WithoutTimeout | Millis(ms: int)

  /** struct timeval */
  datatype TimeVal = TimeVal(sec: int, usec: int)

  /** wait_file_descriptor_for_reading: milliseconds split into whole seconds and the remaining microseconds. */
  function SelectTimeout(ms: nat): (tv: TimeVal)
    ensures tv.sec * 1_000_000 + tv.usec == ms * 1000
    ensures 0 <= tv.usec < 1_000_000 && tv.sec >= 0
  {
    var tv := TimeVal(ms / 1000, (ms % 1000) * 1000);
    assert tv.sec * 1_000_000 == (ms / 1000) * 1000 * 1000;
    tv
  }

  /**
   * The wait of getEvent as written: `timeoutMsecs - elapsedMsecs` is a
   * difference of unsigned 64-bit ticks, so it wraps, and `> 0` only asks
   * whether it is non-zero.
   */
  function WaitAsWritten(timeoutMs: nat, elapsed: nat): (w: Option<nat>)
    requires timeoutMs < TickModulus && elapsed < TickModulus
    ensures w.Some? <==> timeoutMs != elapsed
    ensures w.Some? ==> w.value < TickModulus
    ensures w.Some? && elapsed < timeoutMs ==> w.value + elapsed == timeoutMs
  {
    var diff := (timeoutMs - elapsed) % TickModulus;
    if diff > 0 then Some(diff) else None
  }

  /**
   * When the call has already taken longer than its timeout, the wrapped
   * difference asks `select` to wait about 585 million years instead of
   * not at all.
   */
  lemma WaitAsWrittenOverruns()
    ensures WaitAsWritten(10, 11) == Some(TickModulus - 1)
    ensures WaitAsWritten(10, 11).value > 10
  {
  }

  /** The intended wait: what is left of the timeout, and no wait once it has run out. */
  function Wait(timeoutMs: nat, elapsed: nat): (w: Option<nat>)
    ensures w.Some? <==> elapsed < timeoutMs
    ensures w.Some? ==> w.value > 0 && w.value + elapsed == timeoutMs
  {
    if timeoutMs > elapsed then Some(timeoutMs - elapsed) else None
  }

  /** The events a WindowX11 queues for one XEvent; an XEvent with no window (MappingNotify) queues nothing. */
  function Reaction(windows: nat -> Option<nat>, react: (nat, XEvent) -> seq<Event>, e: XEvent): seq<Event>
  {
    match windows(e.xwindow)
    case Some(w) => react(w, e)
    case None => []
  }

  /** The events queued by handling a series of XEvents, in order. */
  function Reactions(windows: nat -> Option<nat>, react: (nat, XEvent) -> seq<Event>, xs: seq<XEvent>): (r: seq<Event>)
    ensures (forall i :: 0 <= i < |xs| ==> windows(xs[i].xwindow).None?) ==> r == []
    ensures |xs| == 1 ==> r == Reaction(windows, react, xs[0])
  {
    if xs == [] then [] else Reactions(windows, react, xs[..|xs| - 1]) + Reaction(windows, react, xs[|xs| - 1])
  }

  lemma ReactionsNext(windows: nat -> Option<nat>, react: (nat, XEvent) -> seq<Event>, xs: seq<XEvent>, i: nat)
    requires i < |xs|
    ensures Reactions(windows, react, xs[..i + 1]) == Reactions(windows, react, xs[..i]) + Reaction(windows, react, xs[i])
  {
    assert xs[..i + 1][..i] == xs[..i];
  }

  /**
   * The XEvents the connection holds when getEvent starts reading them:
   * the queued ones if any, else those that came while it waited or
   * blocked, else none.
   */
  function Available(pending: seq<XEvent>, timeout: Timeout, arriving: seq<XEvent>): seq<XEvent>
  {
    if |pending| > 0 then pending
    else if timeout.WithoutTimeout? || timeout.ms > 0 then arriving
    else []
  }

  /** How many XEvents getEvent reads. */
  function ReadCount(pending: seq<XEvent>, timeout: Timeout, arriving: seq<XEvent>): (n: nat)
    ensures n <= |Available(pending, timeout, arriving)| || (timeout.WithoutTimeout? && |pending| == 0)
  {
    if |pending| > 0 then |pending|
    else if timeout.WithoutTimeout? then 1
    else if timeout.ms > 0 then |arriving|
    else 0
  }

  /** The wait getEvent asks `select` for. */
  function WaitOf(pending: seq<XEvent>, timeout: Timeout, elapsed: nat): Option<nat>
  {
    if |pending| == 0 && timeout.Millis? && timeout.ms > 0 then Wait(timeout.ms, elapsed) else None
  }

  /** EventQueueX11 */
  class EventQueueX11 {
    var events: seq<Event>
    var pending: seq<XEvent>
    var waits: seq<TimeVal>

    constructor ()
      ensures events == [] && pending == [] && waits == []
    {
      events := [];
      pending := [];
      waits := [];
    }

    /** queueEvent: at the back of the FIFO. */
    method QueueEvent(ev: Event)
      modifies this
      ensures events == old(events) + [ev]
      ensures pending == old(pending) && waits == old(waits)
    {
      events := events + [ev];
    }

    /** clearEvents: the FIFO is emptied; the X connection is left alone. */
    method ClearEvents()
      modifies this
      ensures events == [] && pending == old(pending) && waits == old(waits)
    {
      events := [];
    }

    /** processX11Event: the event's window, if it has one, handles it. */
    method ProcessX11Event(e: XEvent, windows: nat -> Option<nat>, react: (nat, XEvent) -> seq<Event>)
      modifies this
      ensures events == old(events) + Reaction(windows, react, e)
      ensures pending == old(pending) && waits == old(waits)
    {
      var w := windows(e.xwindow);
      if w.Some? {
        events := events + react(w.value, e);
      }
    }

    /**
     * getEvent.  `ev0` is the event the caller passes in: its window is
     * cleared first, and when the FIFO stays empty only its type changes,
     * to None.  Without a timeout and with nothing queued, the call blocks
     * for one event, so something has to arrive.
     */
    method GetEvent(ev0: Event, timeout: Timeout, elapsed: nat, arriving: seq<XEvent>,
                    windows: nat -> Option<nat>, react: (nat, XEvent) -> seq<Event>)
      returns (ev: Event, read: nat)
      requires timeout.WithoutTimeout? && |pending| == 0 ==> |arriving| >= 1
      modifies this
      ensures read == ReadCount(old(pending), timeout, arriving)
      ensures var avail := Available(old(pending), timeout, arriving);
              read <= |avail| && pending == avail[read..] &&
              var fifo := old(events) + Reactions(windows, react, avail[..read]);
              (|fifo| > 0 ==> ev == fifo[0] && events == fifo[1..]) &&
              (|fifo| == 0 ==> ev == ev0.(kind := NoneEvent, window := None) && events == [])
      ensures var w := WaitOf(old(pending), timeout, elapsed);
              waits == old(waits) + (if w.Some? then [SelectTimeout(w.value)] else [])
    {
      ev := ev0.(window := None);
      read := CountNative(timeout, elapsed, arriving);
      ReadNative(read, windows, react);
      if |events| > 0 {
        ev := events[0];
        events := events[1..];
      } else {
        ev := ev.(kind := NoneEvent);
      }
    }

    /** The first half of getEvent: how many XEvents to read, after waiting for them if need be. */
    method CountNative(timeout: Timeout, elapsed: nat, arriving: seq<XEvent>) returns (count: nat)
      requires timeout.WithoutTimeout? && |pending| == 0 ==> |arriving| >= 1
      modifies this
      ensures count == ReadCount(old(pending), timeout, arriving) && count <= |pending|
      ensures pending == Available(old(pending), timeout, arriving) && events == old(events)
      ensures var w := WaitOf(old(pending), timeout, elapsed);
              waits == old(waits) + (if w.Some? then [SelectTimeout(w.value)] else [])
    {
      count := |pending|;
      if count == 0 {
        if timeout.WithoutTimeout? {
          pending := arriving;
          count := 1;
        } else if timeout.ms > 0 {
          var w := Wait(timeout.ms, elapsed);
          if w.Some? {
            waits := waits + [SelectTimeout(w.value)];
          }
          pending := arriving;
          count := |pending|;
        }
      }
    }

    /** The second half of getEvent: every counted XEvent is handled, in order, before the FIFO is popped. */
    method ReadNative(count: nat, windows: nat -> Option<nat>, react: (nat, XEvent) -> seq<Event>)
      requires count <= |pending|
      modifies this
      ensures pending == old(pending)[count..] && waits == old(waits)
      ensures events == old(events) + Reactions(windows, react, old(pending)[..count])
    {
      ghost var avail := pending;
      var i := 0;
      while i < count
        invariant 0 <= i <= count
        invariant pending == avail[i..] && waits == old(waits)
        invariant events == old(events) + Reactions(windows, react, avail[..i])
      {
        var e := pending[0];
        pending := pending[1..];
        ProcessX11Event(e, windows, react);
        ReactionsNext(windows, react, avail, i);
        i := i + 1;
      }
    }
  }

  /** Two events queued one after the other come out in the same order. */
  method QueueOrder(a: Event, b: Event, windows: nat -> Option<nat>, react: (nat, XEvent) -> seq<Event>)
    returns (first: Event, second: Event)
    ensures first == a && second == b
  {
    var q := new EventQueueX11();
    q.QueueEvent(a);
    q.QueueEvent(b);
    var n;
    first, n := q.GetEvent(a, Millis(0), 0, [], windows, react);
    second, n := q.GetEvent(a, Millis(0), 0, [], windows, react);
  }

  /** With nothing queued and a zero timeout, getEvent neither waits nor reads the connection, and reports None. */
  method PollEmpty(ev0: Event, arriving: seq<XEvent>, windows: nat -> Option<nat>, react: (nat, XEvent) -> seq<Event>)
    returns (ev: Event, read: nat, waited: bool)
    ensures ev.kind == NoneEvent && ev.window.None? && read == 0 && !waited
  {
    var q := new EventQueueX11();
    ev, read := q.GetEvent(ev0, Millis(0), 0, arriving, windows, react);
    waited := q.waits != [];
  }
}
