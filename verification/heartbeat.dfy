/**
  The remote's connection heartbeat.  Every two seconds a ping goes out and
  its send time is remembered; a pong clears the remembered time and
  reports the round trip.  A tick that finds the previous ping still
  unanswered reports the connection lost.  The ticker and the radio are
  the events' source; the clock reading of each event is part of it.
 */
module Heartbeat {
  import opened Wrappers
  import opened Clock

  /** What the drone answers with. */
  datatype Response = Pong | Log(text: string)

  /** The two things the loop waits for, each with the clock reading it is handled at. */
  datatype Event = Tick(now: Ticks) | Received(response: Response, now: Ticks)

  /** What the loop writes to the log. */
  datatype Report = ConnectionLost | RoundTrip(millis: nat) | Unexpected(response: Response)

  /** `last_ping_sent`: the send time of the ping still unanswered, if any. */
  type Tracker = Option<Ticks>

  /** The tracker the loop starts with: no ping outstanding. */
  const Initial: Tracker := None

  /** The outcome of one event: the next tracker, the pings sent and the reports logged. */
  datatype Turn = Turn(next: Tracker, pings: nat, reports: seq<Report>)

  /** One turn of the `select` loop. */
  function Step(t: Tracker, e: Event): (r: Turn)
    ensures e.Tick? ==> r.next == Some(e.now) && r.pings == 1
    ensures e.Tick? ==> (r.reports == [ConnectionLost] <==> t.Some?) && (r.reports == [] <==> t.None?)
    ensures e.Received? ==> r.pings == 0
    ensures e.Received? && e.response.Pong? ==> r.next == None
    ensures e.Received? && e.response.Pong? && t.None? ==> r.reports == []
    ensures e.Received? && e.response.Pong? && t.Some? && t.value <= e.now ==>
      r.reports == [RoundTrip(AsMillis(e.now - t.value))]
    ensures e.Received? && e.response.Log? ==> r.next == t && r.reports == [Unexpected(e.response)]
  {
    match e
    case Tick(now) =>
      Turn(Some(now), 1, if t.Some? then [ConnectionLost] else [])
    case Received(Pong, now) =>
      if t.None? then Turn(None, 0, [])
      else Turn(None, 0, [RoundTrip(AsMillis(DurationSince(now, t.value)))])
    case Received(response, _) =>
      Turn(t, 0, [Unexpected(response)])
  }

  /** The loop over a run of events, oldest first. */
  function Run(t: Tracker, events: seq<Event>): (r: Turn)
    ensures r.pings <= |events| && |r.reports| <= |events|
    decreases |events|
  {
    if |events| == 0 then Turn(t, 0, [])
    else
      var before := Run(t, events[..|events| - 1]);
      var last := Step(before.next, events[|events| - 1]);
      Turn(last.next, before.pings + last.pings, before.reports + last.reports)
  }

  // ---------------------------------------------------------------------
  // Reference definitions
  // ---------------------------------------------------------------------

  /** The send time of the last ping not followed by a pong, read off the events from the end. */
  function Outstanding(events: seq<Event>): Option<Ticks>
    decreases |events|
  {
    if |events| == 0 then None
    else
      match events[|events| - 1]
      case Tick(now) => Some(now)
      case Received(Pong, _) => None
      case Received(_, _) => Outstanding(events[..|events| - 1])
  }

  function TickCount(events: seq<Event>): nat
    decreases |events|
  {
    if |events| == 0 then 0
    else TickCount(events[..|events| - 1]) + (if events[|events| - 1].Tick? then 1 else 0)
  }

  function Count(reports: seq<Report>, x: Report): nat
    decreases |reports|
  {
    if |reports| == 0 then 0
    else Count(reports[..|reports| - 1], x) + (if reports[|reports| - 1] == x then 1 else 0)
  }

  lemma {:induction false} CountAppend(a: seq<Report>, b: seq<Report>, x: Report)
    ensures Count(a + b, x) == Count(a, x) + Count(b, x)
    decreases |b|
  {
    if |b| == 0 {
      assert a + b == a;
    } else {
      assert (a + b)[..|a + b| - 1] == a + b[..|b| - 1];
      CountAppend(a, b[..|b| - 1], x);
    }
  }

  // ---------------------------------------------------------------------
  // Properties of a run
  // ---------------------------------------------------------------------

  /** From the start, the tracker holds exactly the send time of the last unanswered ping. */
  lemma {:induction false} RunTracksOutstanding(events: seq<Event>)
    ensures Run(Initial, events).next == Outstanding(events)
    decreases |events|
  {
    if |events| > 0 {
      RunTracksOutstanding(events[..|events| - 1]);
    }
  }

  /** Exactly one ping goes out per tick, and none for anything received. */
  lemma {:induction false} OnePingPerTick(t: Tracker, events: seq<Event>)
    ensures Run(t, events).pings == TickCount(events)
    decreases |events|
  {
    if |events| > 0 {
      OnePingPerTick(t, events[..|events| - 1]);
    }
  }

  /** A log message from the drone changes nothing but the log. */
  lemma LogLeavesTracker(t: Tracker, text: string, now: Ticks)
    ensures Step(t, Received(Log(text), now)).next == t
  {
  }

  /** A pong with no ping outstanding is ignored entirely. */
  lemma StrayPongIgnored(now: Ticks)
    ensures Step(None, Received(Pong, now)) == Turn(None, 0, [])
  {
  }

  /** Two ticks with nothing in between always report the connection lost on the second. */
  lemma {:induction false} SilentTickLost(t: Tracker, events: seq<Event>, a: Ticks, b: Ticks)
    ensures Count(Run(t, events + [Tick(a), Tick(b)]).reports, ConnectionLost)
         == Count(Run(t, events).reports, ConnectionLost) + (if Run(t, events).next.Some? then 1 else 0) + 1
  {
    var es := events + [Tick(a), Tick(b)];
    assert es[..|es| - 1] == events + [Tick(a)];
    assert (events + [Tick(a)])[..|events|] == events;
    var r0 := Run(t, events);
    var r1 := Run(t, events + [Tick(a)]);
    CountAppend(r0.reports, Step(r0.next, Tick(a)).reports, ConnectionLost);
    CountAppend(r1.reports, [ConnectionLost], ConnectionLost);
    assert Count([ConnectionLost], ConnectionLost) == 1 by {
      assert [ConnectionLost][..0] == [];
    }
  }

  /** A pong answered in time leaves nothing outstanding, so the next tick is quiet. */
  lemma PongThenTickQuiet(t: Tracker, now: Ticks, later: Ticks)
    ensures Step(Step(t, Received(Pong, now)).next, Tick(later)).reports == []
  {
  }
}
