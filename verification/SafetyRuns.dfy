/** What every history of the alarm monitor keeps: how its output is built, and when exactly it raises
    and closes an alarm about a lost marker. */
module SafetyRuns {
  import opened Words
  import opened SafetySpec

  // ---------------------------------------------------------------- the shape of the output

  function PhaseOf(m: Monitor): Phase {
    if m.sos.None? then Closed else Opened(m.sos.value.id, m.stopSent)
  }

  function Moved(p: Phase, a: Action): Option<Phase> {
    match a
    case Request(id, _, _) => if p.Closed? then Some(Opened(id, false)) else None
    case Clear(id, _) => if p.Opened? && p.id == id then Some(Closed) else None
    case Stop => if p.Opened? && !p.stopped then Some(Opened(p.id, true)) else None
  }

  /** A single message sends out at most one action, and one the phase allows. */
  lemma ActsFit(c: Limits, m: Monitor, e: Event)
    ensures var (m1, acts) := React(c, m, e);
            && |acts| <= 1
            && (if acts == [] then PhaseOf(m1) == PhaseOf(m) else Moved(PhaseOf(m), acts[0]) == Some(PhaseOf(m1)))
  {
  }

  lemma PhaseSnoc(out: seq<Action>, a: Action)
    requires PhaseAfter(out).Some?
    ensures PhaseAfter(out + [a]) == Moved(PhaseAfter(out).value, a)
  {
    assert (out + [a])[..|out|] == out;
  }

  /** After any history, requests and clears have alternated with matching identifiers, each alarm has
      stopped the robot at most once, and the alarm left open is the one the monitor holds. */
  lemma {:induction false} OutputIsWellFormed(c: Limits, h: seq<Event>)
    ensures PhaseAfter(Output(c, h)) == Some(PhaseOf(After(c, h)))
    decreases |h|
  {
    if h != [] {
      var h0, e := h[..|h| - 1], h[|h| - 1];
      OutputIsWellFormed(c, h0);
      ActsFit(c, After(c, h0), e);
      var acts := Acts(c, h);
      if acts == [] {
        assert Output(c, h0) + acts == Output(c, h0);
      } else {
        assert acts == [acts[0]];
        PhaseSnoc(Output(c, h0), acts[0]);
      }
    }
  }

  /** A stop is ordered only while the trip is under way, by a negative answer for the open alarm. */
  lemma StopsOnlyUnderway(c: Limits, h: seq<Event>)
    requires Stop in Acts(c, h)
    ensures var e, m := h[|h| - 1], After(c, h[..|h| - 1]);
            && e.Ack? && !e.received && m.sos.Some? && m.sos.value.id == e.id
            && Underway(m.state) && c.stopOnNoAck && !m.stopSent
  {
  }

  // ---------------------------------------------------------------- bookkeeping

  lemma {:induction false} TimedPast(h: seq<Event>)
    requires Timed(h) && h != []
    ensures Past(h, h[|h| - 1].now)
    decreases |h|
  {
    if |h| > 1 {
      TimedPast(h[..|h| - 1]);
      assert forall i :: 0 <= i < |h| - 1 ==> h[..|h| - 1][i] == h[i];
    }
  }

  lemma SnocTimed(h: seq<Event>, e: Event)
    requires Timed(h + [e])
    ensures Timed(h) && Past(h, e.now)
  {
    assert (h + [e])[..|h|] == h;
    if h != [] {
      TimedPast(h);
      assert h[|h| - 1] == (h + [e])[|h| - 1];
    }
  }

  /** Where the monitor stands, in the words of the history. */
  ghost predicate PlaceOk(h: seq<Event>, m: Monitor) {
    m.state == StateAfter(h) && m.tripId == TripAfter(h) && m.markerAt == LastMarker(h) && m.seenAt == LastSeen(h)
  }

  /** The last time the marker was seen bounds all of them. */
  lemma {:induction false} LastSeenMeans(h: seq<Event>, limit: real)
    requires Timed(h)
    ensures match LastSeen(h)
            case None => forall i :: 0 <= i < |h| ==> !IsSeen(h[i])
            case Some(t) => NoneSeenAfter(h, limit) <==> t <= limit
    decreases |h|
  {
    if h != [] {
      var n := |h| - 1;
      TimedPast(h);
      LastSeenMeans(h[..n], limit);
      assert forall i :: 0 <= i < n ==> h[..n][i] == h[i];
    }
  }

  /** The state with the message taken in, before a look at the clock. */
  function Taken(c: Limits, m: Monitor, e: Event): Monitor {
    match e
    case Mission(now, state, tripId, _) =>
      m.(acquired := m.acquired && tripId == m.tripId, state := state, tripId := tripId)
    case Marker(now, status, _) => Look(c, m, now, status)
    case _ => m
  }

  /** What a look at the clock leaves alone. */
  lemma TickLeaves(c: Limits, m: Monitor, now: real, newId: string)
    ensures var m1 := Tick(c, m, now, newId).0;
            && m1.state == m.state && m1.tripId == m.tripId && m1.markerAt == m.markerAt && m1.seenAt == m.seenAt
            && m1.acquired == m.acquired
  {
  }

  lemma ReactLeaves(c: Limits, m: Monitor, e: Event)
    ensures var m1, t := React(c, m, e).0, Taken(c, m, e);
            && m1.state == t.state && m1.tripId == t.tripId && m1.markerAt == t.markerAt && m1.seenAt == t.seenAt
  {
  }

  lemma ReactIsTick(c: Limits, m: Monitor, e: Event)
    requires Ticks(e)
    ensures React(c, m, e) == Tick(c, Taken(c, m, e), e.now, e.newId)
  {
  }

  lemma PlaceStep(c: Limits, h: seq<Event>, m: Monitor, e: Event)
    requires PlaceOk(h, m)
    ensures PlaceOk(h + [e], Taken(c, m, e))
  {
    assert (h + [e])[..|h|] == h && (h + [e])[|h|] == e;
  }

  lemma PlaceOnly(h: seq<Event>, m: Monitor, m1: Monitor)
    requires PlaceOk(h, m) && m1.state == m.state && m1.tripId == m.tripId
    requires m1.markerAt == m.markerAt && m1.seenAt == m.seenAt
    ensures PlaceOk(h, m1)
  {
  }

  lemma {:induction false} PlaceHolds(c: Limits, h: seq<Event>)
    ensures PlaceOk(h, After(c, h))
    decreases |h|
  {
    if h != [] {
      var h0, e := h[..|h| - 1], h[|h| - 1];
      assert h == h0 + [e];
      PlaceHolds(c, h0);
      PlaceStep(c, h0, After(c, h0), e);
      ReactLeaves(c, After(c, h0), e);
      PlaceOnly(h, Taken(c, After(c, h0), e), After(c, h));
    }
  }

  // ---------------------------------------------------------------- the marker of the trip

  lemma GrabbedSnoc(c: Limits, h: seq<Event>, e: Event, k: nat)
    ensures Grabbed(c, h + [e], k) <==>
              if k == |h| then IsSeen(e) && Underway(StateAfter(h)) else Grabbed(c, h, k) && !Forgets(c, h + [e], |h|)
  {
    var h1 := h + [e];
    assert h1[|h|] == e && h1[..|h|] == h;
    assert forall j :: 0 <= j < |h| ==> h1[j] == h[j] && h1[..j] == h[..j];
    assert forall j :: 0 <= j < |h| ==> (Forgets(c, h1, j) <==> Forgets(c, h, j));
    if k < |h| {
      assert (forall j :: k < j < |h1| ==> !Forgets(c, h1, j)) <==>
             (forall j :: k < j < |h| ==> !Forgets(c, h, j)) && !Forgets(c, h1, |h|);
    }
  }

  lemma AcquiredSnoc(c: Limits, h: seq<Event>, e: Event)
    ensures Acquired(c, h + [e]) <==>
              (Acquired(c, h) && !Forgets(c, h + [e], |h|)) || (IsSeen(e) && Underway(StateAfter(h)))
  {
    if Acquired(c, h + [e]) {
      var k :| Grabbed(c, h + [e], k);
      GrabbedSnoc(c, h, e, k);
    }
    if Acquired(c, h) {
      var k :| Grabbed(c, h, k);
      GrabbedSnoc(c, h, e, k);
    }
    GrabbedSnoc(c, h, e, |h|);
  }

  /** The monitor knows of the marker exactly if it was seen in the current trip and not dealt with
      since. */
  lemma {:induction false} AcquiredExactly(c: Limits, h: seq<Event>)
    ensures After(c, h).acquired <==> Acquired(c, h)
    decreases |h|
  {
    if h != [] {
      var h0, e := h[..|h| - 1], h[|h| - 1];
      assert h == h0 + [e];
      AcquiredExactly(c, h0);
      PlaceHolds(c, h0);
      AcquiredSnoc(c, h0, e);
      AcquiredStep(c, h0, e);
    }
  }

  lemma AcquiredStep(c: Limits, h: seq<Event>, e: Event)
    requires PlaceOk(h, After(c, h))
    ensures React(c, After(c, h), e).0.acquired <==>
              (After(c, h).acquired && !Forgets(c, h + [e], |h|)) || (IsSeen(e) && Underway(StateAfter(h)))
  {
    assert (h + [e])[..|h|] == h && (h + [e])[|h|] == e;
  }

  /** The alarm for a lost marker is raised at exactly those looks at the clock at which no alarm is
      open, the trip is active, the marker had been seen in this trip and not been dealt with, and no
      message saw it for the whole time to the alarm. */
  lemma LostExactly(c: Limits, h: seq<Event>, e: Event)
    requires Timed(h + [e])
    ensures Requests(c, h + [e]) <==>
              && Ticks(e) && After(c, h).sos.None? && StateAfter(h + [e]).Active?
              && Acquired(c, h + [e]) && NoneSeenAfter(h + [e], e.now - c.lostToSos)
  {
    PlaceHolds(c, h);
    PlaceStep(c, h, After(c, h), e);
    AcquiredExactly(c, h + [e]);
    assert (h + [e])[..|h|] == h && (h + [e])[|h|] == e;
    LostStep(c, h + [e], After(c, h), e);
  }

  lemma LostStep(c: Limits, h1: seq<Event>, m: Monitor, e: Event)
    requires Timed(h1) && PlaceOk(h1, Taken(c, m, e)) && (React(c, m, e).0.acquired <==> Acquired(c, h1))
    ensures RaisesLost(React(c, m, e).1) <==>
              && Ticks(e) && m.sos.None? && StateAfter(h1).Active?
              && Acquired(c, h1) && NoneSeenAfter(h1, e.now - c.lostToSos)
  {
    var t := Taken(c, m, e);
    if Ticks(e) {
      TickLeaves(c, t, e.now, e.newId);
      if Acquired(c, h1) {
        var k :| Grabbed(c, h1, k);
        LastSeenMeans(h1, e.now - c.lostToSos);
        assert t.seenAt.Some?;
      }
      ReactIsTick(c, m, e);
      RequestIff(c, t, e.now, e.newId);
    }
  }

  lemma RequestIff(c: Limits, m: Monitor, now: real, newId: string)
    ensures RaisesLost(Tick(c, m, now, newId).1) <==>
              m.sos.None? && m.state.Active? && m.acquired && m.seenAt.Some? && now - m.seenAt.value >= c.lostToSos
  {
    var acts := Tick(c, m, now, newId).1;
    if m.sos.None? && m.state.Active? && m.acquired && m.seenAt.Some? && now - m.seenAt.value >= c.lostToSos {
      assert Request(newId, TrackingLost, m.tripId) in acts;
    }
  }

  // ---------------------------------------------------------------- what the user brings about

  /** The output leaves the alarm `id` open. */
  predicate IsOpen(out: seq<Action>, id: string) {
    PhaseAfter(out).Some? && PhaseAfter(out).value.Opened? && PhaseAfter(out).value.id == id
  }

  predicate RaisesManual(acts: seq<Action>) { exists a :: a in acts && a.Request? && a.reason.Manual? }

  /** Where the monitor stands before an event that comes next, and what it does then. */
  lemma Next(c: Limits, h: seq<Event>, e: Event)
    ensures PhaseAfter(Output(c, h)) == Some(PhaseOf(After(c, h))) && PlaceOk(h, After(c, h))
    ensures Acts(c, h + [e]) == React(c, After(c, h), e).1
    ensures PhaseAfter(Output(c, h + [e])) == Some(PhaseOf(React(c, After(c, h), e).0))
  {
    OutputIsWellFormed(c, h);
    OutputIsWellFormed(c, h + [e]);
    PlaceHolds(c, h);
    assert (h + [e])[..|h|] == h;
  }

  /** The clock alone raises and clears nothing but alarms for a lost marker. */
  lemma TickActs(c: Limits, m: Monitor, now: real, newId: string)
    ensures var acts := Tick(c, m, now, newId).1;
            || acts == [] || acts == [Request(newId, TrackingLost, m.tripId)]
            || (m.sos.Some? && acts == [Clear(m.sos.value.id, TrackingRecovered)])
  {
  }

  lemma RaiseStep(c: Limits, m: Monitor, e: Event)
    ensures RaisesManual(React(c, m, e).1) <==> e.Raise? && PhaseOf(m).Closed?
    ensures e.Raise? && PhaseOf(m).Closed? ==>
              React(c, m, e).1 == [Request(e.id, Manual, m.tripId)] && PhaseOf(React(c, m, e).0) == Opened(e.id, false)
  {
    if Ticks(e) {
      ReactIsTick(c, m, e);
      TickActs(c, Taken(c, m, e), e.now, e.newId);
    } else if e.Raise? && m.sos.None? {
      assert Request(e.id, Manual, m.tripId) in React(c, m, e).1;
    }
  }

  lemma LostRequest(c: Limits, m: Monitor, e: Event)
    requires RaisesLost(React(c, m, e).1)
    ensures Ticks(e) && React(c, m, e).1 == [Request(e.newId, TrackingLost, Taken(c, m, e).tripId)]
    ensures PhaseOf(React(c, m, e).0) == Opened(e.newId, false)
  {
    if Ticks(e) {
      ReactIsTick(c, m, e);
      TickActs(c, Taken(c, m, e), e.now, e.newId);
    }
  }

  lemma ClearStep(c: Limits, m: Monitor, e: Event, id: string)
    ensures var acts, open := React(c, m, e).1, PhaseOf(m).Opened? && PhaseOf(m).id == id;
            && (Clear(id, Handled) in acts <==> open && e.Trip? && e.command.StartTrip?)
            && (Clear(id, UserCancelled) in acts <==>
                  open && ((e.Trip? && e.command.CancelTrip?) || (e.Calm? && e.id == id)))
  {
    if Ticks(e) {
      ReactIsTick(c, m, e);
      TickActs(c, Taken(c, m, e), e.now, e.newId);
    }
  }

  lemma StopStep(c: Limits, m: Monitor, e: Event)
    ensures Stop in React(c, m, e).1 <==>
              e.Ack? && !e.received && PhaseOf(m) == Opened(e.id, false) && Underway(m.state) && c.stopOnNoAck
  {
    if Ticks(e) {
      ReactIsTick(c, m, e);
      TickActs(c, Taken(c, m, e), e.now, e.newId);
    }
  }

  /** The user's own alarm: it is sent at exactly those presses at which no alarm is open, with the
      identifier of the press and the trip of the moment, and is open from then on. */
  lemma RaisedExactly(c: Limits, h: seq<Event>, e: Event)
    ensures RaisesManual(Acts(c, h + [e])) <==> e.Raise? && PhaseAfter(Output(c, h)) == Some(Closed)
    ensures RaisesManual(Acts(c, h + [e])) ==>
              && Acts(c, h + [e]) == [Request(e.id, Manual, TripAfter(h))]
              && PhaseAfter(Output(c, h + [e])) == Some(Opened(e.id, false))
  {
    Next(c, h, e);
    RaiseStep(c, After(c, h), e);
  }

  /** An alarm for a lost marker carries the identifier offered and the trip of the moment. */
  lemma LostCarries(c: Limits, h: seq<Event>, e: Event)
    requires Requests(c, h + [e])
    ensures Ticks(e) && Acts(c, h + [e]) == [Request(e.newId, TrackingLost, TripAfter(h + [e]))]
    ensures PhaseAfter(Output(c, h + [e])) == Some(Opened(e.newId, false))
  {
    Next(c, h, e);
    LostRequest(c, After(c, h), e);
    PlaceStep(c, h, After(c, h), e);
  }

  /** How the user ends an alarm: a new start closes the open one as handled; a cancel of the trip, or the
      all-clear for that very alarm, closes it as cancelled by the user; and nothing else does either. */
  lemma ClearedExactly(c: Limits, h: seq<Event>, e: Event, id: string)
    ensures Clear(id, Handled) in Acts(c, h + [e]) <==>
              IsOpen(Output(c, h), id) && e.Trip? && e.command.StartTrip?
    ensures Clear(id, UserCancelled) in Acts(c, h + [e]) <==>
              IsOpen(Output(c, h), id) && ((e.Trip? && e.command.CancelTrip?) || (e.Calm? && e.id == id))
  {
    Next(c, h, e);
    ClearStep(c, After(c, h), e, id);
  }

  /** A stop is ordered at exactly the first negative answers for the open alarm during a trip. */
  lemma StopsExactly(c: Limits, h: seq<Event>, e: Event)
    ensures Stop in Acts(c, h + [e]) <==>
              && e.Ack? && !e.received && PhaseAfter(Output(c, h)) == Some(Opened(e.id, false))
              && Underway(StateAfter(h)) && c.stopOnNoAck
  {
    Next(c, h, e);
    StopStep(c, After(c, h), e);
  }
}
