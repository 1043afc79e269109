/** When exactly the alarm monitor closes an alarm because the marker is back. */
module SafetyRecovery {
  import opened Words
  import opened SafetySpec
  import opened SafetyRuns

  /** `r` is the start of the steady run that reaches the end of h, counted from message `from` on: it
      is the time of a message from which on all were steady, and while the run is live no such message
      is earlier. */
  ghost predicate RunStart(c: Limits, h: seq<Event>, from: nat, r: Option<real>, live: bool) {
    && (r.Some? ==> exists i :: SteadyAt(c, h, from, i, r.value))
    && (live ==> forall i :: from <= i && Steady(c, h, i) ==> r.Some? && r.value <= h[i].now)
  }

  ghost predicate SteadyAt(c: Limits, h: seq<Event>, from: nat, i: nat, t: real) {
    from <= i && Steady(c, h, i) && h[i].now == t
  }

  lemma SteadySnoc(c: Limits, h: seq<Event>, e: Event, i: nat)
    ensures Steady(c, h + [e], i) <==>
              if i == |h| then IsSeen(e)
              else Steady(c, h, i) && (e.Marker? ==> IsSeen(e) && Alive(c, h, e.now))
  {
    assert (h + [e])[|h|] == e && (h + [e])[..|h|] == h;
  }

  /** A steady run, message by message: the first one saw the marker, and every later marker message
      saw it too and came in time after the one before. */
  lemma {:induction false} SteadyMeans(c: Limits, h: seq<Event>, i: nat)
    requires i < |h|
    ensures Steady(c, h, i) <==> IsSeen(h[i]) && forall j :: i < j < |h| ==> InTime(c, h, j)
    decreases |h|
  {
    var n := |h| - 1;
    if i < n {
      SteadyMeans(c, h[..n], i);
      forall j | i < j < n
        ensures InTime(c, h[..n], j) <==> InTime(c, h, j)
      {
        assert h[..n][..j] == h[..j] && h[..n][j] == h[j];
      }
      assert (forall j :: i < j < |h| ==> InTime(c, h, j)) <==>
             (forall j :: i < j < n ==> InTime(c, h, j)) && InTime(c, h, n);
    }
  }

  predicate InTime(c: Limits, h: seq<Event>, j: nat)
    requires j < |h|
  {
    h[j].Marker? ==> IsSeen(h[j]) && Alive(c, h[..j], h[j].now)
  }

  lemma {:induction false} SteadyKnown(c: Limits, h: seq<Event>, i: nat)
    requires Steady(c, h, i)
    ensures LastMarker(h).Some?
    decreases |h|
  {
    if i < |h| - 1 {
      SteadyKnown(c, h[..|h| - 1], i);
    }
  }

  function Latest(h: seq<Event>): real { if h == [] then 0.0 else h[|h| - 1].now }

  /** A message taken in goes on with the run or begins a new one. */
  lemma RunGoesOn(c: Limits, h: seq<Event>, m: Monitor, e: Event, from: nat)
    requires m.markerAt == LastMarker(h) && from <= |h|
    requires m.recoverSince.Some? ==> exists i :: SteadyAt(c, h, from, i, m.recoverSince.value)
    ensures var r1 := Taken(c, m, e).recoverSince;
            r1.Some? ==> exists i :: SteadyAt(c, h + [e], from, i, r1.value)
  {
    var r, r1 := m.recoverSince, Taken(c, m, e).recoverSince;
    var k: nat := 0;
    if r.Some? {
      k :| SteadyAt(c, h, from, k, r.value);
      SteadyKnown(c, h, k);
    }
    if r1.Some? {
      if !e.Marker? || (r.Some? && Alive(c, h, e.now)) {
        SteadySnoc(c, h, e, k);
        assert SteadyAt(c, h + [e], from, k, r.value);
      } else {
        SteadySnoc(c, h, e, |h|);
        assert SteadyAt(c, h + [e], from, |h|, r1.value);
      }
    }
  }

  /** Taking a message in keeps the run. */
  lemma RunTaken(c: Limits, h: seq<Event>, m: Monitor, e: Event, from: nat)
    requires Past(h, e.now) && m.markerAt == LastMarker(h) && from <= |h|
    requires RunStart(c, h, from, m.recoverSince, Alive(c, h, Latest(h)))
    ensures RunStart(c, h + [e], from, Taken(c, m, e).recoverSince, Alive(c, h + [e], e.now))
  {
    var h1, r, r1 := h + [e], m.recoverSince, Taken(c, m, e).recoverSince;
    assert h1[..|h|] == h && h1[|h|] == e;
    RunGoesOn(c, h, m, e, from);
    if Alive(c, h1, e.now) {
      forall i | from <= i && Steady(c, h1, i)
        ensures r1.Some? && r1.value <= h1[i].now
      {
        SteadySnoc(c, h, e, i);
        if i < |h| {
          assert h1[i] == h[i];
        } else if r.Some? {
          var k :| SteadyAt(c, h, from, k, r.value);
        }
      }
    }
  }

  /** A run given up for a stale marker is no live one. */
  lemma RunExpires(c: Limits, h: seq<Event>, m: Monitor, now: real, from: nat)
    requires m.markerAt == LastMarker(h) && RunStart(c, h, from, m.recoverSince, Alive(c, h, now))
    ensures RunStart(c, h, from, Expire(c, m, now).recoverSince, Alive(c, h, now))
    ensures Expire(c, m, now).recoverSince.Some? ==> Alive(c, h, now)
  {
    if m.recoverSince.Some? {
      var i :| SteadyAt(c, h, from, i, m.recoverSince.value);
      SteadyKnown(c, h, i);
    }
  }

  /** Acting on the clock drops the run exactly when it raises an alarm. */
  lemma TickRun(c: Limits, m: Monitor, now: real, newId: string)
    ensures var (m1, acts) := Tick(c, m, now, newId);
            m1.recoverSince == if RaisesLost(acts) then None else Expire(c, m, now).recoverSince
  {
    var (m1, acts) := Tick(c, m, now, newId);
    assert acts != [] ==> acts[0] in acts;
  }

  lemma QuietRun(c: Limits, m: Monitor, e: Event)
    requires !Ticks(e)
    ensures React(c, m, e).0.recoverSince == m.recoverSince
    ensures !RaisesLost(React(c, m, e).1)
  {
  }

  lemma FromBound(c: Limits, h: seq<Event>)
    ensures AlarmEnd(c, h) <= |h|
  {
    if h != [] && !Requests(c, h) {
      FromBound(c, h[..|h| - 1]);
    }
  }

  /** After any history the monitor knows where the current steady run since the last alarm began. */
  lemma {:induction false} RunHolds(c: Limits, h: seq<Event>)
    requires Timed(h)
    ensures RunStart(c, h, AlarmEnd(c, h), After(c, h).recoverSince, Alive(c, h, Latest(h)))
    decreases |h|
  {
    if h != [] {
      var h0, e := h[..|h| - 1], h[|h| - 1];
      assert h == h0 + [e];
      SnocTimed(h0, e);
      RunHolds(c, h0);
      RunStep(c, h0, e);
    }
  }

  lemma RunStep(c: Limits, h: seq<Event>, e: Event)
    requires Timed(h + [e]) && Past(h, e.now)
    requires RunStart(c, h, AlarmEnd(c, h), After(c, h).recoverSince, Alive(c, h, Latest(h)))
    ensures RunStart(c, h + [e], AlarmEnd(c, h + [e]), After(c, h + [e]).recoverSince, Alive(c, h + [e], e.now))
  {
    var h1, m := h + [e], After(c, h);
    assert h1[..|h|] == h && h1[|h|] == e;
    FromBound(c, h);
    PlaceHolds(c, h);
    RunTaken(c, h, m, e, AlarmEnd(c, h));
    var t := Taken(c, m, e);
    if Ticks(e) {
      PlaceStep(c, h, m, e);
      RunExpires(c, h1, t, e.now, AlarmEnd(c, h));
      ReactIsTick(c, m, e);
      TickRun(c, t, e.now, e.newId);
      if Requests(c, h1) {
        assert forall i :: |h1| <= i ==> !Steady(c, h1, i);
      }
    } else {
      QuietRun(c, m, e);
    }
  }

  lemma TakenRun(c: Limits, h: seq<Event>, e: Event)
    requires Timed(h + [e])
    ensures var t := Taken(c, After(c, h), e);
            && t.markerAt == LastMarker(h + [e])
            && RunStart(c, h + [e], AlarmEnd(c, h), t.recoverSince, Alive(c, h + [e], e.now))
  {
    SnocTimed(h, e);
    RunHolds(c, h);
    FromBound(c, h);
    PlaceHolds(c, h);
    PlaceStep(c, h, After(c, h), e);
    RunTaken(c, h, After(c, h), e, AlarmEnd(c, h));
  }

  lemma NoRecovery(c: Limits, m: Monitor, e: Event)
    requires !Ticks(e)
    ensures !ClearsRecovered(React(c, m, e).1)
  {
  }

  lemma TakenSos(c: Limits, m: Monitor, e: Event)
    ensures Taken(c, m, e).sos == m.sos
  {
  }

  lemma RecoverOf(c: Limits, h1: seq<Event>, m: Monitor, e: Event, from: nat)
    requires Ticks(e) && Taken(c, m, e).markerAt == LastMarker(h1)
    requires RunStart(c, h1, from, Taken(c, m, e).recoverSince, Alive(c, h1, e.now))
    ensures ClearsRecovered(React(c, m, e).1) <==>
              && m.sos.Some? && m.sos.value.reason.TrackingLost? && Alive(c, h1, e.now)
              && SteadySince(c, h1, from, e.now - c.recoverToClear)
  {
    ReactIsTick(c, m, e);
    TakenSos(c, m, e);
    RecoverStep(c, h1, Taken(c, m, e), e.now, e.newId, from);
  }

  lemma TickRecovers(c: Limits, h: seq<Event>, e: Event)
    requires Timed(h + [e]) && Ticks(e)
    ensures ClearsRecovered(React(c, After(c, h), e).1) <==>
              && After(c, h).sos.Some? && After(c, h).sos.value.reason.TrackingLost?
              && Alive(c, h + [e], e.now)
              && SteadySince(c, h + [e], AlarmEnd(c, h), e.now - c.recoverToClear)
  {
    TakenRun(c, h, e);
    RecoverOf(c, h + [e], After(c, h), e, AlarmEnd(c, h));
  }

  lemma LastActs(c: Limits, h: seq<Event>, e: Event)
    ensures Recovers(c, h + [e]) <==> ClearsRecovered(React(c, After(c, h), e).1)
  {
    assert (h + [e])[..|h|] == h && (h + [e])[|h|] == e;
  }

  /** An alarm for a lost marker is closed by recovery at exactly those looks at the clock at which it is
      open, the marker message is not stale, and some message since the alarm is at least the recovery
      time old from which on every message saw the marker without a gap. */
  lemma RecoveredExactly(c: Limits, h: seq<Event>, e: Event)
    requires Timed(h + [e])
    ensures Recovers(c, h + [e]) <==>
              && Ticks(e) && After(c, h).sos.Some? && After(c, h).sos.value.reason.TrackingLost?
              && Alive(c, h + [e], e.now)
              && SteadySince(c, h + [e], AlarmEnd(c, h), e.now - c.recoverToClear)
  {
    LastActs(c, h, e);
    if Ticks(e) {
      TickRecovers(c, h, e);
    } else {
      NoRecovery(c, After(c, h), e);
    }
  }

  ghost predicate LongSteady(c: Limits, h: seq<Event>, from: nat, i: nat, limit: real) {
    from <= i && Steady(c, h, i) && h[i].now <= limit
  }

  ghost predicate SteadySince(c: Limits, h: seq<Event>, from: nat, limit: real) {
    exists i :: LongSteady(c, h, from, i, limit)
  }

  lemma RecoverStep(c: Limits, h: seq<Event>, t: Monitor, now: real, newId: string, from: nat)
    requires t.markerAt == LastMarker(h) && RunStart(c, h, from, t.recoverSince, Alive(c, h, now))
    ensures ClearsRecovered(Tick(c, t, now, newId).1) <==>
              && t.sos.Some? && t.sos.value.reason.TrackingLost? && Alive(c, h, now)
              && SteadySince(c, h, from, now - c.recoverToClear)
  {
    RunExpires(c, h, t, now, from);
    var x := Expire(c, t, now);
    var acts := Tick(c, t, now, newId).1;
    assert acts != [] ==> acts[0] in acts;
    if x.recoverSince.Some? {
      var i :| SteadyAt(c, h, from, i, x.recoverSince.value);
      if now - x.recoverSince.value >= c.recoverToClear {
        assert LongSteady(c, h, from, i, now - c.recoverToClear);
      }
    }
  }
}
