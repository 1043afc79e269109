/** The watch on the phone link during a trip: when it orders a safety stop, judged against what the
    link messages say about every instant. */
module LinkWatch {
  import opened Words
  import MissionSpec

  type State = MissionSpec.State

  /** A stop time of zero or less turns the watch off. */
  datatype Limits = Limits(stopAfter: real, stale: real)

  datatype Watch = Watch(started: real, connected: bool, msgAt: Option<real>, falseSince: Option<real>,
                         state: State, tripId: Option<string>, tripSince: real, stopped: Option<string>)

  function Fresh(now: real): Watch { Watch(now, false, None, None, MissionSpec.Idle, None, now, None) }

  datatype Event =
    | Status(now: real, connected: bool)
    | Trip(now: real, state: State, tripId: Option<string>)
    | Timer(now: real)

  /** Since when the link has been down, if it is down. */
  function DownSince(c: Limits, w: Watch, now: real): Option<real> {
    if w.msgAt.None? then Some(w.started)
    else if !w.connected then w.falseSince
    else if now - w.msgAt.value > c.stale then Some(w.msgAt.value + c.stale)
    else None
  }

  predicate Underway(s: State) { s.Starting? || s.Active? }

  predicate Named(tripId: Option<string>) { tripId.Some? && tripId.value != "" }

  function Later(a: real, b: real): real { if a < b then b else a }

  function Tick(c: Limits, w: Watch, now: real): (Watch, bool) {
    if c.stopAfter <= 0.0 || !Underway(w.state) || !Named(w.tripId) || w.stopped == w.tripId then (w, false)
    else
      match DownSince(c, w, now)
      case None => (w, false)
      case Some(down) =>
        if now - Later(down, w.tripSince) >= c.stopAfter then (w.(stopped := w.tripId), true) else (w, false)
  }

  function Heard(c: Limits, w: Watch, now: real, connected: bool): Watch {
    var down := DownSince(c, w, now);
    w.(msgAt := Some(now), connected := connected,
       falseSince := if connected then w.falseSince else if down.Some? then down else Some(now))
  }

  predicate NewTrip(w: Watch, state: State, tripId: Option<string>) {
    tripId != w.tripId || (state.Starting? && !w.state.Starting?)
  }

  function Told(w: Watch, now: real, state: State, tripId: Option<string>): Watch {
    var w1 := if NewTrip(w, state, tripId) then w.(tripSince := now, stopped := None) else w;
    w1.(state := state, tripId := tripId)
  }

  /** Every message ends with a look at the clock; the answer is whether to stop. */
  function React(c: Limits, w: Watch, e: Event): (Watch, bool) {
    match e
    case Status(now, connected) => Tick(c, Heard(c, w, now, connected), now)
    case Trip(now, state, tripId) => Tick(c, Told(w, now, state, tripId), now)
    case Timer(now) => Tick(c, w, now)
  }

  function After(c: Limits, t0: real, h: seq<Event>): Watch {
    if h == [] then Fresh(t0) else React(c, After(c, t0, h[..|h| - 1]), h[|h| - 1]).0
  }

  /** The last event of the history brings about a stop. */
  predicate Stops(c: Limits, t0: real, h: seq<Event>) {
    h != [] && React(c, After(c, t0, h[..|h| - 1]), h[|h| - 1]).1
  }

  // ---------------------------------------------------------------- what the history says

  ghost predicate Past(h: seq<Event>, t0: real, now: real) {
    t0 <= now && forall i :: 0 <= i < |h| ==> h[i].now <= now
  }

  /** Times do not go back. */
  predicate Timed(t0: real, h: seq<Event>) {
    h == [] || (Timed(t0, h[..|h| - 1]) && Latest(t0, h[..|h| - 1]) <= h[|h| - 1].now)
  }

  function Latest(t0: real, h: seq<Event>): real { if h == [] then t0 else h[|h| - 1].now }

  lemma {:induction false} TimedSnoc(t0: real, h: seq<Event>, e: Event)
    requires Timed(t0, h + [e])
    ensures Timed(t0, h) && Past(h, t0, e.now) && Past(h + [e], t0, e.now)
    decreases |h|
  {
    assert (h + [e])[..|h|] == h;
    if h != [] {
      assert h == h[..|h| - 1] + [h[|h| - 1]];
      TimedSnoc(t0, h[..|h| - 1], h[|h| - 1]);
    }
  }

  /** Message k says at instant s that the link is up: it said so, is not yet stale, and s is not past
      the next message. */
  ghost predicate Covers(c: Limits, h: seq<Event>, k: nat, s: real) {
    && k < |h| && h[k].Status? && h[k].connected && h[k].now <= s <= h[k].now + c.stale
    && forall j :: k < j < |h| && h[j].Status? ==> s <= h[j].now
  }

  ghost predicate UpAt(c: Limits, h: seq<Event>, s: real) { exists k :: Covers(c, h, k, s) }

  ghost predicate NeverUp(c: Limits, h: seq<Event>, from: real, to: real) {
    forall s :: from < s <= to ==> !UpAt(c, h, s)
  }

  function StateAfter(h: seq<Event>): State {
    if h == [] then MissionSpec.Idle else if h[|h| - 1].Trip? then h[|h| - 1].state else StateAfter(h[..|h| - 1])
  }

  function TripAfter(h: seq<Event>): Option<string> {
    if h == [] then None else if h[|h| - 1].Trip? then h[|h| - 1].tripId else TripAfter(h[..|h| - 1])
  }

  /** The last event of h begins a trip: another one, or the same one once more. */
  predicate Begins(h: seq<Event>) {
    && h != [] && h[|h| - 1].Trip?
    && var before, e := h[..|h| - 1], h[|h| - 1];
       e.tripId != TripAfter(before) || (e.state.Starting? && !StateAfter(before).Starting?)
  }

  /** When the trip that is current after h began. */
  function TripBegan(t0: real, h: seq<Event>): real {
    if h == [] then t0 else if Begins(h) then h[|h| - 1].now else TripBegan(t0, h[..|h| - 1])
  }

  /** A stop was ordered since then. */
  predicate StoppedBefore(c: Limits, t0: real, h: seq<Event>) {
    h != [] && !Begins(h) && (Stops(c, t0, h[..|h| - 1]) || StoppedBefore(c, t0, h[..|h| - 1]))
  }

  // ---------------------------------------------------------------- the two agree

  /** No up instant is later than `limit`, and `limit` is one, or nothing was ever up. */
  ghost predicate LastUp(c: Limits, t0: real, h: seq<Event>, limit: real) {
    && (forall s :: s > limit ==> !UpAt(c, h, s))
    && (UpAt(c, h, limit) || (limit == t0 && forall s :: !UpAt(c, h, s)))
  }

  /** How one more event changes the instants covered. */
  lemma CoversSnoc(c: Limits, h: seq<Event>, e: Event, k: nat, s: real)
    ensures Covers(c, h + [e], k, s) <==>
              if k == |h| then e.Status? && e.connected && e.now <= s <= e.now + c.stale
              else Covers(c, h, k, s) && (e.Status? ==> s <= e.now)
  {
    var h1 := h + [e];
    assert forall j :: 0 <= j < |h| ==> h1[j] == h[j];
    assert h1[|h|] == e;
  }

  lemma UpSnoc(c: Limits, h: seq<Event>, e: Event, s: real)
    ensures UpAt(c, h + [e], s) <==>
              || (UpAt(c, h, s) && (e.Status? ==> s <= e.now))
              || (e.Status? && e.connected && e.now <= s <= e.now + c.stale)
  {
    if UpAt(c, h + [e], s) {
      var k :| Covers(c, h + [e], k, s);
      CoversSnoc(c, h, e, k, s);
    }
    if UpAt(c, h, s) {
      var k :| Covers(c, h, k, s);
      CoversSnoc(c, h, e, k, s);
    }
    CoversSnoc(c, h, e, |h|, s);
  }

  /** What the watch remembers of the link is what the history says. */
  ghost predicate LinkOk(c: Limits, t0: real, h: seq<Event>, w: Watch) {
    && w.started == t0
    && (w.msgAt.None? ==> forall s :: !UpAt(c, h, s))
    && (w.msgAt.Some? ==> t0 <= w.msgAt.value && forall i :: 0 <= i < |h| && h[i].Status? ==> h[i].now <= w.msgAt.value)
    && (w.msgAt.Some? && w.connected ==>
          (forall s :: s >= w.msgAt.value ==> (UpAt(c, h, s) <==> s <= w.msgAt.value + c.stale)))
    && (w.msgAt.Some? && !w.connected ==>
          w.falseSince.Some? && t0 <= w.falseSince.value <= w.msgAt.value && LastUp(c, t0, h, w.falseSince.value))
  }

  /** The watch's idea of "down since" is the end of the last stretch of up instants. */
  lemma DownAgrees(c: Limits, t0: real, h: seq<Event>, w: Watch, now: real)
    requires c.stale >= 0.0 && LinkOk(c, t0, h, w) && Past(h, t0, now)
    requires w.msgAt.Some? ==> w.msgAt.value <= now
    ensures match DownSince(c, w, now)
            case None => UpAt(c, h, now)
            case Some(d) => t0 <= d <= now && NeverUp(c, h, d, now) &&
                            (UpAt(c, h, d) || (d == t0 && forall s :: !UpAt(c, h, s)))
  {
  }

  lemma HeardKeeps(c: Limits, t0: real, h: seq<Event>, w: Watch, e: Event)
    requires c.stale >= 0.0 && LinkOk(c, t0, h, w) && Past(h, t0, e.now) && e.Status?
    requires w.msgAt.Some? ==> w.msgAt.value <= e.now
    ensures LinkOk(c, t0, h + [e], Heard(c, w, e.now, e.connected))
  {
    DownAgrees(c, t0, h, w, e.now);
    forall s
      ensures UpAt(c, h + [e], s) <==>
                (UpAt(c, h, s) && s <= e.now) || (e.connected && e.now <= s <= e.now + c.stale)
    {
      UpSnoc(c, h, e, s);
    }
  }

  /** A message of another kind changes nothing the watch remembers of the link. */
  lemma QuietKeeps(c: Limits, t0: real, h: seq<Event>, w: Watch, e: Event)
    requires LinkOk(c, t0, h, w) && !e.Status?
    ensures LinkOk(c, t0, h + [e], w)
  {
    forall s
      ensures UpAt(c, h + [e], s) <==> UpAt(c, h, s)
    {
      UpSnoc(c, h, e, s);
    }
    if w.msgAt.Some? && !w.connected {
      assert LastUp(c, t0, h, w.falseSince.value);
    }
  }

  /** The state in which the clock is looked at, after the message itself was taken in. */
  function Taken(c: Limits, w: Watch, e: Event): Watch {
    match e
    case Status(now, connected) => Heard(c, w, now, connected)
    case Trip(now, state, tripId) => Told(w, now, state, tripId)
    case Timer(_) => w
  }

  lemma ReactIsTick(c: Limits, w: Watch, e: Event)
    ensures React(c, w, e) == Tick(c, Taken(c, w, e), e.now)
  {
  }

  /** Looking at the clock changes nothing but the note that a stop was ordered. */
  lemma TickKeeps(c: Limits, w: Watch, now: real)
    ensures var (w1, stop) := Tick(c, w, now);
            w1 == w.(stopped := if stop then w.tripId else w.stopped) && (stop ==> w.tripId.Some?)
  {
  }

  ghost predicate TripOk(c: Limits, t0: real, h: seq<Event>, w: Watch) {
    && w.state == StateAfter(h) && w.tripId == TripAfter(h) && w.tripSince == TripBegan(t0, h)
    && (w.stopped.Some? ==> w.stopped == w.tripId)
  }

  lemma TakenTrip(c: Limits, t0: real, h: seq<Event>, w: Watch, e: Event)
    requires TripOk(c, t0, h, w)
    ensures TripOk(c, t0, h + [e], Taken(c, w, e))
    ensures Taken(c, w, e).stopped.Some? <==> w.stopped.Some? && !Begins(h + [e])
  {
    assert (h + [e])[..|h|] == h;
  }

  /** All of it after any history: and a stop is remembered exactly if it was ordered since the trip
      began. */
  lemma {:induction false} WatchOk(c: Limits, t0: real, h: seq<Event>)
    requires c.stale >= 0.0 && Timed(t0, h)
    ensures var w := After(c, t0, h);
            && LinkOk(c, t0, h, w) && TripOk(c, t0, h, w)
            && (w.msgAt.Some? ==> h != [] && w.msgAt.value <= h[|h| - 1].now)
            && (w.stopped.Some? <==> Stops(c, t0, h) || StoppedBefore(c, t0, h))
    decreases |h|
  {
    if h != [] {
      var h0, e := h[..|h| - 1], h[|h| - 1];
      assert h == h0 + [e];
      TimedSnoc(t0, h0, e);
      WatchOk(c, t0, h0);
      TakenOk(c, t0, h0, e);
      var w := Taken(c, After(c, t0, h0), e);
      ReactIsTick(c, After(c, t0, h0), e);
      TickKeeps(c, w, e.now);
      LinkOnly(c, t0, h, w, Tick(c, w, e.now).0);
    }
  }

  lemma LinkOnly(c: Limits, t0: real, h: seq<Event>, w: Watch, w1: Watch)
    requires LinkOk(c, t0, h, w) && w1 == w.(stopped := w1.stopped)
    ensures LinkOk(c, t0, h, w1)
  {
  }

  /** One message taken in, before the look at the clock. */
  lemma TakenOk(c: Limits, t0: real, h: seq<Event>, e: Event)
    requires c.stale >= 0.0 && Timed(t0, h + [e]) && Past(h, t0, e.now)
    requires var w := After(c, t0, h);
             && LinkOk(c, t0, h, w) && TripOk(c, t0, h, w)
             && (w.msgAt.Some? ==> h != [] && w.msgAt.value <= h[|h| - 1].now)
             && (w.stopped.Some? <==> Stops(c, t0, h) || StoppedBefore(c, t0, h))
    ensures var w1 := Taken(c, After(c, t0, h), e);
            && LinkOk(c, t0, h + [e], w1) && TripOk(c, t0, h + [e], w1)
            && (w1.msgAt.Some? ==> w1.msgAt.value <= e.now)
            && (w1.stopped.Some? <==> StoppedBefore(c, t0, h + [e]))
  {
    var w := After(c, t0, h);
    assert (h + [e])[..|h|] == h && (h + [e])[|h|] == e;
    TakenTrip(c, t0, h, w, e);
    if e.Status? {
      HeardKeeps(c, t0, h, w, e);
    } else {
      QuietKeeps(c, t0, h, w, e);
      LinkOnlyTrip(c, t0, h + [e], w, Taken(c, w, e));
    }
  }

  lemma LinkOnlyTrip(c: Limits, t0: real, h: seq<Event>, w: Watch, w1: Watch)
    requires LinkOk(c, t0, h, w)
    requires w1.started == w.started && w1.connected == w.connected
    requires w1.msgAt == w.msgAt && w1.falseSince == w.falseSince
    ensures LinkOk(c, t0, h, w1)
  {
  }

  /** A stop is ordered at exactly those events at which a named trip is under way, none was ordered
      since it began, and for the whole stop time, within the trip and the life of the watch, no
      instant was one at which the link was up. */
  lemma StopExactly(c: Limits, t0: real, h: seq<Event>, e: Event)
    requires c.stale >= 0.0 && Timed(t0, h + [e])
    ensures var h1, since := h + [e], e.now - c.stopAfter;
            Stops(c, t0, h1) <==>
              && c.stopAfter > 0.0 && Underway(StateAfter(h1)) && TripAfter(h1).Some? && TripAfter(h1).value != ""
              && !StoppedBefore(c, t0, h1)
              && TripBegan(t0, h1) <= since && t0 <= since && NeverUp(c, h1, since, e.now)
  {
    TimedSnoc(t0, h, e);
    assert (h + [e])[..|h|] == h;
    WatchOk(c, t0, h);
    TakenOk(c, t0, h, e);
    ReactIsTick(c, After(c, t0, h), e);
    TickStops(c, t0, h + [e], Taken(c, After(c, t0, h), e), e.now);
  }

  /** What a look at the clock decides, in terms of the history. */
  lemma TickStops(c: Limits, t0: real, h: seq<Event>, w: Watch, now: real)
    requires c.stale >= 0.0 && LinkOk(c, t0, h, w) && TripOk(c, t0, h, w) && Past(h, t0, now)
    requires w.msgAt.Some? ==> w.msgAt.value <= now
    ensures var since := now - c.stopAfter;
            Tick(c, w, now).1 <==>
              && c.stopAfter > 0.0 && Underway(w.state) && Named(w.tripId) && w.stopped.None?
              && w.tripSince <= since && t0 <= since && NeverUp(c, h, since, now)
  {
    DownLongEnough(c, t0, h, w, now);
  }

  /** Being down since the stop time, or longer, is having no up instant in it. */
  lemma DownLongEnough(c: Limits, t0: real, h: seq<Event>, w: Watch, now: real)
    requires c.stale >= 0.0 && LinkOk(c, t0, h, w) && Past(h, t0, now)
    requires w.msgAt.Some? ==> w.msgAt.value <= now
    ensures c.stopAfter > 0.0 ==>
              (DownSince(c, w, now).Some? && DownSince(c, w, now).value <= now - c.stopAfter <==>
                 t0 <= now - c.stopAfter && NeverUp(c, h, now - c.stopAfter, now))
  {
    DownAgrees(c, t0, h, w, now);
  }

  // ---------------------------------------------------------------- one stop a trip

  predicate BeginsAt(h: seq<Event>, k: nat) { k < |h| && Begins(h[..k + 1]) }

  lemma {:induction false} RemembersStop(c: Limits, t0: real, h: seq<Event>, i: nat)
    requires i + 1 < |h| && Stops(c, t0, h[..i + 1])
    requires forall k :: i < k < |h| ==> !BeginsAt(h, k)
    ensures StoppedBefore(c, t0, h)
    decreases |h|
  {
    var n := |h| - 1;
    assert h[..n + 1] == h && !BeginsAt(h, n);
    assert forall k :: 0 <= k <= n ==> h[..n][..k] == h[..k];
    if i + 1 < n {
      assert forall k :: i < k < n ==> !BeginsAt(h, k) && !BeginsAt(h[..n], k);
      RemembersStop(c, t0, h[..n], i);
    }
  }

  lemma {:induction false} TimedPrefix(t0: real, h: seq<Event>, n: nat)
    requires Timed(t0, h) && n <= |h|
    ensures Timed(t0, h[..n])
    decreases |h|
  {
    if n == |h| {
      assert h[..n] == h;
    } else {
      TimedPrefix(t0, h[..|h| - 1], n);
      assert h[..|h| - 1][..n] == h[..n];
    }
  }

  lemma NoSecondStop(c: Limits, t0: real, h: seq<Event>, i: nat)
    requires c.stale >= 0.0 && Timed(t0, h) && i + 1 < |h| && Stops(c, t0, h[..i + 1])
    requires forall k :: i < k < |h| ==> !BeginsAt(h, k)
    ensures !Stops(c, t0, h)
  {
    RemembersStop(c, t0, h, i);
    assert h == h[..|h| - 1] + [h[|h| - 1]];
    StopExactly(c, t0, h[..|h| - 1], h[|h| - 1]);
  }

  /** Between two stops a new trip began. */
  lemma OneStopPerTrip(c: Limits, t0: real, h: seq<Event>, i: nat, j: nat)
    requires c.stale >= 0.0 && Timed(t0, h) && i < j < |h|
    requires Stops(c, t0, h[..i + 1]) && Stops(c, t0, h[..j + 1])
    ensures exists k :: i < k <= j && BeginsAt(h, k)
  {
    if forall k :: i < k <= j ==> !BeginsAt(h, k) {
      var g := h[..j + 1];
      assert g[..i + 1] == h[..i + 1];
      forall k | i < k <= j
        ensures !BeginsAt(g, k)
      {
        assert g[..k + 1] == h[..k + 1] && !BeginsAt(h, k);
      }
      TimedPrefix(t0, h, j + 1);
      NoSecondStop(c, t0, g, i);
      assert false;
    }
  }

  // ---------------------------------------------------------------- the object

  class LinkMonitor {
    const cfg: Limits
    const started: real
    var connected: bool
    var msgAt: Option<real>
    var falseSince: Option<real>
    var state: State
    var tripId: Option<string>
    var tripSince: real
    var stopped: Option<string>

    ghost function Value(): Watch
      reads this
    {
      Watch(started, connected, msgAt, falseSince, state, tripId, tripSince, stopped)
    }

    constructor (c: Limits, now: real)
      ensures cfg == c && Value() == Fresh(now)
    {
      cfg, started := c, now;
      connected, msgAt, falseSince := false, None, None;
      state, tripId, tripSince, stopped := MissionSpec.Idle, None, now, None;
    }

    method DownFrom(now: real) returns (r: Option<real>)
      ensures r == DownSince(cfg, Value(), now)
    {
      if msgAt.None? {
        return Some(started);
      }
      if !connected {
        return falseSince;
      }
      if now - msgAt.value > cfg.stale {
        return Some(msgAt.value + cfg.stale);
      }
      r := None;
    }

    method Link(now: real, up: bool) returns (stop: bool)
      modifies this
      ensures (Value(), stop) == React(cfg, old(Value()), Status(now, up))
    {
      var prev := DownFrom(now);
      msgAt := Some(now);
      connected := up;
      if !up {
        falseSince := if prev.Some? then prev else Some(now);
      }
      stop := OnTimer(now);
    }

    method Mission(now: real, s: State, trip: Option<string>) returns (stop: bool)
      modifies this
      ensures (Value(), stop) == React(cfg, old(Value()), Trip(now, s, trip))
    {
      if trip != tripId || (s.Starting? && !state.Starting?) {
        tripSince := now;
        stopped := None;
      }
      state, tripId := s, trip;
      stop := OnTimer(now);
    }

    method OnTimer(now: real) returns (stop: bool)
      modifies this`stopped
      ensures (Value(), stop) == Tick(cfg, old(Value()), now)
    {
      if cfg.stopAfter <= 0.0 || (!state.Starting? && !state.Active?) || !Named(tripId) || stopped == tripId {
        return false;
      }
      var down := DownFrom(now);
      if down.None? {
        return false;
      }
      var since := if down.value < tripSince then tripSince else down.value;
      if now - since >= cfg.stopAfter {
        stopped := tripId;
        return true;
      }
      stop := false;
    }
  }
}
