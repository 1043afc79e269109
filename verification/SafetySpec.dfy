/** When the robot raises and closes an alarm about a lost marker, as functions from state to state,
    and what a history of messages says about it. */
module SafetySpec {
  import opened Words
  import MissionSpec

  type State = MissionSpec.State

  datatype Limits = Limits(lostToSos: real, recoverToClear: real, markerStale: real, stopOnNoAck: bool)

  datatype Reason = TrackingLost | Manual

  datatype Resolution = TrackingRecovered | Handled | UserCancelled

  datatype Sos = Sos(id: string, reason: Reason)

  datatype Action =
    | Request(id: string, reason: Reason, tripId: Option<string>)
    | Clear(id: string, resolution: Resolution)
    | Stop

  datatype Monitor = Monitor(state: State, tripId: Option<string>, acquired: bool, markerAt: Option<real>,
                             seenAt: Option<real>, recoverSince: Option<real>, sos: Option<Sos>, stopSent: bool)

  const FRESH: Monitor := Monitor(MissionSpec.Idle, None, false, None, None, None, None, false)

  datatype Command = StartTrip | CancelTrip | OtherCommand

  /** `newId` is the identifier a new alarm would get. */
  datatype Event =
    | Mission(now: real, state: State, tripId: Option<string>, newId: string)
    | Marker(now: real, status: int, newId: string)
    | Timer(now: real, newId: string)
    | Trip(now: real, command: Command)
    | Raise(now: real, id: string)
    | Calm(now: real, id: string)
    | Ack(now: real, id: string, received: bool)

  const MARKER_TRACKING: int := 1
  const MARKER_HOLDING: int := 2

  predicate Seen(status: int) { status == MARKER_TRACKING || status == MARKER_HOLDING }

  predicate Underway(s: State) { s.Starting? || s.Active? }

  function Open(m: Monitor, id: string, reason: Reason): (Monitor, seq<Action>) {
    (m.(sos := Some(Sos(id, reason)), stopSent := false), [Request(id, reason, m.tripId)])
  }

  function Close(m: Monitor, resolution: Resolution): (Monitor, seq<Action>)
    requires m.sos.Some?
  {
    (m.(sos := None, stopSent := false), [Clear(m.sos.value.id, resolution)])
  }

  /** A marker run that broke off is no recovery. */
  function Expire(c: Limits, m: Monitor, now: real): Monitor {
    if m.recoverSince.Some? && m.markerAt.Some? && now - m.markerAt.value > c.markerStale then m.(recoverSince := None)
    else m
  }

  function Tick(c: Limits, m0: Monitor, now: real, newId: string): (Monitor, seq<Action>) {
    var m := Expire(c, m0, now);
    if m.sos.Some? then
      if m.sos.value.reason.Manual? then (m, [])
      else if m.recoverSince.Some? && now - m.recoverSince.value >= c.recoverToClear then Close(m, TrackingRecovered)
      else (m, [])
    else if !m.state.Active? || !m.acquired then (m, [])
    else if m.seenAt.Some? && now - m.seenAt.value >= c.lostToSos then
      Open(m.(recoverSince := None), newId, TrackingLost)
    else (m, [])
  }

  function Look(c: Limits, m: Monitor, now: real, status: int): Monitor {
    var gap := m.markerAt.Some? && now - m.markerAt.value > c.markerStale;
    if Seen(status) then
      m.(markerAt := Some(now), acquired := m.acquired || Underway(m.state), seenAt := Some(now),
         recoverSince := if m.recoverSince.None? || gap then Some(now) else m.recoverSince)
    else m.(markerAt := Some(now), recoverSince := None)
  }

  function React(c: Limits, m: Monitor, e: Event): (Monitor, seq<Action>) {
    match e
    case Mission(now, state, tripId, newId) =>
      Tick(c, m.(acquired := m.acquired && tripId == m.tripId, state := state, tripId := tripId), now, newId)
    case Marker(now, status, newId) => Tick(c, Look(c, m, now, status), now, newId)
    case Timer(now, newId) => Tick(c, m, now, newId)
    case Trip(_, command) =>
      if m.sos.None? || command.OtherCommand? then (m, [])
      else Close(m.(acquired := false), if command.CancelTrip? then UserCancelled else Handled)
    case Raise(_, id) => if m.sos.Some? then (m, []) else Open(m, id, Manual)
    case Calm(_, id) =>
      if m.sos.None? || m.sos.value.id != id then (m, [])
      else Close(if m.sos.value.reason.Manual? then m else m.(acquired := false), UserCancelled)
    case Ack(_, id, received) =>
      if m.sos.None? || m.sos.value.id != id || received || m.stopSent then (m, [])
      else if c.stopOnNoAck && Underway(m.state) then (m.(stopSent := true), [Stop])
      else (m, [])
  }

  function After(c: Limits, h: seq<Event>): Monitor {
    if h == [] then FRESH else React(c, After(c, h[..|h| - 1]), h[|h| - 1]).0
  }

  /** What the last event of the history brought about. */
  function Acts(c: Limits, h: seq<Event>): seq<Action> {
    if h == [] then [] else React(c, After(c, h[..|h| - 1]), h[|h| - 1]).1
  }

  /** Everything sent out so far. */
  function Output(c: Limits, h: seq<Event>): seq<Action> {
    if h == [] then [] else Output(c, h[..|h| - 1]) + Acts(c, h)
  }

  // ---------------------------------------------------------------- what a well-formed output is

  datatype Phase = Closed | Opened(id: string, stopped: bool)

  /** Requests and clears alternate and carry the same identifier, and between the two there is at most
      one stop: the phase after the whole output, if it is of that kind. */
  function PhaseAfter(out: seq<Action>): Option<Phase> {
    if out == [] then Some(Closed)
    else
      match PhaseAfter(out[..|out| - 1])
      case None => None
      case Some(p) =>
        match out[|out| - 1]
        case Request(id, _, _) => if p.Closed? then Some(Opened(id, false)) else None
        case Clear(id, _) => if p.Opened? && p.id == id then Some(Closed) else None
        case Stop => if p.Opened? && !p.stopped then Some(Opened(p.id, true)) else None
  }

  // ---------------------------------------------------------------- what the history says

  ghost predicate Past(h: seq<Event>, now: real) { forall i :: 0 <= i < |h| ==> h[i].now <= now }

  /** Times do not go back. */
  predicate Timed(h: seq<Event>) {
    |h| < 2 || (Timed(h[..|h| - 1]) && h[|h| - 2].now <= h[|h| - 1].now)
  }

  function StateAfter(h: seq<Event>): State {
    if h == [] then MissionSpec.Idle else if h[|h| - 1].Mission? then h[|h| - 1].state else StateAfter(h[..|h| - 1])
  }

  function TripAfter(h: seq<Event>): Option<string> {
    if h == [] then None else if h[|h| - 1].Mission? then h[|h| - 1].tripId else TripAfter(h[..|h| - 1])
  }

  function LastMarker(h: seq<Event>): Option<real> {
    if h == [] then None else if h[|h| - 1].Marker? then Some(h[|h| - 1].now) else LastMarker(h[..|h| - 1])
  }

  /** The marker is tracked (1) or held (2). */
  predicate IsSeen(e: Event) { e.Marker? && (e.status == 1 || e.status == 2) }

  function LastSeen(h: seq<Event>): Option<real> {
    if h == [] then None else if IsSeen(h[|h| - 1]) then Some(h[|h| - 1].now) else LastSeen(h[..|h| - 1])
  }

  predicate Ticks(e: Event) { e.Mission? || e.Marker? || e.Timer? }

  /** Event j ends what was known about the marker of the trip: another trip, or the user dealing with
      an alarm. */
  predicate Forgets(c: Limits, h: seq<Event>, j: nat)
    requires j < |h|
  {
    var sos := After(c, h[..j]).sos;
    match h[j]
    case Mission(_, _, tripId, _) => tripId != TripAfter(h[..j])
    case Trip(_, command) => sos.Some? && !command.OtherCommand?
    case Calm(_, id) => sos == Some(Sos(id, TrackingLost))
    case _ => false
  }

  /** The marker was seen at event k, during a trip that is still the current one. */
  ghost predicate Grabbed(c: Limits, h: seq<Event>, k: nat) {
    && k < |h| && IsSeen(h[k]) && Underway(StateAfter(h[..k]))
    && forall j :: k < j < |h| ==> !Forgets(c, h, j)
  }

  ghost predicate Acquired(c: Limits, h: seq<Event>) { exists k :: Grabbed(c, h, k) }

  /** No marker was seen after instant `limit`. */
  ghost predicate NoneSeenAfter(h: seq<Event>, limit: real) {
    forall i :: 0 <= i < |h| && IsSeen(h[i]) ==> h[i].now <= limit
  }

  predicate RaisesLost(acts: seq<Action>) { exists a :: a in acts && a.Request? && a.reason.TrackingLost? }

  predicate ClearsRecovered(acts: seq<Action>) { exists a :: a in acts && a.Clear? && a.resolution.TrackingRecovered? }

  /** The last event of the history raised an alarm for a lost marker. */
  predicate Requests(c: Limits, h: seq<Event>) { RaisesLost(Acts(c, h)) }

  /** The last event of the history closed an alarm because the marker was back. */
  predicate Recovers(c: Limits, h: seq<Event>) { ClearsRecovered(Acts(c, h)) }

  /** How much of the history lies behind the last alarm for a lost marker. */
  function AlarmEnd(c: Limits, h: seq<Event>): nat {
    if h == [] then 0 else if Requests(c, h) then |h| else AlarmEnd(c, h[..|h| - 1])
  }

  /** The last marker message is not stale at time `now`. */
  predicate Alive(c: Limits, h: seq<Event>, now: real) {
    LastMarker(h).Some? && now - LastMarker(h).value <= c.markerStale
  }

  /** From event i on every marker message saw the marker, with no gap in between. */
  predicate Steady(c: Limits, h: seq<Event>, i: nat) {
    i < |h| &&
    if i == |h| - 1 then IsSeen(h[i])
    else
      var before, e := h[..|h| - 1], h[|h| - 1];
      Steady(c, before, i) && (e.Marker? ==> IsSeen(e) && Alive(c, before, e.now))
  }
}
