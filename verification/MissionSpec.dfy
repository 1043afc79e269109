/** The trip state machine as functions from state to state. Every operation also gives the orders for
    the follow node: true asks for following to be enabled, false for it to be disabled. */
module MissionSpec {
  import opened Words

  datatype State = Idle | Starting | Active | Cancelling | Cancelled | Failed

  datatype Config = Config(enableTimeout: real, stopTimeout: real, stopFallback: real, linearEps: real,
                           angularEps: real, stopHold: real, odomStale: real, disableRetry: real,
                           terminalHold: real)

  const DEFAULTS: Config := Config(3.0, 5.0, 1.0, 0.02, 0.05, 0.3, 0.5, 0.5, 3.0)

  const MSG_ENABLE_FAILED: string := "follow could not be started"
  const MSG_STOP_UNCONFIRMED: string := "the stop could not be confirmed"

  datatype Trip = Trip(id: string, origin: string, destination: string)

  datatype Machine = Machine(state: State, trip: Option<Trip>, lastError: Option<string>, entered: real,
                             disableOkAt: Option<real>, disablePending: bool, nextDisableAt: Option<real>,
                             odomAt: Option<real>, stillSince: Option<real>, abortMsg: Option<string>)

  const FRESH: Machine := Machine(Idle, None, None, 0.0, None, false, None, None, None, None)

  predicate Moving(m: Machine) { m.state.Starting? || m.state.Active? }

  predicate OnTrip(m: Machine) { Moving(m) || m.state.Cancelling? }

  function Enter(m: Machine, s: State, now: real): Machine { m.(state := s, entered := now) }

  function Fail(m: Machine, now: real, message: string): Machine {
    Enter(m.(lastError := Some(message)), Failed, now)
  }

  function AskDisable(m: Machine): (Machine, seq<bool>) {
    (m.(disablePending := true, nextDisableAt := None), [false])
  }

  /** The beginning of a stop: nothing seen before it counts as evidence. */
  function Stopping(m: Machine, now: real): Machine {
    Enter(m, Cancelling, now).(disableOkAt := None, stillSince := None)
  }

  function Start(m: Machine, now: real, trip: Trip): (Machine, seq<bool>) {
    if OnTrip(m) then (m, [])
    else (Enter(m.(trip := Some(trip), lastError := None, abortMsg := None), Starting, now), [true])
  }

  function Cancel(m: Machine, now: real): (Machine, seq<bool>) {
    var m1 := m.(abortMsg := None);
    if m.state.Cancelling? then (m1, [])
    else AskDisable(if Moving(m) || m.state.Failed? then Stopping(m1, now) else m1)
  }

  function Abort(m: Machine, now: real, message: string): (Machine, seq<bool>) {
    if !Moving(m) then (m, []) else AskDisable(Stopping(m.(abortMsg := Some(message)), now))
  }

  function EnableResult(c: Config, m: Machine, now: real, want: bool, ok: bool): (Machine, seq<bool>) {
    if want && !ok then
      if m.state.Starting? then AskDisable(Fail(m, now, MSG_ENABLE_FAILED)) else (m, [])
    else if want then
      if m.state.Starting? then (Enter(m, Active, now), []) else AskDisable(m)
    else
      var m1 := m.(disablePending := false);
      if !m.state.Cancelling? then (m1, [])
      else if !ok then (m1.(nextDisableAt := Some(now + c.disableRetry)), [])
      else if m.disableOkAt.None? then (m1.(disableOkAt := Some(now)), [])
      else (m1, [])
  }

  function Abs(x: real): real { if x < 0.0 then -x else x }

  predicate Still(c: Config, v: real, w: real) { Abs(v) < c.linearEps && Abs(w) < c.angularEps }

  function Odom(c: Config, m: Machine, now: real, v: real, w: real): Machine {
    m.(odomAt := Some(now),
       stillSince := if !Still(c, v, w) then None else if m.stillSince.None? then Some(now) else m.stillSince)
  }

  /** The stop counts as confirmed: by fresh odometry that stood still long enough, or, without fresh
      odometry, by the time since following was disabled. */
  predicate Stopped(c: Config, m: Machine, now: real)
    requires m.disableOkAt.Some?
  {
    if m.odomAt.Some? && now - m.odomAt.value <= c.odomStale then
      m.stillSince.Some? && now - m.stillSince.value >= c.stopHold
    else now - m.disableOkAt.value >= c.stopFallback
  }

  function Tick(c: Config, m: Machine, now: real): (Machine, seq<bool>) {
    if m.state.Starting? && now - m.entered > c.enableTimeout then AskDisable(Fail(m, now, MSG_ENABLE_FAILED))
    else if m.state.Cancelling? then
      if m.disableOkAt.Some? && Stopped(c, m, now) then
        (if m.abortMsg.Some? then Fail(m, now, m.abortMsg.value).(abortMsg := None) else Enter(m, Cancelled, now), [])
      else if now - m.entered > c.stopTimeout then (Fail(m.(abortMsg := None), now, MSG_STOP_UNCONFIRMED), [])
      else if m.disableOkAt.None? && !m.disablePending && m.nextDisableAt.Some? && now >= m.nextDisableAt.value then
        AskDisable(m)
      else (m, [])
    else if m.state.Cancelled? && now - m.entered > c.terminalHold then (Enter(m.(trip := None), Idle, now), [])
    else (m, [])
  }

  // ---------------------------------------------------------------- histories

  datatype Input =
    | StartTrip(now: real, trip: Trip)
    | CancelTrip(now: real)
    | AbortTrip(now: real, message: string)
    | Outcome(now: real, want: bool, ok: bool)
    | Odometry(now: real, v: real, w: real)
    | Clock(now: real)

  function React(c: Config, m: Machine, i: Input): (Machine, seq<bool>) {
    match i
    case StartTrip(now, trip) => Start(m, now, trip)
    case CancelTrip(now) => Cancel(m, now)
    case AbortTrip(now, message) => Abort(m, now, message)
    case Outcome(now, want, ok) => EnableResult(c, m, now, want, ok)
    case Odometry(now, v, w) => (Odom(c, m, now, v, w), [])
    case Clock(now) => Tick(c, m, now)
  }

  /** The machine after a history of inputs. */
  function After(c: Config, m: Machine, h: seq<Input>): Machine {
    if h == [] then m else React(c, After(c, m, h[..|h| - 1]), h[|h| - 1]).0
  }
}
