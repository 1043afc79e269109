/** The trip state machine as the object the node drives, against MissionSpec. */
module MissionMachine {
  import opened Words
  import opened MissionSpec

  class Mission {
    const cfg: Config
    var state: State
    var trip: Option<Trip>
    var lastError: Option<string>
    var entered: real
    var disableOkAt: Option<real>
    var disablePending: bool
    var nextDisableAt: Option<real>
    var odomAt: Option<real>
    var stillSince: Option<real>
    var abortMsg: Option<string>

    ghost function Value(): Machine
      reads this
    {
      Machine(state, trip, lastError, entered, disableOkAt, disablePending, nextDisableAt, odomAt,
              stillSince, abortMsg)
    }

    constructor (c: Config)
      ensures cfg == c && Value() == FRESH
    {
      cfg := c;
      state, trip, lastError, entered := Idle, None, None, 0.0;
      disableOkAt, disablePending, nextDisableAt := None, false, None;
      odomAt, stillSince, abortMsg := None, None, None;
    }

    method Set(s: State, now: real)
      modifies this`state, this`entered
      ensures Value() == Enter(old(Value()), s, now)
    {
      state := s;
      entered := now;
    }

    method SetFailed(now: real, message: string)
      modifies this
      ensures Value() == Fail(old(Value()), now, message)
    {
      lastError := Some(message);
      Set(Failed, now);
    }

    method RequestDisable() returns (orders: seq<bool>)
      modifies this`disablePending, this`nextDisableAt
      ensures (Value(), orders) == AskDisable(old(Value()))
    {
      disablePending := true;
      nextDisableAt := None;
      orders := [false];
    }

    method BeginTrip(now: real, t: Trip) returns (orders: seq<bool>)
      modifies this
      ensures (Value(), orders) == Start(old(Value()), now, t)
    {
      if state.Starting? || state.Active? || state.Cancelling? {
        return [];
      }
      trip := Some(t);
      lastError := None;
      abortMsg := None;
      Set(Starting, now);
      orders := [true];
    }

    method CancelTrip(now: real) returns (orders: seq<bool>)
      modifies this
      ensures (Value(), orders) == Cancel(old(Value()), now)
    {
      abortMsg := None;
      if state.Cancelling? {
        return [];
      }
      if state.Starting? || state.Active? || state.Failed? {
        Set(Cancelling, now);
        disableOkAt := None;
        stillSince := None;
      }
      orders := RequestDisable();
    }

    method AbortTrip(now: real, message: string) returns (orders: seq<bool>)
      modifies this
      ensures (Value(), orders) == Abort(old(Value()), now, message)
    {
      if !state.Starting? && !state.Active? {
        return [];
      }
      abortMsg := Some(message);
      Set(Cancelling, now);
      disableOkAt := None;
      stillSince := None;
      orders := RequestDisable();
    }

    method TakeResult(now: real, want: bool, ok: bool) returns (orders: seq<bool>)
      modifies this
      ensures (Value(), orders) == EnableResult(cfg, old(Value()), now, want, ok)
    {
      if want {
        if !ok {
          if state.Starting? {
            SetFailed(now, MSG_ENABLE_FAILED);
            orders := RequestDisable();
            return;
          }
          return [];
        }
        if state.Starting? {
          Set(Active, now);
          return [];
        }
        orders := RequestDisable();
        return;
      }
      disablePending := false;
      if ok {
        if state.Cancelling? && disableOkAt.None? {
          disableOkAt := Some(now);
        }
        return [];
      }
      if state.Cancelling? {
        nextDisableAt := Some(now + cfg.disableRetry);
      }
      orders := [];
    }

    method TakeOdom(now: real, v: real, w: real)
      modifies this
      ensures Value() == Odom(cfg, old(Value()), now, v, w)
    {
      odomAt := Some(now);
      if !Still(cfg, v, w) {
        stillSince := None;
      } else if stillSince.None? {
        stillSince := Some(now);
      }
    }

    method IsStopped(now: real) returns (r: bool)
      requires disableOkAt.Some?
      ensures r == Stopped(cfg, Value(), now)
    {
      var odomFresh := odomAt.Some? && now - odomAt.value <= cfg.odomStale;
      if odomFresh {
        return stillSince.Some? && now - stillSince.value >= cfg.stopHold;
      }
      r := now - disableOkAt.value >= cfg.stopFallback;
    }

    method OnTick(now: real) returns (orders: seq<bool>)
      modifies this
      ensures (Value(), orders) == Tick(cfg, old(Value()), now)
    {
      if state.Starting? && now - entered > cfg.enableTimeout {
        SetFailed(now, MSG_ENABLE_FAILED);
        orders := RequestDisable();
        return;
      }
      if state.Cancelling? {
        var stopped := false;
        if disableOkAt.Some? {
          stopped := IsStopped(now);
        }
        if stopped {
          if abortMsg.Some? {
            SetFailed(now, abortMsg.value);
            abortMsg := None;
          } else {
            Set(Cancelled, now);
          }
          return [];
        }
        if now - entered > cfg.stopTimeout {
          abortMsg := None;
          SetFailed(now, MSG_STOP_UNCONFIRMED);
          return [];
        }
        if disableOkAt.None? && !disablePending && nextDisableAt.Some? && now >= nextDisableAt.value {
          orders := RequestDisable();
          return;
        }
      }
      if state.Cancelled? && now - entered > cfg.terminalHold {
        trip := None;
        Set(Idle, now);
      }
      orders := [];
    }
  }
}
