/** The alarm monitor as the object the mission node drives, against SafetySpec. */
module SafetyMonitor {
  import opened Words
  import opened SafetySpec
  import MissionSpec

  class Alarms {
    const cfg: Limits
    var state: State
    var tripId: Option<string>
    var acquired: bool
    var markerAt: Option<real>
    var seenAt: Option<real>
    var recoverSince: Option<real>
    var sos: Option<Sos>
    var stopSent: bool

    ghost function Value(): Monitor
      reads this
    {
      Monitor(state, tripId, acquired, markerAt, seenAt, recoverSince, sos, stopSent)
    }

    constructor (c: Limits)
      ensures cfg == c && Value() == FRESH
    {
      cfg := c;
      state, tripId, acquired := MissionSpec.Idle, None, false;
      markerAt, seenAt, recoverSince := None, None, None;
      sos, stopSent := None, false;
    }

    method OnMission(now: real, s: State, trip: Option<string>, newId: string) returns (acts: seq<Action>)
      modifies this
      ensures (Value(), acts) == React(cfg, old(Value()), Mission(now, s, trip, newId))
    {
      if trip != tripId {
        acquired := false;
      }
      state, tripId := s, trip;
      acts := OnTimer(now, newId);
    }

    method OnMarker(now: real, status: int, newId: string) returns (acts: seq<Action>)
      modifies this
      ensures (Value(), acts) == React(cfg, old(Value()), Marker(now, status, newId))
    {
      var gap := markerAt.Some? && now - markerAt.value > cfg.markerStale;
      markerAt := Some(now);
      if Seen(status) {
        if state.Starting? || state.Active? {
          acquired := true;
        }
        if recoverSince.None? || gap {
          recoverSince := Some(now);
        }
        seenAt := Some(now);
      } else {
        recoverSince := None;
      }
      acts := OnTimer(now, newId);
    }

    method OnTrip(now: real, command: Command) returns (acts: seq<Action>)
      modifies this
      ensures (Value(), acts) == React(cfg, old(Value()), Trip(now, command))
    {
      if sos.None? || command.OtherCommand? {
        return [];
      }
      acquired := false;
      acts := Finish(if command.CancelTrip? then UserCancelled else Handled);
    }

    method OnRaise(now: real, id: string) returns (acts: seq<Action>)
      modifies this
      ensures (Value(), acts) == React(cfg, old(Value()), Raise(now, id))
    {
      if sos.Some? {
        return [];
      }
      sos, stopSent := Some(Sos(id, Manual)), false;
      acts := [Request(id, Manual, tripId)];
    }

    method OnCalm(now: real, id: string) returns (acts: seq<Action>)
      modifies this
      ensures (Value(), acts) == React(cfg, old(Value()), Calm(now, id))
    {
      if sos.None? || sos.value.id != id {
        return [];
      }
      if !sos.value.reason.Manual? {
        acquired := false;
      }
      acts := Finish(UserCancelled);
    }

    method OnAck(now: real, id: string, received: bool) returns (acts: seq<Action>)
      modifies this`stopSent
      ensures (Value(), acts) == React(cfg, old(Value()), Ack(now, id, received))
    {
      if sos.None? || sos.value.id != id || received || stopSent {
        return [];
      }
      if cfg.stopOnNoAck && (state.Starting? || state.Active?) {
        stopSent := true;
        return [Stop];
      }
      acts := [];
    }

    method OnTimer(now: real, newId: string) returns (acts: seq<Action>)
      modifies this
      ensures (Value(), acts) == Tick(cfg, old(Value()), now, newId)
    {
      if recoverSince.Some? && markerAt.Some? && now - markerAt.value > cfg.markerStale {
        recoverSince := None;
      }
      if sos.Some? {
        if sos.value.reason.Manual? {
          return [];
        }
        if recoverSince.Some? && now - recoverSince.value >= cfg.recoverToClear {
          acts := Finish(TrackingRecovered);
          return;
        }
        return [];
      }
      if !state.Active? || !acquired {
        return [];
      }
      if seenAt.Some? && now - seenAt.value >= cfg.lostToSos {
        sos, stopSent, recoverSince := Some(Sos(newId, TrackingLost)), false, None;
        return [Request(newId, TrackingLost, tripId)];
      }
      acts := [];
    }

    method Finish(resolution: Resolution) returns (acts: seq<Action>)
      requires sos.Some?
      modifies this`sos, this`stopSent
      ensures (Value(), acts) == Close(old(Value()), resolution)
    {
      var id := sos.value.id;
      sos, stopSent := None, false;
      acts := [Clear(id, resolution)];
    }
  }
}
