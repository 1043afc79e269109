/** Command watchdog on a wrapping clock, and the fault latch. Fault bits are a set here. */
module MotorSafety {
  import opened Words

  const CMD_WATCHDOG_MS: int := 200

  datatype Fault = Tx | RxRearm | TxBuild

  datatype Safety = Safety(lastCmd: u32, timeout: u32, faults: set<Fault>, timedOut: bool, notify: bool)

  function Init(now: u32, timeout: u32): Safety {
    Safety(Wrap(now - timeout), timeout, {}, true, false)
  }

  function Feed(s: Safety, now: u32): Safety {
    if s.faults != {} then s else s.(lastCmd := now)
  }

  function Latch(s: Safety, faults: set<Fault>): Safety {
    s.(faults := s.faults + faults, timedOut := true)
  }

  predicate Expired(s: Safety, now: u32) { Wrap(now - s.lastCmd) >= s.timeout }

  /** Whether output may be driven now; the expiry edge is recorded in the state. */
  function Allow(s: Safety, now: u32): (Safety, bool) {
    if s.faults != {} then (s.(timedOut := true), false)
    else if Expired(s, now) then (s.(timedOut := true, notify := s.notify || !s.timedOut), false)
    else (s.(timedOut := false), true)
  }

  function TakeNotify(s: Safety): (Safety, bool) { (s.(notify := false), s.notify) }

  /** The watchdog is exact on true time as long as it is asked often enough: output is allowed exactly
      without a fault and while the last command is younger than the timeout, and a notice is raised
      exactly when age alone ends it. */
  lemma AllowIsFreshness(s: Safety, now: int, fedAt: int)
    requires s.lastCmd == Wrap(fedAt)
    requires 0 <= now - fedAt < TWO32
    ensures var (s1, ok) := Allow(s, Wrap(now));
            && (ok <==> s.faults == {} && now - fedAt < s.timeout)
            && (s1.timedOut <==> !ok)
            && (s1.notify <==> s.notify || (s.faults == {} && now - fedAt >= s.timeout && !s.timedOut))
            && s1 == s.(timedOut := s1.timedOut, notify := s1.notify)
  {
    UnsignedAge(now, fedAt);
  }

  /** Feeding the watchdog at true time `fedAt` allows output for exactly the timeout from then on; under a
      fault it changes nothing. */
  lemma FedMeans(s: Safety, fedAt: int, now: int)
    requires 0 <= now - fedAt < TWO32
    ensures Allow(Feed(s, Wrap(fedAt)), Wrap(now)).1 <==> s.faults == {} && now - fedAt < s.timeout
    ensures s.faults != {} ==> Feed(s, Wrap(fedAt)) == s
  {
    if s.faults == {} {
      AllowIsFreshness(Feed(s, Wrap(fedAt)), now, fedAt);
    }
  }

  /** motor_safety_t */
  class Watchdog {
    var lastCmd: u32
    var timeout: u32
    var faults: set<Fault>
    var timedOut: bool
    var notify: bool

    function Value(): Safety
      reads this
    {
      Safety(lastCmd, timeout, faults, timedOut, notify)
    }

    constructor (now: u32, timeout: u32)
      ensures Value() == Init(now, timeout)
    {
      this.timeout := timeout;
      lastCmd := Wrap(now - timeout);
      faults, timedOut, notify := {}, true, false;
    }

    method Nourish(now: u32)
      modifies this
      ensures Value() == Feed(old(Value()), now)
    {
      if faults != {} {
        return;
      }
      lastCmd := now;
    }

    method LatchFault(flags: set<Fault>)
      modifies this
      ensures Value() == Latch(old(Value()), flags)
    {
      faults := faults + flags;
      timedOut := true;
    }

    method OutputAllowed(now: u32) returns (ok: bool)
      modifies this
      ensures (Value(), ok) == Allow(old(Value()), now)
    {
      if faults != {} {
        timedOut := true;
        return false;
      }
      if Wrap(now - lastCmd) >= timeout {
        if !timedOut {
          timedOut := true;
          notify := true;
        }
        return false;
      }
      timedOut := false;
      ok := true;
    }

    method PopNotify() returns (was: bool)
      modifies this
      ensures (Value(), was) == TakeNotify(old(Value()))
    {
      was := notify;
      notify := false;
    }
  }
}
