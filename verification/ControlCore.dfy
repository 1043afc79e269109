/** control_core_t: the object the control task updates, cycle by cycle, against ControlSpec. */
module ControlCore {
  import opened Words
  import opened MotorSafety
  import opened MotorOutput
  import opened ControlSpec
  import S = SpeedControl
  import E = Encoder

  class Control {
    const safety: Watchdog
    const encLeft: E.Accumulator
    const encRight: E.Accumulator
    const spdLeft: S.Wheel
    const spdRight: S.Wheel
    var measuredLeft: real
    var measuredRight: real
    var cmdLeft: int
    var cmdRight: int
    var outLeft: int
    var outRight: int
    var closedLoop: bool
    var appliedSeq: u32
    var tickSeen: u32
    var loopCount: u32
    var overruns: u32
    var urgentStops: u32
    var staleCommands: u32
    var heartbeat: u32
    var wdSeq: u32
    var wdMs: u32
    var outputAllowed: bool

    ghost const Repr: set<object> := {this, safety, encLeft, encRight, spdLeft, spdRight}

    /** The two wheels do not share state. */
    ghost predicate Valid() { encLeft != encRight && spdLeft != spdRight }

    ghost function Value(): Core
      reads Repr
    {
      Core(safety.Value(), encLeft.Value(), encRight.Value(), spdLeft.Value(), spdRight.Value(),
           measuredLeft, measuredRight, cmdLeft, cmdRight, outLeft, outRight, closedLoop, appliedSeq,
           tickSeen, loopCount, overruns, urgentStops, staleCommands, heartbeat, wdSeq, wdMs, outputAllowed)
    }

    constructor (now: u32, rawLeft: u16, rawRight: u16)
      ensures Valid() && fresh(Repr) && Value() == Boot(now, rawLeft, rawRight)
    {
      safety := new Watchdog(now, CMD_WATCHDOG_MS);
      encLeft := new E.Accumulator(ENCODER_SIGN_LEFT, rawLeft);
      encRight := new E.Accumulator(ENCODER_SIGN_RIGHT, rawRight);
      spdLeft := new S.Wheel();
      spdRight := new S.Wheel();
      measuredLeft, measuredRight := 0.0, 0.0;
      cmdLeft, cmdRight, outLeft, outRight := 0, 0, 0, 0;
      closedLoop, outputAllowed := false, false;
      appliedSeq, tickSeen, loopCount, overruns, urgentStops := 0, 0, 0, 0, 0;
      staleCommands, heartbeat, wdSeq, wdMs := 0, 0, 0, 0;
    }

    /** control_coast */
    method GoCoasting()
      requires Valid()
      modifies Repr
      ensures Value() == Coast(old(Value()))
    {
      cmdLeft, cmdRight := 0, 0;
      spdLeft.Aim(0);
      spdRight.Aim(0);
      spdLeft.Clear();
      spdRight.Clear();
    }

    /** control_run_closed_loop */
    method RunClosedLoop(t: Tuning, advance: bool)
      requires Valid() && t.left.dutyMax >= 0 && t.right.dutyMax >= 0
      modifies Repr
      ensures Value() == RunLoop(old(Value()), t, advance)
    {
      cmdLeft := spdLeft.Step(t.left, measuredLeft, advance);
      cmdRight := spdRight.Step(t.right, measuredRight, advance);
    }

    /** Takes the watchdog's notice, if it has one. */
    method NoteEdge(now: u32)
      requires Valid()
      modifies this`wdSeq, this`wdMs, safety
      ensures Value() == Noted(old(Value()), now)
    {
      var edge := safety.PopNotify();
      if edge {
        wdSeq := Next(wdSeq);
        wdMs := now;
      }
    }

    /** Output is refused: nothing goes out, and the watchdog's notice is taken. */
    method Refuse(now: u32)
      requires Valid()
      modifies this`outputAllowed, this`outLeft, this`outRight, this`wdSeq, this`wdMs, safety
      ensures Value() == Noted(old(Value()).(outputAllowed := false, outLeft := 0, outRight := 0), now)
    {
      outputAllowed := false;
      outLeft, outRight := 0, 0;
      NoteEdge(now);
    }

    /** The refusing end of a commit, once the watchdog has spoken. */
    method Deny(now: u32) returns (out: Out)
      requires Valid()
      modifies Repr
      ensures (Value(), out) == Denied(old(Value()), now)
    {
      Refuse(now);
      GoCoasting();
      if safety.faults != {} {
        return Kill;
      }
      out := Write(CcrOf(0, 0));
    }

    /** control_commit */
    method Finish(now: u32) returns (out: Out)
      requires Valid()
      modifies Repr
      ensures (Value(), out) == Commit(old(Value()), now)
    {
      var ok := safety.OutputAllowed(now);
      if ok {
        outputAllowed := true;
        outLeft, outRight := cmdLeft, cmdRight;
        return Write(CcrOf(cmdLeft, cmdRight));
      }
      out := Deny(now);
    }

    /** The bookkeeping of one wake: one loop, and one overrun for every tick merged into it. */
    method CountTick(tick: u32, delta: u32)
      requires Valid()
      modifies this
      ensures Value() == old(Value()).(
                overruns := if delta > 1 then Wrap(old(overruns) + (delta - 1)) else old(overruns),
                tickSeen := if delta == 0 then old(tickSeen) else tick,
                loopCount := if delta == 0 then old(loopCount) else Next(old(loopCount)),
                heartbeat := if delta == 0 then old(heartbeat) else Next(old(heartbeat)))
    {
      if delta > 1 {
        overruns := Wrap(overruns + (delta - 1));
      }
      if delta != 0 {
        tickSeen := tick;
        loopCount := Next(loopCount);
        heartbeat := Next(heartbeat);
      }
    }

    method Accumulate(rawLeft: u16, rawRight: u16)
      requires Valid()
      modifies encLeft, encRight
      ensures Value() == old(Value()).(encLeft := E.Update(old(encLeft.Value()), rawLeft),
                                       encRight := E.Update(old(encRight.Value()), rawRight))
    {
      encLeft.Sample(rawLeft);
      encRight.Sample(rawRight);
    }

    /** The sampling half of control_core_on_tick. */
    method Sample(tick: u32, rawLeft: u16, rawRight: u16, t: Tuning)
      requires Valid() && t.left.dutyMax >= 0 && t.right.dutyMax >= 0
      modifies Repr
      ensures Value() == Sampled(old(Value()), tick, rawLeft, rawRight, t)
    {
      var delta := Wrap(tick - tickSeen);
      var dLeft := encLeft.GetDelta(rawLeft);
      var dRight := encRight.GetDelta(rawRight);
      CountTick(tick, delta);
      Accumulate(rawLeft, rawRight);
      if delta != 0 {
        Measure(dLeft, dRight, delta, t);
      }
    }

    /** New speeds, and the closed loop on them if it is running. */
    method Measure(dLeft: int, dRight: int, delta: u32, t: Tuning)
      requires Valid() && delta != 0 && t.left.dutyMax >= 0 && t.right.dutyMax >= 0
      modifies Repr
      ensures var c := old(Value()).(measuredLeft := Scaled(dLeft, delta), measuredRight := Scaled(dRight, delta));
              Value() == if c.closedLoop then RunLoop(c, t, delta == 1) else c
    {
      measuredLeft := Scaled(dLeft, delta);
      measuredRight := Scaled(dRight, delta);
      if closedLoop {
        RunClosedLoop(t, delta == 1);
      }
    }

    /** control_core_on_tick */
    method Tick(now: u32, tick: u32, rawLeft: u16, rawRight: u16, t: Tuning) returns (out: Out)
      requires Valid() && t.left.dutyMax >= 0 && t.right.dutyMax >= 0
      modifies Repr
      ensures (Value(), out) == OnTick(old(Value()), now, tick, rawLeft, rawRight, t)
    {
      Sample(tick, rawLeft, rawRight, t);
      out := Finish(now);
    }

    /** Enters the closed loop unless it is running already. */
    method CloseLoop()
      requires Valid()
      modifies Repr
      ensures Value() == if old(closedLoop) then old(Value()) else Coast(old(Value()).(closedLoop := true))
    {
      if !closedLoop {
        closedLoop := true;
        GoCoasting();
      }
    }

    method AimBoth(left: int, right: int)
      requires Valid()
      modifies spdLeft, spdRight
      ensures Value() == old(Value()).(spdLeft := S.SetTarget(old(spdLeft.Value()), left),
                                       spdRight := S.SetTarget(old(spdRight.Value()), right))
    {
      spdLeft.Aim(left);
      spdRight.Aim(right);
    }

    method TakeDuty(cmd: Command)
      requires Valid()
      modifies Repr
      ensures Value() == Coast(old(Value()).(closedLoop := false))
                           .(cmdLeft := ClampPm(cmd.left), cmdRight := ClampPm(cmd.right))
    {
      closedLoop := false;
      GoCoasting();
      cmdLeft := ClampPm(cmd.left);
      cmdRight := ClampPm(cmd.right);
    }

    /** The mode switch and target update of a command, by kind. */
    method Engage(cmd: Command, t: Tuning)
      requires Valid() && t.left.dutyMax >= 0 && t.right.dutyMax >= 0
      modifies Repr
      ensures Value() == Engaged(old(Value()), cmd, t)
    {
      match cmd.kind {
      case CmdDuty =>
        TakeDuty(cmd);
      case CmdVel =>
        CloseLoop();
        AimBoth(Clamp(cmd.left, VEL_TARGET_MAX_TPS), Clamp(cmd.right, VEL_TARGET_MAX_TPS));
        RunClosedLoop(t, false);
      case CmdStop =>
        GoCoasting();
      }
    }

    /** An accepted command takes over and feeds the watchdog. */
    method Adopt(cmd: Command, t: Tuning)
      requires Valid() && t.left.dutyMax >= 0 && t.right.dutyMax >= 0
      modifies Repr
      ensures Value() == TakeOver(old(Value()), cmd, t)
    {
      Engage(cmd, t);
      safety.Nourish(cmd.accepted);
      appliedSeq := cmd.seq_;
    }

    /** control_core_on_command */
    method Apply(now: u32, cmd: Command, t: Tuning) returns (result: Result, out: Out)
      requires Valid() && t.left.dutyMax >= 0 && t.right.dutyMax >= 0
      modifies Repr
      ensures (Value(), result, out) == OnCommand(old(Value()), now, cmd, t)
    {
      result := Result(cmd.seq_, Rejected, now, 0, 0);
      if safety.faults != {} {
        out := Finish(now);
        return;
      }
      if Signed(Wrap(now - cmd.deadline)) >= 0 {
        staleCommands := Next(staleCommands);
        out := Finish(now);
        return;
      }
      Adopt(cmd, t);
      out := Finish(now);
      var kind := if outputAllowed then Applied else Rejected;
      if cmd.kind.CmdVel? {
        result := Result(cmd.seq_, kind, now, spdLeft.target, spdRight.target);
      } else {
        result := Result(cmd.seq_, kind, now, cmdLeft, cmdRight);
      }
    }

    /** control_core_on_stop */
    method UrgentStop(now: u32, flags: set<Fault>) returns (out: Out)
      requires Valid()
      modifies Repr
      ensures (Value(), out) == OnStop(old(Value()), now, flags)
    {
      urgentStops := Next(urgentStops);
      GoCoasting();
      if flags != {} {
        safety.LatchFault(flags);
      }
      out := Finish(now);
    }
  }
}
