/** One cycle of the control task as a function from state to state: what a tick, a command and an
    urgent stop do, and what they order the bridge to do. */
module ControlSpec {
  import opened Words
  import opened MotorSafety
  import opened MotorOutput
  import S = SpeedControl
  import E = Encoder

  const VEL_TARGET_MAX_TPS: int := 6000
  const CONTROL_RATE_HZ: int := 100
  const ENCODER_SIGN_LEFT: int := 1
  const ENCODER_SIGN_RIGHT: int := -1

  datatype CmdKind = CmdStop | CmdDuty | CmdVel

  datatype Command = Command(seq_: u32, kind: CmdKind, left: int, right: int, accepted: u32, deadline: u32)

  datatype ApplyKind = Applied | Rejected

  datatype Result = Result(seq_: u32, kind: ApplyKind, appliedMs: u32, left: int, right: int)

  datatype Out = Write(ccr: Ccr) | Kill

  datatype Core = Core(safety: Safety, encLeft: E.Enc, encRight: E.Enc, spdLeft: S.Speed, spdRight: S.Speed,
                       measuredLeft: real, measuredRight: real,
                       cmdLeft: int, cmdRight: int, outLeft: int, outRight: int,
                       closedLoop: bool, appliedSeq: u32, tickSeen: u32, loopCount: u32, overruns: u32,
                       urgentStops: u32, staleCommands: u32, heartbeat: u32, wdSeq: u32, wdMs: u32,
                       outputAllowed: bool)

  /** The two gain sets are tunable at run time, so nothing here depends on their values. */
  datatype Tuning = Tuning(left: S.Gains, right: S.Gains)

  function Boot(now: u32, rawLeft: u16, rawRight: u16): Core {
    Core(Init(now, CMD_WATCHDOG_MS), E.Enc(0, rawLeft, ENCODER_SIGN_LEFT), E.Enc(0, rawRight, ENCODER_SIGN_RIGHT),
         S.REST, S.REST, 0.0, 0.0, 0, 0, 0, 0, false, 0, 0, 0, 0, 0, 0, 0, 0, 0, false)
  }

  function Coast(c: Core): Core {
    c.(cmdLeft := 0, cmdRight := 0,
       spdLeft := S.Reset(S.SetTarget(c.spdLeft, 0)), spdRight := S.Reset(S.SetTarget(c.spdRight, 0)))
  }

  function RunLoop(c: Core, t: Tuning, advance: bool): Core
    requires t.left.dutyMax >= 0 && t.right.dutyMax >= 0
  {
    var l := S.Update(c.spdLeft, t.left, c.measuredLeft, advance);
    var r := S.Update(c.spdRight, t.right, c.measuredRight, advance);
    c.(spdLeft := l, spdRight := r, cmdLeft := l.duty, cmdRight := r.duty)
  }

  function Noted(c: Core, now: u32): Core {
    var (s, edge) := TakeNotify(c.safety);
    c.(safety := s, wdSeq := if edge then Next(c.wdSeq) else c.wdSeq, wdMs := if edge then now else c.wdMs)
  }

  /** What a commit does when output is not allowed: coast, note a watchdog edge, kill under a fault. */
  function Denied(c: Core, now: u32): (Core, Out) {
    var c1 := Coast(Noted(c.(outputAllowed := false, outLeft := 0, outRight := 0), now));
    (c1, if c1.safety.faults != {} then Kill else Write(CcrOf(0, 0)))
  }

  /** The end of every cycle: drive what is commanded if the watchdog allows it, else coast. */
  function Commit(c: Core, now: u32): (Core, Out) {
    var (s, ok) := Allow(c.safety, now);
    if ok then
      (c.(safety := s, outputAllowed := true, outLeft := c.cmdLeft, outRight := c.cmdRight),
       Write(CcrOf(c.cmdLeft, c.cmdRight)))
    else Denied(c.(safety := s), now)
  }

  function Sampled(c: Core, tick: u32, rawLeft: u16, rawRight: u16, t: Tuning): Core
    requires t.left.dutyMax >= 0 && t.right.dutyMax >= 0
  {
    var delta := Wrap(tick - c.tickSeen);
    var dLeft, dRight := E.Delta(c.encLeft, rawLeft), E.Delta(c.encRight, rawRight);
    var c1 := c.(encLeft := E.Update(c.encLeft, rawLeft), encRight := E.Update(c.encRight, rawRight));
    if delta == 0 then c1
    else
      var c2 := c1.(overruns := if delta > 1 then Wrap(c.overruns + (delta - 1)) else c.overruns,
                    tickSeen := tick, loopCount := Next(c.loopCount), heartbeat := Next(c.heartbeat),
                    measuredLeft := Scaled(dLeft, delta), measuredRight := Scaled(dRight, delta));
      if c.closedLoop then RunLoop(c2, t, delta == 1) else c2
  }

  /** Ticks per second from a displacement over `delta` periods. */
  function Scaled(d: int, delta: u32): real
    requires delta != 0
  {
    d as real * (CONTROL_RATE_HZ as real / delta as real)
  }

  function OnTick(c: Core, now: u32, tick: u32, rawLeft: u16, rawRight: u16, t: Tuning): (Core, Out)
    requires t.left.dutyMax >= 0 && t.right.dutyMax >= 0
  {
    Commit(Sampled(c, tick, rawLeft, rawRight, t), now)
  }

  predicate PastDeadline(cmd: Command, now: u32) { Signed(Wrap(now - cmd.deadline)) >= 0 }

  /** What an accepted command does to mode, targets and duties. */
  function Engaged(c: Core, cmd: Command, t: Tuning): Core
    requires t.left.dutyMax >= 0 && t.right.dutyMax >= 0
  {
    match cmd.kind
    case CmdDuty =>
      Coast(c.(closedLoop := false)).(cmdLeft := ClampPm(cmd.left), cmdRight := ClampPm(cmd.right))
    case CmdVel =>
      var c0 := if c.closedLoop then c else Coast(c.(closedLoop := true));
      RunLoop(c0.(spdLeft := S.SetTarget(c0.spdLeft, Clamp(cmd.left, VEL_TARGET_MAX_TPS)),
                  spdRight := S.SetTarget(c0.spdRight, Clamp(cmd.right, VEL_TARGET_MAX_TPS))), t, false)
    case CmdStop =>
      Coast(c)
  }

  /** The state once an accepted command has been taken over, before the commit. */
  function TakeOver(c: Core, cmd: Command, t: Tuning): Core
    requires t.left.dutyMax >= 0 && t.right.dutyMax >= 0
  {
    var c1 := Engaged(c, cmd, t);
    c1.(safety := Feed(c1.safety, cmd.accepted), appliedSeq := cmd.seq_)
  }

  function Report(c: Core, cmd: Command, now: u32): Result {
    var kind := if c.outputAllowed then Applied else Rejected;
    if cmd.kind.CmdVel? then Result(cmd.seq_, kind, now, c.spdLeft.target, c.spdRight.target)
    else Result(cmd.seq_, kind, now, c.cmdLeft, c.cmdRight)
  }

  function OnCommand(c: Core, now: u32, cmd: Command, t: Tuning): (Core, Result, Out)
    requires t.left.dutyMax >= 0 && t.right.dutyMax >= 0
  {
    var refused := Result(cmd.seq_, Rejected, now, 0, 0);
    if c.safety.faults != {} then
      var (c1, out) := Commit(c, now);
      (c1, refused, out)
    else if PastDeadline(cmd, now) then
      var (c1, out) := Commit(c.(staleCommands := Next(c.staleCommands)), now);
      (c1, refused, out)
    else
      var (c1, out) := Commit(TakeOver(c, cmd, t), now);
      (c1, Report(c1, cmd, now), out)
  }

  function OnStop(c: Core, now: u32, flags: set<Fault>): (Core, Out) {
    var c1 := Coast(c.(urgentStops := Next(c.urgentStops)));
    Commit(if flags != {} then c1.(safety := Latch(c1.safety, flags)) else c1, now)
  }
}
