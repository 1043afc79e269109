/** What the control core does with a tick and with a command, in terms of shafts, speeds and duties, and what
    it counts. */
module ControlLaws {
  import opened Words
  import opened MotorSafety
  import opened MotorOutput
  import opened ControlSpec
  import opened ControlRuns
  import S = SpeedControl
  import E = Encoder

  // ---------------------------------------------------------------- a tick

  /** Ticks per second, from the ticks counted over some periods. */
  predicate SpeedOf(measured: real, ticks: int, periods: u32) {
    measured * periods as real == CONTROL_RATE_HZ as real * ticks as real
  }

  /** What the wheel is given, once its speed is measured over some periods. */
  predicate Controlled(s: S.Speed, s1: S.Speed, g: S.Gains, ticks: int, measured: real, periods: u32, cmd: int)
    requires g.dutyMax >= 0
  {
    && SpeedOf(measured, ticks, periods)
    && s1 == S.Update(s, g, measured, periods == 1) && cmd == s1.duty
  }

  /** In velocity mode a new tick measures each wheel's speed, in ticks per second over the periods gone by,
      and runs its controller on exactly that speed, integrating only over a single period. In duty mode, and
      at a tick seen before, the duties stay. */
  lemma TickRunsLoop(c: Core, tick: u32, rawLeft: u16, rawRight: u16, t: Tuning)
    requires t.left.dutyMax >= 0 && t.right.dutyMax >= 0
    ensures var c1, periods := Sampled(c, tick, rawLeft, rawRight, t), Wrap(tick - c.tickSeen);
            if c.closedLoop && tick != c.tickSeen then
              && Controlled(c.spdLeft, c1.spdLeft, t.left, c1.encLeft.ticks - c.encLeft.ticks, c1.measuredLeft,
                            periods, c1.cmdLeft)
              && Controlled(c.spdRight, c1.spdRight, t.right, c1.encRight.ticks - c.encRight.ticks, c1.measuredRight,
                            periods, c1.cmdRight)
            else
              (c1.cmdLeft, c1.cmdRight, c1.spdLeft, c1.spdRight) == (c.cmdLeft, c.cmdRight, c.spdLeft, c.spdRight)
  {
    SampledParts(c, tick, rawLeft, rawRight, t);
    if tick != c.tickSeen {
      NewTick(tick, c.tickSeen);
      ScaledMeans(E.Delta(c.encLeft, rawLeft), Wrap(tick - c.tickSeen));
      ScaledMeans(E.Delta(c.encRight, rawRight), Wrap(tick - c.tickSeen));
    }
  }

  lemma SampledParts(c: Core, tick: u32, rawLeft: u16, rawRight: u16, t: Tuning)
    requires t.left.dutyMax >= 0 && t.right.dutyMax >= 0
    ensures var c1, periods := Sampled(c, tick, rawLeft, rawRight, t), Wrap(tick - c.tickSeen);
            && c1.encLeft.ticks - c.encLeft.ticks == E.Delta(c.encLeft, rawLeft)
            && c1.encRight.ticks - c.encRight.ticks == E.Delta(c.encRight, rawRight)
            && (periods != 0 ==> c1.measuredLeft == Scaled(E.Delta(c.encLeft, rawLeft), periods) &&
                                 c1.measuredRight == Scaled(E.Delta(c.encRight, rawRight), periods))
            && (if c.closedLoop && periods != 0 then
                  && c1.spdLeft == S.Update(c.spdLeft, t.left, c1.measuredLeft, periods == 1)
                  && c1.spdRight == S.Update(c.spdRight, t.right, c1.measuredRight, periods == 1)
                  && c1.cmdLeft == c1.spdLeft.duty && c1.cmdRight == c1.spdRight.duty
                else
                  (c1.cmdLeft, c1.cmdRight, c1.spdLeft, c1.spdRight) == (c.cmdLeft, c.cmdRight, c.spdLeft, c.spdRight))
            && (tick == c.tickSeen ==> periods == 0)
  {
  }

  lemma NewTick(tick: u32, seen: u32)
    requires tick != seen
    ensures Wrap(tick - seen) != 0
  {
    WrapForward(tick, seen);
  }

  lemma ScaledMeans(d: int, periods: u32)
    requires periods != 0
    ensures SpeedOf(Scaled(d, periods), d, periods)
  {
    var p := periods as real;
    Quotient(CONTROL_RATE_HZ as real, p);
    Shuffle(d as real, CONTROL_RATE_HZ as real / p, p);
  }

  lemma Quotient(a: real, b: real)
    requires b != 0.0
    ensures a / b * b == a
  {
  }

  lemma Shuffle(x: real, y: real, z: real)
    ensures x * y * z == y * z * x
  {
    assert y * z * x == x * (y * z);
    assert x * y * z == x * (y * z);
  }

  // ---------------------------------------------------------------- a velocity command

  /** The integrator a wheel goes on with: none after a change of mode or direction, or for no speed. */
  function Kept(s: S.Speed, closed: bool, target: int): real {
    if !closed || target == 0 || s.target * target < 0 then 0.0 else s.integrator
  }

  /** A velocity command closes the loop on its clamped targets at once, with the speed measured last, and
      keeps what the integrators have learnt unless mode or direction change. */
  lemma VelocityTaken(c: Core, cmd: Command, t: Tuning)
    requires t.left.dutyMax >= 0 && t.right.dutyMax >= 0 && cmd.kind.CmdVel?
    ensures var c1 := TakeOver(c, cmd, t);
            var left, right := Clamp(cmd.left, VEL_TARGET_MAX_TPS), Clamp(cmd.right, VEL_TARGET_MAX_TPS);
            && c1.closedLoop && c1.measuredLeft == c.measuredLeft && c1.measuredRight == c.measuredRight
            && Aimed(c.spdLeft, c1.spdLeft, c.closedLoop, t.left, left, c.measuredLeft, c1.cmdLeft)
            && Aimed(c.spdRight, c1.spdRight, c.closedLoop, t.right, right, c.measuredRight, c1.cmdRight)
  {
    var left, right := Clamp(cmd.left, VEL_TARGET_MAX_TPS), Clamp(cmd.right, VEL_TARGET_MAX_TPS);
    WheelTaken(c.spdLeft, c.closedLoop, t.left, left, c.measuredLeft);
    WheelTaken(c.spdRight, c.closedLoop, t.right, right, c.measuredRight);
  }

  /** The wheel has its new target, its integrator, and the duty of the control law. */
  predicate Aimed(s: S.Speed, s1: S.Speed, closed: bool, g: S.Gains, target: int, measured: real, cmd: int)
    requires g.dutyMax >= 0
  {
    && s1.target == target && s1.integrator == Kept(s, closed, target) && cmd == s1.duty
    && (target == 0 ==> cmd == 0)
    && (target != 0 ==> S.Stands(cmd, s1.saturated, S.Law(g, target, measured, s1.integrator), g.dutyMax))
  }

  lemma WheelTaken(s: S.Speed, closed: bool, g: S.Gains, target: int, measured: real)
    requires g.dutyMax >= 0
    ensures var before := if closed then s else S.Reset(S.SetTarget(s, 0));
            var s1 := S.Update(S.SetTarget(before, target), g, measured, false);
            Aimed(s, s1, closed, g, target, measured, s1.duty)
  {
    var before := if closed then s else S.Reset(S.SetTarget(s, 0));
    S.ReversalClearsIntegrator(s, target);
    S.ReversalClearsIntegrator(before, target);
    S.DutyIsLaw(S.SetTarget(before, target), g, measured, false);
    S.Holds(S.SetTarget(before, target), g, measured);
  }

  // ---------------------------------------------------------------- modes and duties in runs

  /** The core takes over the command of the k-th moment. */
  ghost predicate Takes(tr: Track, ms: seq<Moment>, k: nat)
    requires k < |ms|
  {
    && ms[k].event.Cmd? && Reach(tr, ms[..k]).Some?
    && Accepts(Reach(tr, ms[..k]).value.core, Wrap(ms[k].at), ms[k].event.cmd)
  }

  lemma TakesBefore(tr: Track, ms: seq<Moment>, k: nat)
    requires k < |ms| - 1
    ensures Takes(tr, ms[..|ms| - 1], k) == Takes(tr, ms, k)
  {
    assert ms[..|ms| - 1][..k] == ms[..k];
  }

  /** The kind of the last duty or velocity command taken over in a run. */
  ghost function LastMotion(tr: Track, ms: seq<Moment>): Option<CmdKind>
    decreases |ms|
  {
    if ms == [] then None
    else if TakesMotion(tr, ms, |ms| - 1) then Some(ms[|ms| - 1].event.cmd.kind)
    else LastMotion(tr, ms[..|ms| - 1])
  }

  lemma ModeStep(tr: Track, m: Moment)
    requires Tuned(m.tuning)
    ensures Advance(tr, m).core.closedLoop ==
            if m.event.Cmd? && Accepts(tr.core, Wrap(m.at), m.event.cmd) && !m.event.cmd.kind.CmdStop?
            then m.event.cmd.kind.CmdVel? else tr.core.closedLoop
  {
    var c, now := tr.core, Wrap(m.at);
    match m.event
    case Tick(tick, l, r) => CommitMode(Sampled(c, tick, l, r, m.tuning), now);
    case Stop(flags) =>
      var c1 := Coast(c.(urgentStops := Next(c.urgentStops)));
      CommitMode(if flags != {} then c1.(safety := Latch(c1.safety, flags)) else c1, now);
    case Cmd(cmd, _) =>
      CommitMode(c, now);
      CommitMode(c.(staleCommands := Next(c.staleCommands)), now);
      CommitMode(TakeOver(c, cmd, m.tuning), now);
  }

  lemma CommitMode(c: Core, now: u32)
    ensures Commit(c, now).0.closedLoop == c.closedLoop
  {
  }

  /** The loop is closed exactly while the last motion command taken over is a velocity command; stops, late
      commands and faults leave the mode alone. */
  lemma {:induction false} ModeExactly(at: int, rawLeft: u16, rawRight: u16, ms: seq<Moment>)
    requires TimelyRun(Start(at, rawLeft, rawRight), ms)
    ensures Run(Start(at, rawLeft, rawRight), ms).core.closedLoop <==>
            LastMotion(Start(at, rawLeft, rawRight), ms) == Some(CmdVel)
    decreases |ms|
  {
    if ms != [] {
      var before := ms[..|ms| - 1];
      ModeExactly(at, rawLeft, rawRight, before);
      ModeStep(Run(Start(at, rawLeft, rawRight), before), ms[|ms| - 1]);
    }
  }

  /** A duty is given, from a young command, in duty mode and without a fault. */
  ghost predicate Holding(tr: Track, left: int, right: int) {
    && !tr.core.closedLoop && (tr.core.cmdLeft, tr.core.cmdRight) == (left, right)
    && tr.core.safety.faults == {} && tr.core.safety.timeout == CMD_WATCHDOG_MS
    && tr.core.safety.lastCmd == Wrap(tr.fedAt) && tr.fedAt <= tr.at
  }

  lemma HoldStep(tr: Track, m: Moment, left: int, right: int)
    requires Holding(tr, left, right) && Timely(tr, m) && m.at < tr.fedAt + CMD_WATCHDOG_MS
    requires m.event.Tick? || (m.event.Cmd? && !Accepts(tr.core, Wrap(m.at), m.event.cmd))
    ensures var tr1 := Advance(tr, m);
            Holding(tr1, left, right) && tr1.out == Write(CcrOf(left, right)) && tr1.fedAt == tr.fedAt
  {
    var c, now := tr.core, Wrap(m.at);
    match m.event
    case Tick(tick, l, r) =>
      TickRunsLoop(c, tick, l, r, m.tuning);
      CommitHolds(Sampled(c, tick, l, r, m.tuning), m.at, tr.fedAt);
    case Cmd(cmd, _) =>
      CommitHolds(c.(staleCommands := Next(c.staleCommands)), m.at, tr.fedAt);
  }

  lemma CommitHolds(c: Core, at: int, fedAt: int)
    requires c.safety.faults == {} && c.safety.timeout == CMD_WATCHDOG_MS && c.safety.lastCmd == Wrap(fedAt)
    requires 0 <= at - fedAt < CMD_WATCHDOG_MS
    ensures var (c1, out) := Commit(c, Wrap(at));
            && c1 == c.(safety := c.safety.(timedOut := false), outputAllowed := true, outLeft := c.cmdLeft,
                        outRight := c.cmdRight)
            && out == Write(CcrOf(c.cmdLeft, c.cmdRight))
  {
    AllowIsFreshness(c.safety, at, fedAt);
  }

  lemma {:induction false} DutyHeld(tr: Track, ms: seq<Moment>, left: int, right: int)
    requires Holding(tr, left, right) && TimelyRun(tr, ms) && ms != []
    requires forall k :: 0 <= k < |ms| ==> !ms[k].event.Stop? && !Takes(tr, ms, k)
    requires forall m :: m in ms ==> m.at < tr.fedAt + CMD_WATCHDOG_MS
    ensures var tr1 := Run(tr, ms);
            Holding(tr1, left, right) && tr1.out == Write(CcrOf(left, right)) && tr1.fedAt == tr.fedAt
    decreases |ms|
  {
    var last := |ms| - 1;
    var before := ms[..last];
    forall k: nat | k < last
      ensures !before[k].event.Stop? && !Takes(tr, before, k)
    {
      TakesBefore(tr, ms, k);
      assert !ms[k].event.Stop? && !Takes(tr, ms, k);
    }
    assert forall m :: m in before ==> m in ms;
    if before != [] {
      DutyHeld(tr, before, left, right);
    }
    assert !ms[last].event.Stop? && !Takes(tr, ms, last) && ms[last] in ms;
    HoldStep(Run(tr, before), ms[last], left, right);
  }

  /** A duty command that is taken over drives the bridge with exactly its clamped duties, at once and at
      every commit after, until its 200 ms are over or a stop or another command is taken: ticks, and commands
      that are refused, change nothing of it. */
  lemma DutyDrives(tr: Track, m: Moment, ms: seq<Moment>)
    requires tr.core.safety.timeout == CMD_WATCHDOG_MS && Timely(tr, m)
    requires m.event.Cmd? && m.event.cmd.kind.CmdDuty? && Accepts(tr.core, Wrap(m.at), m.event.cmd)
    requires var tr1 := Advance(tr, m);
             && TimelyRun(tr1, ms)
             && (forall k :: 0 <= k < |ms| ==> !ms[k].event.Stop? && !Takes(tr1, ms, k))
             && (forall n :: n in ms ==> n.at < m.event.acceptedAt + CMD_WATCHDOG_MS)
    ensures Run(Advance(tr, m), ms).out == Write(CcrOf(m.event.cmd.left, m.event.cmd.right))
  {
    var cmd := m.event.cmd;
    SignedDistance(m.at, m.event.acceptedAt + CMD_WATCHDOG_MS);
    TakeOverFed(tr.core, cmd, m.tuning);
    DutyTaken(tr.core, cmd, m.tuning);
    CommitHolds(TakeOver(tr.core, cmd, m.tuning), m.at, m.event.acceptedAt);
    ClampedCcr(cmd.left, cmd.right);
    if ms != [] {
      DutyHeld(Advance(tr, m), ms, ClampPm(cmd.left), ClampPm(cmd.right));
    }
  }

  lemma DutyTaken(c: Core, cmd: Command, t: Tuning)
    requires t.left.dutyMax >= 0 && t.right.dutyMax >= 0 && cmd.kind.CmdDuty?
    ensures var c1 := TakeOver(c, cmd, t);
            !c1.closedLoop && c1.cmdLeft == ClampPm(cmd.left) && c1.cmdRight == ClampPm(cmd.right)
  {
  }

  lemma ClampedCcr(left: int, right: int)
    ensures CcrOf(ClampPm(left), ClampPm(right)) == CcrOf(left, right)
  {
  }

  // ---------------------------------------------------------------- counters

  function Stops(ms: seq<Moment>): nat {
    if ms == [] then 0 else Stops(ms[..|ms| - 1]) + if ms[|ms| - 1].event.Stop? then 1 else 0
  }

  /** How many commands of a run came too late, while no fault was latched. */
  ghost function Late(tr: Track, ms: seq<Moment>): nat
    requires TimelyRun(tr, ms)
    decreases |ms|
  {
    if ms == [] then 0
    else
      var before, m := ms[..|ms| - 1], ms[|ms| - 1];
      Late(tr, before) +
      if m.event.Cmd? && Run(tr, before).core.safety.faults == {} && m.at >= m.event.acceptedAt + CMD_WATCHDOG_MS
      then 1 else 0
  }

  lemma CommitCounts(c: Core, now: u32)
    ensures var c1 := Commit(c, now).0;
            && c1.urgentStops == c.urgentStops && c1.staleCommands == c.staleCommands
            && c1.heartbeat == c.heartbeat && c1.loopCount == c.loopCount
  {
  }

  lemma CountStep(tr: Track, m: Moment)
    requires Timely(tr, m)
    ensures var c, c1 := tr.core, Advance(tr, m).core;
            && c1.urgentStops == (if m.event.Stop? then Next(c.urgentStops) else c.urgentStops)
            && c1.staleCommands ==
               (if m.event.Cmd? && c.safety.faults == {} && m.at >= m.event.acceptedAt + CMD_WATCHDOG_MS
                then Next(c.staleCommands) else c.staleCommands)
            && (c.heartbeat == c.loopCount ==> c1.heartbeat == c1.loopCount)
  {
    var c, now := tr.core, Wrap(m.at);
    match m.event
    case Tick(tick, l, r) =>
      SampledCounts(c, tick, l, r, m.tuning);
      CommitCounts(Sampled(c, tick, l, r, m.tuning), now);
    case Stop(flags) =>
      var c1 := Coast(c.(urgentStops := Next(c.urgentStops)));
      CommitCounts(if flags != {} then c1.(safety := Latch(c1.safety, flags)) else c1, now);
    case Cmd(cmd, acceptedAt) =>
      SignedDistance(m.at, acceptedAt + CMD_WATCHDOG_MS);
      CommitCounts(c, now);
      CommitCounts(c.(staleCommands := Next(c.staleCommands)), now);
      TakeOverCounts(c, cmd, m.tuning);
      CommitCounts(TakeOver(c, cmd, m.tuning), now);
  }

  lemma SampledCounts(c: Core, tick: u32, rawLeft: u16, rawRight: u16, t: Tuning)
    requires t.left.dutyMax >= 0 && t.right.dutyMax >= 0
    ensures var c1 := Sampled(c, tick, rawLeft, rawRight, t);
            && c1.urgentStops == c.urgentStops && c1.staleCommands == c.staleCommands
            && (c.heartbeat == c.loopCount ==> c1.heartbeat == c1.loopCount)
  {
  }

  lemma TakeOverCounts(c: Core, cmd: Command, t: Tuning)
    requires t.left.dutyMax >= 0 && t.right.dutyMax >= 0
    ensures var c1 := TakeOver(c, cmd, t);
            && c1.urgentStops == c.urgentStops && c1.staleCommands == c.staleCommands
            && c1.heartbeat == c.heartbeat && c1.loopCount == c.loopCount
  {
  }

  lemma CountOn(n: nat, more: bool)
    ensures (if more then Next(Wrap(n)) else Wrap(n)) == Wrap(n + if more then 1 else 0)
  {
    WrapAdd(n, 1);
  }

  lemma {:induction false} StopsCounted(tr: Track, ms: seq<Moment>)
    requires TimelyRun(tr, ms) && tr.core.urgentStops == 0
    ensures Run(tr, ms).core.urgentStops == Wrap(Stops(ms))
    decreases |ms|
  {
    if ms != [] {
      StopsCounted(tr, ms[..|ms| - 1]);
      CountStep(Run(tr, ms[..|ms| - 1]), ms[|ms| - 1]);
      CountOn(Stops(ms[..|ms| - 1]), ms[|ms| - 1].event.Stop?);
    }
  }

  lemma {:induction false} LateCounted(tr: Track, ms: seq<Moment>)
    requires TimelyRun(tr, ms) && tr.core.staleCommands == 0
    ensures Run(tr, ms).core.staleCommands == Wrap(Late(tr, ms))
    decreases |ms|
  {
    if ms != [] {
      var before, m := ms[..|ms| - 1], ms[|ms| - 1];
      LateCounted(tr, before);
      CountStep(Run(tr, before), m);
      CountOn(Late(tr, before), m.event.Cmd? && Run(tr, before).core.safety.faults == {} &&
                                m.at >= m.event.acceptedAt + CMD_WATCHDOG_MS);
    }
  }

  lemma {:induction false} BeatsCounted(tr: Track, ms: seq<Moment>)
    requires TimelyRun(tr, ms) && tr.core.heartbeat == tr.core.loopCount
    ensures Run(tr, ms).core.heartbeat == Run(tr, ms).core.loopCount
    decreases |ms|
  {
    if ms != [] {
      BeatsCounted(tr, ms[..|ms| - 1]);
      CountStep(Run(tr, ms[..|ms| - 1]), ms[|ms| - 1]);
    }
  }

  /** The counters the status shows: urgent stops and late commands are each counted once, the heartbeat goes
      with the loops. */
  lemma CountsExactly(at: int, rawLeft: u16, rawRight: u16, ms: seq<Moment>)
    requires TimelyRun(Start(at, rawLeft, rawRight), ms)
    ensures var c := Run(Start(at, rawLeft, rawRight), ms).core;
            && c.urgentStops == Wrap(Stops(ms)) && c.staleCommands == Wrap(Late(Start(at, rawLeft, rawRight), ms))
            && c.heartbeat == c.loopCount
  {
    StopsCounted(Start(at, rawLeft, rawRight), ms);
    LateCounted(Start(at, rawLeft, rawRight), ms);
    BeatsCounted(Start(at, rawLeft, rawRight), ms);
  }
}
