/** Whole runs of the control task on true time: the clock the code sees is the true millisecond
    count wrapped to 32 bits, and it may wrap any number of times. */
module ControlRuns {
  import opened Words
  import opened MotorSafety
  import opened MotorOutput
  import opened ControlSpec
  import E = Encoder

  /** What happens to the control core. A command also carries the true time of its acceptance. */
  datatype Event =
    | Tick(tick: u32, rawLeft: u16, rawRight: u16)
    | Cmd(cmd: Command, acceptedAt: int)
    | Stop(flags: set<Fault>)

  datatype Moment = Moment(at: int, event: Event, tuning: Tuning)

  /** The core, its last order to the bridge and when that was given; which command was applied
      last and when that one had been accepted. */
  datatype Track = Track(core: Core, out: Out, at: int, last: Option<CmdKind>, fedAt: int)

  ghost predicate Tuned(t: Tuning) { t.left.dutyMax >= 0 && t.right.dutyMax >= 0 }

  /** The control task commits at least once per 2^32 - 200 ms, and a command is less than 2^31 ms
      old when it is taken from its mailbox. */
  ghost predicate Timely(tr: Track, m: Moment) {
    && Tuned(m.tuning)
    && 0 <= m.at - tr.at < TWO32 - CMD_WATCHDOG_MS
    && (m.event.Cmd? ==>
          && m.event.cmd.accepted == Wrap(m.event.acceptedAt)
          && m.event.cmd.deadline == Wrap(m.event.acceptedAt + CMD_WATCHDOG_MS)
          && 0 <= m.at - m.event.acceptedAt < TWO31)
  }

  /** Whether the core takes this command over. */
  predicate Accepts(c: Core, now: u32, cmd: Command) { c.safety.faults == {} && !PastDeadline(cmd, now) }

  function Advance(tr: Track, m: Moment): Track
    requires m.tuning.left.dutyMax >= 0 && m.tuning.right.dutyMax >= 0
  {
    var now := Wrap(m.at);
    match m.event
    case Tick(tick, l, r) =>
      var (c, out) := OnTick(tr.core, now, tick, l, r, m.tuning);
      tr.(core := c, out := out, at := m.at)
    case Stop(flags) =>
      var (c, out) := OnStop(tr.core, now, flags);
      tr.(core := c, out := out, at := m.at)
    case Cmd(cmd, acceptedAt) =>
      var (c, _, out) := OnCommand(tr.core, now, cmd, m.tuning);
      if Accepts(tr.core, now, cmd) then Track(c, out, m.at, Some(cmd.kind), acceptedAt)
      else tr.(core := c, out := out, at := m.at)
  }

  function Start(at: int, rawLeft: u16, rawRight: u16): Track {
    Track(Boot(Wrap(at), rawLeft, rawRight), Write(ZERO), at, None, at)
  }

  /** Where a run leads, if every moment of it is timely. */
  ghost function Reach(tr: Track, ms: seq<Moment>): Option<Track> {
    if ms == [] then Some(tr)
    else
      match Reach(tr, ms[..|ms| - 1])
      case Some(v) => if Timely(v, ms[|ms| - 1]) then Some(Advance(v, ms[|ms| - 1])) else None
      case None => None
  }

  ghost predicate TimelyRun(tr: Track, ms: seq<Moment>) { Reach(tr, ms).Some? }

  ghost function Run(tr: Track, ms: seq<Moment>): Track
    requires TimelyRun(tr, ms)
  {
    Reach(tr, ms).value
  }

  // ---------------------------------------------------------------- freshness of the output

  /** Something is commanded that a commit could turn into motion. */
  predicate Moving(c: Core) {
    c.cmdLeft != 0 || c.cmdRight != 0 || c.spdLeft.target != 0 || c.spdRight.target != 0
  }

  predicate Driving(out: Out) { out.Write? && out.ccr != ZERO }

  /** Whatever is commanded comes from a motion command accepted less than 200 ms ago. */
  ghost predicate Fresh(tr: Track) {
    && tr.core.safety.timeout == CMD_WATCHDOG_MS
    && (Moving(tr.core) ==>
          && tr.last.Some? && !tr.last.value.CmdStop?
          && tr.core.safety.lastCmd == Wrap(tr.fedAt)
          && 0 <= tr.at - tr.fedAt < CMD_WATCHDOG_MS)
    && (Driving(tr.out) ==>
          Moving(tr.core) && tr.core.outLeft == tr.core.cmdLeft && tr.core.outRight == tr.core.cmdRight)
    && (!Driving(tr.out) ==> tr.core.outLeft == 0 && tr.core.outRight == 0)
  }

  /** A commit keeps a command only while it is fresh, and drives nothing else. */
  lemma CommitFresh(c: Core, at: int, last: Option<CmdKind>, fedAt: int)
    requires c.safety.timeout == CMD_WATCHDOG_MS
    requires Moving(c) ==>
               last.Some? && !last.value.CmdStop? && c.safety.lastCmd == Wrap(fedAt) && 0 <= at - fedAt < TWO32
    ensures var (c1, out) := Commit(c, Wrap(at)); Fresh(Track(c1, out, at, last, fedAt))
  {
    CcrSound(c.cmdLeft, c.cmdRight);
    CcrSound(0, 0);
    if Moving(c) && c.safety.faults == {} {
      AllowIsFreshness(c.safety, at, fedAt);
    }
  }

  /** A wheel aimed at nothing is given no duty, so sampling never sets a resting core in motion. */
  lemma SampledMoving(c: Core, tick: u32, rawLeft: u16, rawRight: u16, t: Tuning)
    requires t.left.dutyMax >= 0 && t.right.dutyMax >= 0
    ensures var c1 := Sampled(c, tick, rawLeft, rawRight, t);
            c1.safety == c.safety && (Moving(c1) ==> Moving(c))
  {
  }

  lemma TakeOverFed(c: Core, cmd: Command, t: Tuning)
    requires t.left.dutyMax >= 0 && t.right.dutyMax >= 0 && c.safety.faults == {}
    ensures var c1 := TakeOver(c, cmd, t);
            && c1.safety == c.safety.(lastCmd := cmd.accepted)
            && (cmd.kind.CmdStop? ==> !Moving(c1))
  {
  }

  lemma AdvanceFresh(tr: Track, m: Moment)
    requires Fresh(tr) && Timely(tr, m)
    ensures Fresh(Advance(tr, m))
  {
    match m.event
    case Tick(tick, l, r) =>
      SampledMoving(tr.core, tick, l, r, m.tuning);
      CommitFresh(Sampled(tr.core, tick, l, r, m.tuning), m.at, tr.last, tr.fedAt);
    case Stop(flags) =>
      var c := Coast(tr.core.(urgentStops := Next(tr.core.urgentStops)));
      CommitFresh(if flags != {} then c.(safety := Latch(c.safety, flags)) else c, m.at, tr.last, tr.fedAt);
    case Cmd(cmd, acceptedAt) =>
      if tr.core.safety.faults != {} {
        CommitFresh(tr.core, m.at, tr.last, tr.fedAt);
      } else if PastDeadline(cmd, Wrap(m.at)) {
        CommitFresh(tr.core.(staleCommands := Next(tr.core.staleCommands)), m.at, tr.last, tr.fedAt);
      } else {
        TakeOverFed(tr.core, cmd, m.tuning);
        CommitFresh(TakeOver(tr.core, cmd, m.tuning), m.at, Some(cmd.kind), acceptedAt);
      }
  }

  lemma {:induction false} RunFresh(tr: Track, ms: seq<Moment>)
    requires Fresh(tr) && TimelyRun(tr, ms)
    ensures Fresh(Run(tr, ms))
    decreases |ms|
  {
    if ms != [] {
      var before := ms[..|ms| - 1];
      RunFresh(tr, before);
      AdvanceFresh(Run(tr, before), ms[|ms| - 1]);
    }
  }

  /** However long the run and however often the clock wraps: when a commit drives the bridge, the
      last applied command is a duty or velocity command accepted less than 200 ms before. */
  lemma DrivingMeansFreshCommand(at: int, rawLeft: u16, rawRight: u16, ms: seq<Moment>)
    requires TimelyRun(Start(at, rawLeft, rawRight), ms)
    ensures var tr := Run(Start(at, rawLeft, rawRight), ms);
            Driving(tr.out) ==> tr.last.Some? && !tr.last.value.CmdStop? &&
                                tr.fedAt <= tr.at < tr.fedAt + CMD_WATCHDOG_MS
  {
    RunFresh(Start(at, rawLeft, rawRight), ms);
  }

  /** Commits are never more than p ms apart. */
  ghost predicate Periodic(tr: Track, ms: seq<Moment>, p: int)
    requires TimelyRun(tr, ms)
    decreases |ms|
  {
    ms != [] ==>
      var before := ms[..|ms| - 1];
      Periodic(tr, before, p) && ms[|ms| - 1].at - Run(tr, before).at <= p
  }

  /** What stands at true time t: where the last commit up to then left things. */
  ghost function Standing(tr: Track, ms: seq<Moment>, t: int): Track
    requires TimelyRun(tr, ms)
    decreases |ms|
  {
    if ms == [] || Run(tr, ms).at <= t then Run(tr, ms) else Standing(tr, ms[..|ms| - 1], t)
  }

  lemma {:induction false} StandingFresh(tr: Track, ms: seq<Moment>, p: int, t: int)
    requires Fresh(tr) && TimelyRun(tr, ms) && Periodic(tr, ms, p) && tr.at <= t <= Run(tr, ms).at + p
    ensures var v := Standing(tr, ms, t); Fresh(v) && v.at <= t <= v.at + p
    decreases |ms|
  {
    RunFresh(tr, ms);
    if ms != [] && Run(tr, ms).at > t {
      StandingFresh(tr, ms[..|ms| - 1], p, t);
    }
  }

  /** Between the commits too: with commits at most p ms apart, output that stands at any true time t rests
      on a motion command accepted less than 200 + p ms before t. */
  lemma OutputAtAnyTime(at: int, rawLeft: u16, rawRight: u16, ms: seq<Moment>, p: int, t: int)
    requires TimelyRun(Start(at, rawLeft, rawRight), ms) && Periodic(Start(at, rawLeft, rawRight), ms, p)
    requires at <= t <= Run(Start(at, rawLeft, rawRight), ms).at + p
    ensures var tr := Standing(Start(at, rawLeft, rawRight), ms, t);
            && tr.at <= t
            && (Driving(tr.out) ==> tr.last.Some? && !tr.last.value.CmdStop? &&
                                    tr.fedAt <= t < tr.fedAt + CMD_WATCHDOG_MS + p)
  {
    StandingFresh(Start(at, rawLeft, rawRight), ms, p, t);
  }

  // ---------------------------------------------------------------- what a result means

  /** A command is reported as applied exactly when no fault is latched and it is taken before its
      true deadline, and the values reported are then the clamped ones it set. */
  lemma AppliedIffInTime(c: Core, at: int, cmd: Command, acceptedAt: int, t: Tuning)
    requires t.left.dutyMax >= 0 && t.right.dutyMax >= 0 && c.safety.timeout == CMD_WATCHDOG_MS
    requires cmd.accepted == Wrap(acceptedAt) && cmd.deadline == Wrap(acceptedAt + CMD_WATCHDOG_MS)
    requires 0 <= at - acceptedAt < TWO31
    ensures var (c1, result, out) := OnCommand(c, Wrap(at), cmd, t);
            && result.seq_ == cmd.seq_ && result.appliedMs == Wrap(at)
            && (result.kind.Applied? <==> c.safety.faults == {} && at < acceptedAt + CMD_WATCHDOG_MS)
            && (result.kind.Applied? ==>
                  (&& c1.appliedSeq == cmd.seq_ && c1.outputAllowed
                   && (result.left, result.right) == Clamped(cmd)
                   && out == Write(CcrOf(c1.cmdLeft, c1.cmdRight))
                   && (cmd.kind.CmdDuty? ==> (c1.cmdLeft, c1.cmdRight) == Clamped(cmd))
                   && (cmd.kind.CmdVel? ==> (c1.spdLeft.target, c1.spdRight.target) == Clamped(cmd))
                   && (cmd.kind.CmdStop? ==> !Moving(c1))))
            && (result.kind.Rejected? ==> result.left == 0 && result.right == 0)
  {
    SignedDistance(at, acceptedAt + CMD_WATCHDOG_MS);
    if c.safety.faults == {} && at < acceptedAt + CMD_WATCHDOG_MS {
      TakeOverFed(c, cmd, t);
      AllowIsFreshness(TakeOver(c, cmd, t).safety, at, acceptedAt);
    }
  }

  /** The values an acknowledgement carries: clamped duty, clamped speed, or zero. */
  function Clamped(cmd: Command): (int, int) {
    match cmd.kind
    case CmdDuty => (ClampPm(cmd.left), ClampPm(cmd.right))
    case CmdVel => (Clamp(cmd.left, VEL_TARGET_MAX_TPS), Clamp(cmd.right, VEL_TARGET_MAX_TPS))
    case CmdStop => (0, 0)
  }

  // ---------------------------------------------------------------- faults

  /** A latched fault is never lost, and every later event kills the output and refuses commands. */
  lemma FaultedStep(tr: Track, m: Moment)
    requires tr.core.safety.faults != {} && Tuned(m.tuning)
    ensures var next := Advance(tr, m);
            && tr.core.safety.faults <= next.core.safety.faults
            && next.out == Kill && next.core.outLeft == 0 && next.core.outRight == 0
            && next.last == tr.last && !Moving(next.core)
    ensures m.event.Cmd? ==> OnCommand(tr.core, Wrap(m.at), m.event.cmd, m.tuning).1.kind == Rejected
  {
    match m.event
    case Tick(tick, l, r) => SampledMoving(tr.core, tick, l, r, m.tuning);
    case Stop(flags) =>
    case Cmd(cmd, _) =>
  }

  lemma {:induction false} FaultsStay(tr: Track, ms: seq<Moment>)
    requires tr.core.safety.faults != {} && TimelyRun(tr, ms) && ms != []
    ensures var end := Run(tr, ms);
            tr.core.safety.faults <= end.core.safety.faults && end.out == Kill && end.last == tr.last
    decreases |ms|
  {
    var before := ms[..|ms| - 1];
    if before != [] {
      FaultsStay(tr, before);
    }
    FaultedStep(Run(tr, before), ms[|ms| - 1]);
  }

  // ---------------------------------------------------------------- one wake of the control task

  /** Everything one wake of the task handles, in the order it handles it: commands, velocity
      commands, the fault bit with the flags collected so far, and the tick. */
  datatype Wakeup = Wakeup(commands: seq<Event>, fault: Option<set<Fault>>, tick: Option<Event>)

  ghost predicate WellFormed(w: Wakeup) {
    && (forall e :: e in w.commands ==> e.Cmd?)
    && (w.tick.Some? ==> w.tick.value.Tick?)
  }

  function Order(w: Wakeup): seq<Event> {
    w.commands
    + (if w.fault.Some? then [Stop(w.fault.value)] else [])
    + (if w.tick.Some? then [w.tick.value] else [])
  }

  /** Events handled back to back, with no claim about their timing. */
  function Handle(tr: Track, es: seq<Event>, at: int, t: Tuning): Track
    requires t.left.dutyMax >= 0 && t.right.dutyMax >= 0
    decreases es
  {
    if es == [] then tr else Handle(Advance(tr, Moment(at, es[0], t)), es[1..], at, t)
  }

  lemma {:induction false} HandleConcat(tr: Track, es: seq<Event>, fs: seq<Event>, at: int, t: Tuning)
    requires t.left.dutyMax >= 0 && t.right.dutyMax >= 0
    ensures Handle(tr, es + fs, at, t) == Handle(Handle(tr, es, at, t), fs, at, t)
    decreases es
  {
    if es == [] {
      assert es + fs == fs;
    } else {
      assert (es + fs)[1..] == es[1..] + fs;
      HandleConcat(Advance(tr, Moment(at, es[0], t)), es[1..], fs, at, t);
    }
  }

  lemma HandleOne(tr: Track, e: Event, at: int, t: Tuning)
    requires t.left.dutyMax >= 0 && t.right.dutyMax >= 0
    ensures Handle(tr, [e], at, t) == Advance(tr, Moment(at, e, t)) && Handle(tr, [], at, t) == tr
  {
    assert [e][1..] == [];
  }

  lemma FourStages(tr: Track, c: seq<Event>, v: seq<Event>, f: seq<Event>, k: seq<Event>, at: int, t: Tuning)
    requires t.left.dutyMax >= 0 && t.right.dutyMax >= 0
    ensures Handle(tr, c + v + f + k, at, t) ==
            Handle(Handle(Handle(Handle(tr, c, at, t), v, at, t), f, at, t), k, at, t)
  {
    HandleConcat(tr, c, v, at, t);
    HandleConcat(tr, c + v, f, at, t);
    HandleConcat(tr, c + v + f, k, at, t);
  }

  /** A stop and anything but an accepted motion command leave the core at rest and undriven. */
  lemma RestStays(tr: Track, m: Moment)
    requires Tuned(m.tuning)
    requires m.event.Stop? || (!Moving(tr.core) &&
               (m.event.Cmd? && Accepts(tr.core, Wrap(m.at), m.event.cmd) ==> m.event.cmd.kind.CmdStop?))
    ensures !Moving(Advance(tr, m).core) && !Driving(Advance(tr, m).out)
  {
    var c, now := tr.core, Wrap(m.at);
    match m.event
    case Tick(tick, l, r) =>
      SampledMoving(c, tick, l, r, m.tuning);
      CommitRests(Sampled(c, tick, l, r, m.tuning), now);
    case Stop(flags) =>
      var c1 := Coast(c.(urgentStops := Next(c.urgentStops)));
      CommitRests(if flags != {} then c1.(safety := Latch(c1.safety, flags)) else c1, now);
    case Cmd(cmd, _) =>
      if c.safety.faults != {} {
        CommitRests(c, now);
      } else if PastDeadline(cmd, now) {
        CommitRests(c.(staleCommands := Next(c.staleCommands)), now);
      } else {
        TakeOverFed(c, cmd, m.tuning);
        CommitRests(TakeOver(c, cmd, m.tuning), now);
      }
  }

  /** A commit sets nothing in motion that is at rest. */
  lemma CommitRests(c: Core, now: u32)
    requires !Moving(c)
    ensures !Moving(Commit(c, now).0) && !Driving(Commit(c, now).1)
  {
    CcrSound(0, 0);
  }

  /** A wake that carries the fault bit ends with the output at zero or killed and every posted
      flag latched, whatever commands and tick share it. */
  lemma FaultWakeSilences(tr: Track, w: Wakeup, at: int, t: Tuning)
    requires WellFormed(w) && w.fault.Some? && Tuned(t)
    ensures var end := Handle(tr, Order(w), at, t);
            && !Driving(end.out) && !Moving(end.core)
            && w.fault.value <= end.core.safety.faults
            && (w.fault.value != {} ==> end.out == Kill)
  {
    var stop := [Stop(w.fault.value)];
    var tail := if w.tick.Some? then [w.tick.value] else [];
    HandleConcat(tr, w.commands, stop + tail, at, t);
    assert Order(w) == w.commands + (stop + tail);
    HandleConcat(Handle(tr, w.commands, at, t), stop, tail, at, t);
    var tr1 := Handle(tr, w.commands, at, t);
    var tr2 := Advance(tr1, Moment(at, stop[0], t));
    RestStays(tr1, Moment(at, stop[0], t));
    assert Handle(tr1, stop, at, t) == tr2;
    if w.tick.Some? {
      RestStays(tr2, Moment(at, w.tick.value, t));
      assert Handle(tr2, tail, at, t) == Advance(tr2, Moment(at, w.tick.value, t));
    }
  }

  /** The k-th event of a run is a duty or velocity command that the core takes over. */
  ghost predicate TakesMotion(tr: Track, ms: seq<Moment>, k: nat)
    requires k < |ms|
  {
    && ms[k].event.Cmd? && !ms[k].event.cmd.kind.CmdStop?
    && Reach(tr, ms[..k]).Some? && Accepts(Reach(tr, ms[..k]).value.core, Wrap(ms[k].at), ms[k].event.cmd)
  }

  /** Once at rest, the output stays zero until a motion command is taken over: duty and velocity commands
      that come too late or under a fault bring nothing back to life. */
  lemma {:induction false} SilentUntilMotionCommand(tr: Track, ms: seq<Moment>)
    requires !Moving(tr.core) && !Driving(tr.out) && TimelyRun(tr, ms)
    requires forall k :: 0 <= k < |ms| ==> !TakesMotion(tr, ms, k)
    ensures !Moving(Run(tr, ms).core) && !Driving(Run(tr, ms).out)
    decreases |ms|
  {
    if ms != [] {
      var last := |ms| - 1;
      var before := ms[..last];
      forall k | 0 <= k < last
        ensures !TakesMotion(tr, before, k)
      {
        assert before[..k] == ms[..k] && !TakesMotion(tr, ms, k);
      }
      SilentUntilMotionCommand(tr, before);
      assert !TakesMotion(tr, ms, last);
      RestStays(Run(tr, before), ms[last]);
    }
  }

  // ---------------------------------------------------------------- counters

  /** Every tick is either one loop or one counted overrun, and the watchdog notice is taken as
      soon as it is raised. */
  ghost predicate Accounted(c: Core) {
    && c.tickSeen == Wrap(c.loopCount + c.overruns)
    && !c.safety.notify && (c.safety.timedOut <==> !c.outputAllowed)
  }

  lemma AdvanceAccounted(tr: Track, m: Moment)
    requires Accounted(tr.core) && Tuned(m.tuning)
    ensures Accounted(Advance(tr, m).core)
    ensures var c, c1 := tr.core, Advance(tr, m).core;
            (c1.wdSeq, c1.wdMs) ==
            if c.outputAllowed && !c1.outputAllowed && c1.safety.faults == {} then (Next(c.wdSeq), Wrap(m.at))
            else (c.wdSeq, c.wdMs)
  {
    var c, now := tr.core, Wrap(m.at);
    match m.event
    case Tick(tick, l, r) =>
      TickAccounted(c, tick);
      SampledCounters(c, tick, l, r, m.tuning);
      CommitEdge(Sampled(c, tick, l, r, m.tuning), now);
    case Stop(flags) =>
      var c1 := Coast(c.(urgentStops := Next(c.urgentStops)));
      CommitEdge(if flags != {} then c1.(safety := Latch(c1.safety, flags)) else c1, now);
    case Cmd(cmd, _) =>
      if c.safety.faults != {} {
        CommitEdge(c, now);
      } else if PastDeadline(cmd, now) {
        CommitEdge(c.(staleCommands := Next(c.staleCommands)), now);
      } else {
        TakeOverFed(c, cmd, m.tuning);
        TakeOverCounters(c, cmd, m.tuning);
        CommitEdge(TakeOver(c, cmd, m.tuning), now);
      }
  }

  lemma SampledCounters(c: Core, tick: u32, rawLeft: u16, rawRight: u16, t: Tuning)
    requires t.left.dutyMax >= 0 && t.right.dutyMax >= 0
    ensures var c1, delta := Sampled(c, tick, rawLeft, rawRight, t), Wrap(tick - c.tickSeen);
            && c1.safety == c.safety && c1.outputAllowed == c.outputAllowed
            && c1.wdSeq == c.wdSeq && c1.wdMs == c.wdMs
            && (delta == 0 ==> c1.tickSeen == c.tickSeen && c1.loopCount == c.loopCount && c1.overruns == c.overruns)
            && (delta != 0 ==> c1.tickSeen == tick && c1.loopCount == Next(c.loopCount) &&
                               c1.overruns == if delta > 1 then Wrap(c.overruns + (delta - 1)) else c.overruns)
  {
  }

  lemma TakeOverCounters(c: Core, cmd: Command, t: Tuning)
    requires t.left.dutyMax >= 0 && t.right.dutyMax >= 0
    ensures var c1 := TakeOver(c, cmd, t);
            && c1.outputAllowed == c.outputAllowed && c1.wdSeq == c.wdSeq && c1.wdMs == c.wdMs
            && c1.tickSeen == c.tickSeen && c1.loopCount == c.loopCount && c1.overruns == c.overruns
  {
  }

  /** A commit takes the watchdog notice it raises, and raises it only on the way down. */
  lemma CommitEdge(c: Core, now: u32)
    requires !c.safety.notify && (c.safety.faults == {} ==> (c.safety.timedOut <==> !c.outputAllowed))
    ensures var c1 := Commit(c, now).0;
            && !c1.safety.notify && (c1.safety.timedOut <==> !c1.outputAllowed)
            && c1.safety.faults == c.safety.faults
            && c1.tickSeen == c.tickSeen && c1.loopCount == c.loopCount && c1.overruns == c.overruns
            && (c1.wdSeq, c1.wdMs) ==
               if c.outputAllowed && !c1.outputAllowed && c.safety.faults == {} then (Next(c.wdSeq), now)
               else (c.wdSeq, c.wdMs)
  {
  }

  /** Merged ticks keep the sum of loops and overruns equal to the tick sequence, wraps included. */
  lemma TickAccounted(c: Core, tick: u32)
    requires c.tickSeen == Wrap(c.loopCount + c.overruns)
    ensures var delta := Wrap(tick - c.tickSeen);
            delta != 0 ==>
              Wrap(Next(c.loopCount) + (if delta > 1 then Wrap(c.overruns + (delta - 1)) else c.overruns)) == tick
  {
    if Wrap(tick - c.tickSeen) != 0 {
      MergedTicks(c.loopCount, c.overruns, Wrap(tick - c.tickSeen));
      WrapForward(tick, c.tickSeen);
    }
  }

  lemma MergedTicks(loops: u32, overruns: u32, delta: u32)
    requires delta != 0
    ensures Wrap(Next(loops) + (if delta > 1 then Wrap(overruns + (delta - 1)) else overruns)) ==
            Wrap(Wrap(loops + overruns) + delta)
  {
    WrapAdd(loops + overruns, delta);
    WrapAddBoth(loops + 1, overruns + (delta - 1));
    assert delta == 1 ==> Wrap(overruns + (delta - 1)) == overruns;
  }

  lemma {:induction false} RunAccounted(tr: Track, ms: seq<Moment>)
    requires Accounted(tr.core) && TimelyRun(tr, ms)
    ensures Accounted(Run(tr, ms).core)
    decreases |ms|
  {
    if ms != [] {
      var before := ms[..|ms| - 1];
      RunAccounted(tr, before);
      AdvanceAccounted(Run(tr, before), ms[|ms| - 1]);
    }
  }

  /** In every reachable state the tick sequence seen is loops plus overruns, modulo 2^32. */
  lemma LoopsAndOverrunsAreTicks(at: int, rawLeft: u16, rawRight: u16, ms: seq<Moment>)
    requires TimelyRun(Start(at, rawLeft, rawRight), ms)
    ensures var c := Run(Start(at, rawLeft, rawRight), ms).core; c.tickSeen == Wrap(c.loopCount + c.overruns)
  {
    RunAccounted(Start(at, rawLeft, rawRight), ms);
  }

  /** The counter values the two encoders showed at the ticks of a run. */
  function LeftSamples(ms: seq<Moment>): seq<u16> {
    if ms == [] then []
    else
      var before, e := LeftSamples(ms[..|ms| - 1]), ms[|ms| - 1].event;
      if e.Tick? then before + [e.rawLeft] else before
  }

  function RightSamples(ms: seq<Moment>): seq<u16> {
    if ms == [] then []
    else
      var before, e := RightSamples(ms[..|ms| - 1]), ms[|ms| - 1].event;
      if e.Tick? then before + [e.rawRight] else before
  }

  lemma AdvanceEncoder(tr: Track, m: Moment)
    requires Tuned(m.tuning)
    ensures Advance(tr, m).core.encLeft ==
            if m.event.Tick? then E.Update(tr.core.encLeft, m.event.rawLeft) else tr.core.encLeft
    ensures Advance(tr, m).core.encRight ==
            if m.event.Tick? then E.Update(tr.core.encRight, m.event.rawRight) else tr.core.encRight
  {
    var c, now := tr.core, Wrap(m.at);
    match m.event
    case Tick(tick, l, r) =>
      SampledEncoder(c, tick, l, r, m.tuning);
      CommitEncoder(Sampled(c, tick, l, r, m.tuning), now);
    case Stop(flags) =>
      var c1 := Coast(c.(urgentStops := Next(c.urgentStops)));
      CommitEncoder(if flags != {} then c1.(safety := Latch(c1.safety, flags)) else c1, now);
    case Cmd(cmd, _) =>
      CommitEncoder(c, now);
      CommitEncoder(c.(staleCommands := Next(c.staleCommands)), now);
      TakeOverEncoder(c, cmd, m.tuning);
      CommitEncoder(TakeOver(c, cmd, m.tuning), now);
  }

  lemma SampledEncoder(c: Core, tick: u32, rawLeft: u16, rawRight: u16, t: Tuning)
    requires t.left.dutyMax >= 0 && t.right.dutyMax >= 0
    ensures var c1 := Sampled(c, tick, rawLeft, rawRight, t);
            c1.encLeft == E.Update(c.encLeft, rawLeft) && c1.encRight == E.Update(c.encRight, rawRight)
  {
  }

  lemma TakeOverEncoder(c: Core, cmd: Command, t: Tuning)
    requires t.left.dutyMax >= 0 && t.right.dutyMax >= 0
    ensures TakeOver(c, cmd, t).encLeft == c.encLeft && TakeOver(c, cmd, t).encRight == c.encRight
  {
  }

  lemma CommitEncoder(c: Core, now: u32)
    ensures var c1 := Commit(c, now).0; c1.encLeft == c.encLeft && c1.encRight == c.encRight
  {
  }

  lemma FeedSnoc(e: E.Enc, raws: seq<u16>, raw: u16)
    ensures E.FeedRaw(e, raws + [raw]) == E.Update(E.FeedRaw(e, raws), raw)
  {
    assert (raws + [raw])[..|raws|] == raws;
  }

  lemma {:induction false} RunEncoder(tr: Track, ms: seq<Moment>)
    requires TimelyRun(tr, ms)
    ensures Run(tr, ms).core.encLeft == E.FeedRaw(tr.core.encLeft, LeftSamples(ms))
    ensures Run(tr, ms).core.encRight == E.FeedRaw(tr.core.encRight, RightSamples(ms))
    decreases |ms|
  {
    if ms != [] {
      var before, m := ms[..|ms| - 1], ms[|ms| - 1];
      RunEncoder(tr, before);
      AdvanceEncoder(Run(tr, before), m);
      if m.event.Tick? {
        FeedSnoc(tr.core.encLeft, LeftSamples(before), m.event.rawLeft);
        FeedSnoc(tr.core.encRight, RightSamples(before), m.event.rawRight);
      }
    }
  }

  /** Through any number of counter wraps and merged ticks, the accumulated ticks of each wheel are the
      signed distance its shaft really moved since boot. */
  lemma TicksFollowShafts(at: int, ms: seq<Moment>, left: int, right: int, lefts: seq<int>, rights: seq<int>)
    requires TimelyRun(Start(at, E.Counter(left), E.Counter(right)), ms)
    requires LeftSamples(ms) == E.Counters(lefts) && E.SlowEnough(left, lefts)
    requires RightSamples(ms) == E.Counters(rights) && E.SlowEnough(right, rights)
    ensures var c := Run(Start(at, E.Counter(left), E.Counter(right)), ms).core;
            && c.encLeft.ticks == ENCODER_SIGN_LEFT * (E.LastOf(left, lefts) - left)
            && c.encRight.ticks == ENCODER_SIGN_RIGHT * (E.LastOf(right, rights) - right)
  {
    RunEncoder(Start(at, E.Counter(left), E.Counter(right)), ms);
    E.TicksAreDisplacement(E.Enc(0, E.Counter(left), ENCODER_SIGN_LEFT), left, lefts);
    E.TicksAreDisplacement(E.Enc(0, E.Counter(right), ENCODER_SIGN_RIGHT), right, rights);
  }

  /** The watchdog notice is stamped, with its count and the time, exactly at the commit at which output
      that was allowed is refused for age alone. */
  lemma WatchdogEdge(at: int, rawLeft: u16, rawRight: u16, ms: seq<Moment>, m: Moment)
    requires TimelyRun(Start(at, rawLeft, rawRight), ms) && Timely(Run(Start(at, rawLeft, rawRight), ms), m)
    ensures var c := Run(Start(at, rawLeft, rawRight), ms).core;
            var c1 := Advance(Run(Start(at, rawLeft, rawRight), ms), m).core;
            (c1.wdSeq, c1.wdMs) ==
            if c.outputAllowed && !c1.outputAllowed && c1.safety.faults == {} then (Next(c.wdSeq), Wrap(m.at))
            else (c.wdSeq, c.wdMs)
  {
    RunAccounted(Start(at, rawLeft, rawRight), ms);
    AdvanceAccounted(Run(Start(at, rawLeft, rawRight), ms), m);
  }
}
