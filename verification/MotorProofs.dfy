/** What every run of the motor command machine keeps, from the exactness of executed lines to the
    meaning of an acknowledgement. */
module MotorProofs {
  import opened Words
  import opened MotorSafety
  import opened ControlSpec
  import opened ControlRuns
  import opened MotorPath
  import G = AsciiGrammar
  import V = CmdVel

  // ---------------------------------------------------------------- acknowledgements

  /** The values of a result reported as applied are the clamped ones of the command. */
  lemma AppliedValues(c: Core, now: u32, cmd: Command, t: Tuning)
    requires t.left.dutyMax >= 0 && t.right.dutyMax >= 0
    ensures var r := OnCommand(c, now, cmd, t).1;
            r.seq_ == cmd.seq_ && (r.kind.Applied? ==> (r.left, r.right) == Clamped(cmd) && r.appliedMs == now)
  {
    if c.safety.faults == {} && !PastDeadline(cmd, now) {
      TakeOverFed(c, cmd, t);
    }
  }

  ghost predicate SequenceOk(s: Sys) {
    && s.cmdSeq == (if s.posted == [] then 0 else s.posted[|s.posted| - 1].cmd.seq_)
    && (forall i :: 0 <= i < |s.posted| - 1 ==> s.posted[i + 1].cmd.seq_ == Next(s.posted[i].cmd.seq_))
  }

  /** The command mailbox holds the latest post or nothing. */
  ghost predicate CommandBoxOk(s: Sys) {
    s.link.cmdBox.Some? ==>
      s.posted != [] && var p := s.posted[|s.posted| - 1]; s.link.cmdBox == Some(Cmd(p.cmd, p.acceptedAt))
  }

  /** Every application is of a command posted before, and its result is what the core gave. */
  ghost predicate AppliedOk(s: Sys) {
    forall a :: a in s.link.applied ==>
      a.index < |s.posted| && Tuned(a.tuning) &&
      a.result == OnCommand(a.before, Wrap(a.at), s.posted[a.index].cmd, a.tuning).1
  }

  /** A waiting result is that of the latest application, and it belongs to the latest post or, while
      the IO task is waiting, to the one before. */
  ghost predicate ResultBoxOk(s: Sys) {
    s.link.resultBox.Some? ==>
      s.link.applied != [] && var a := s.link.applied[|s.link.applied| - 1];
      a.result == s.link.resultBox.value &&
      (a.index == |s.posted| - 1 || (s.io.Waiting? && a.index == |s.posted| - 2))
  }

  ghost predicate JudgingOk(s: Sys) {
    && (s.io.Waiting? || s.io.Judging? ==> s.posted != [] && s.posted[|s.posted| - 1].b == s.io.b)
    && (s.io.Judging? && s.io.received && s.io.result.seq_ == s.cmdSeq ==>
          0 < s.io.k <= |s.link.applied| &&
          s.link.applied[s.io.k - 1].result == s.io.result && s.link.applied[s.io.k - 1].index == |s.posted| - 1)
  }

  ghost predicate AckInv(s: Sys) {
    SequenceOk(s) && CommandBoxOk(s) && AppliedOk(s) && ResultBoxOk(s) && JudgingOk(s)
  }

  lemma NextDiffers(x: u32)
    ensures Next(x) != x
  {
  }

  lemma PostStep(s: Sys, step: Step)
    requires AckInv(s) && Enabled(s, step) && step.IoPost?
    ensures AckInv(Apply(s, step))
  {
    var s1 := Apply(s, step);
    forall a | a in s1.link.applied
      ensures a.index < |s1.posted| && s1.posted[a.index] == s.posted[a.index]
    {
    }
    forall i | 0 <= i < |s1.posted| - 1
      ensures s1.posted[i + 1].cmd.seq_ == Next(s1.posted[i].cmd.seq_)
    {
      if i + 1 < |s.posted| {
        assert s1.posted[i + 1] == s.posted[i + 1] && s1.posted[i] == s.posted[i];
      }
    }
  }

  /** The part of the state the acknowledgement invariants are about, apart from the IO task. */
  datatype View = View(posted: seq<Post>, cmdSeq: u32, cmdBox: Option<Event>, applied: seq<Application>,
                       resultBox: Option<Result>)

  function ViewOf(s: Sys): View { View(s.posted, s.cmdSeq, s.link.cmdBox, s.link.applied, s.link.resultBox) }

  /** Taking the result out of its mailbox, to judge it or to keep waiting. */
  lemma Received(s: Sys, s1: Sys)
    requires AckInv(s) && s.io.Waiting? && s.link.resultBox.Some?
    requires ViewOf(s1) == ViewOf(s).(resultBox := None)
    requires s1.io == s.io || s1.io == Judging(true, s.link.resultBox.value, |s.link.applied|, s.io.b)
    ensures AckInv(s1)
  {
    var r, a := s.link.resultBox.value, s.link.applied[|s.link.applied| - 1];
    if r.seq_ == s.cmdSeq && a.index == |s.posted| - 2 {
      AppliedValues(a.before, Wrap(a.at), s.posted[a.index].cmd, a.tuning);
      assert s.posted[a.index + 1].cmd.seq_ == Next(s.posted[a.index].cmd.seq_);
      NextDiffers(s.posted[a.index].cmd.seq_);
    }
  }

  lemma ReceiveStep(s: Sys, step: Step)
    requires AckInv(s) && Enabled(s, step) && step.IoReceive?
    ensures AckInv(Apply(s, step))
  {
    Received(s, Apply(s, step));
  }

  /** Applying the command in the mailbox. */
  lemma Obeyed(s: Sys, s1: Sys, a: Application)
    requires AckInv(s) && s.link.cmdBox.Some? && s1.io == s.io
    requires ViewOf(s1) ==
             ViewOf(s).(cmdBox := None, applied := s.link.applied + [a], resultBox := Some(a.result))
    requires a.index == |s.posted| - 1 && Tuned(a.tuning) &&
             a.result == OnCommand(a.before, Wrap(a.at), s.posted[a.index].cmd, a.tuning).1
    ensures AckInv(s1)
  {
    ObeyedApplied(s, s1, a);
    var n := |s.link.applied|;
    assert s1.link.applied[n] == a && forall k :: 0 <= k < n ==> s1.link.applied[k] == s.link.applied[k];
  }

  lemma ObeyedApplied(s: Sys, s1: Sys, a: Application)
    requires AppliedOk(s) && s1.posted == s.posted && s1.link.applied == s.link.applied + [a]
    requires a.index < |s.posted| && Tuned(a.tuning) &&
             a.result == OnCommand(a.before, Wrap(a.at), s.posted[a.index].cmd, a.tuning).1
    ensures AppliedOk(s1)
  {
    forall b | b in s1.link.applied
      ensures b in s.link.applied || b == a
    {
    }
  }

  lemma CommandStep(s: Sys, step: Step)
    requires AckInv(s) && Enabled(s, step) && step.CtlCommand?
    ensures AckInv(Apply(s, step))
  {
    var l := s.link;
    if l.wake.bits.cmd && l.cmdBox.Some? {
      var p := s.posted[|s.posted| - 1];
      Obeyed(s, Apply(s, step), Application(|s.posted| - 1, l.track.core, l.wake.at, step.t,
                                            OnCommand(l.track.core, Wrap(l.wake.at), p.cmd, step.t).1));
    } else {
      AckKept(s, Apply(s, step));
    }
  }

  /** The IO task may move on as it likes, but judges only after waiting. */
  predicate Moves(s: Sys, s1: Sys) {
    s1.io == s.io || (!s1.io.Waiting? && (s.io.Waiting? ==> s.link.resultBox.None?) &&
                      (s1.io.Judging? ==> s.io.Waiting? && !s1.io.received && s1.io.b == s.io.b))
  }

  lemma AckKept(s: Sys, s1: Sys)
    requires AckInv(s) && ViewOf(s1) == ViewOf(s) && Moves(s, s1)
    ensures AckInv(s1)
  {
  }

  predicate Quiet(step: Step) { !step.IoPost? && !step.IoReceive? && !step.CtlCommand? }

  /** The other steps touch neither posts, applications nor mailboxes of this path. */
  lemma QuietView(s: Sys, step: Step)
    requires Enabled(s, step) && Quiet(step)
    ensures ViewOf(Apply(s, step)) == ViewOf(s)
  {
  }

  lemma QuietMoves(s: Sys, step: Step)
    requires Enabled(s, step) && Quiet(step)
    ensures Moves(s, Apply(s, step))
  {
  }

  lemma AckStep(s: Sys, step: Step)
    requires AckInv(s) && Enabled(s, step)
    ensures AckInv(Apply(s, step))
  {
    if step.IoPost? {
      PostStep(s, step);
    } else if step.IoReceive? {
      ReceiveStep(s, step);
    } else if step.CtlCommand? {
      CommandStep(s, step);
    } else {
      QuietView(s, step);
      QuietMoves(s, step);
      AckKept(s, Apply(s, step));
    }
  }

  // ---------------------------------------------------------------- replies

  ghost predicate Increasing(ends: seq<nat>, upTo: nat) {
    && (forall i, j :: 0 <= i < j < |ends| ==> ends[i] < ends[j])
    && (forall i :: 0 <= i < |ends| ==> ends[i] <= upTo)
  }

  lemma IncreasingOn(ends: seq<nat>, upTo: nat, next: nat)
    requires Increasing(ends, upTo)
    ensures upTo <= next ==> Increasing(ends, next)
    ensures upTo < next ==> Increasing(ends + [next], next)
  {
  }

  /** The ended lines are answered in their order, each once, the one being worked on not yet. */
  ghost predicate RepliesOk(s: Sys) {
    && |s.answers| == |s.replies|
    && s.ends == s.answers + (if InCommand(s.io) then [s.io.b] else [])
    && Increasing(s.ends, s.rx.taken)
  }

  lemma TakeReplies(s: Sys, step: Step)
    requires RepliesOk(s) && Enabled(s, step) && step.IoTake?
    ensures RepliesOk(Apply(s, step))
  {
    IncreasingOn(s.ends, s.rx.taken, s.rx.taken + 1);
  }

  /** No other step ends a line; and the IO task never goes back in its arrivals. */
  lemma OtherEnds(s: Sys, step: Step)
    requires RxOk(s.rx) && Enabled(s, step) && !step.IoTake?
    ensures Apply(s, step).ends == s.ends && s.rx.taken <= Apply(s, step).rx.taken
  {
  }

  lemma OtherReplies(s: Sys, step: Step)
    requires RepliesOk(s) && Enabled(s, step) && !step.IoTake?
    ensures var s1 := Apply(s, step);
            |s1.answers| == |s1.replies| && s.ends == s1.answers + if InCommand(s1.io) then [s1.io.b] else []
  {
  }

  lemma RepliesStep(s: Sys, step: Step)
    requires RepliesOk(s) && RxOk(s.rx) && Enabled(s, step)
    ensures RepliesOk(Apply(s, step))
  {
    if step.IoTake? {
      TakeReplies(s, step);
    } else {
      OtherEnds(s, step);
      OtherReplies(s, step);
      IncreasingOn(s.ends, s.rx.taken, Apply(s, step).rx.taken);
    }
  }

  /** The telemetry switch stands as the last setting says. */
  ghost predicate SettingOk(s: Sys) { s.spdOn <==> s.settings != [] && s.settings[|s.settings| - 1].on != 0 }

  lemma SettingStep(s: Sys, step: Step)
    requires SettingOk(s) && Enabled(s, step)
    ensures SettingOk(Apply(s, step))
  {
  }

  /** Only a setting and a result that was judged are ever answered ok: a line that is refused, or met by a
      receive fault, is not. */
  lemma OthersReplyErr(s: Sys, step: Step)
    requires Enabled(s, step) && !step.IoSpd? && !step.IoJudge?
    ensures Apply(s, step).replies == s.replies || Apply(s, step).replies == s.replies + [Err]
  {
  }

  // ---------------------------------------------------------------- steps of the control task

  predicate ControlStep(step: Step) { step.CtlCommand? || step.CtlVelocity? || step.CtlFault? || step.CtlTick? }

  /** What the core is given in a step of the control task, if anything. */
  function MomentOf(s: Sys, step: Step): Option<Moment>
    requires ControlStep(step) && s.link.wake.Awake?
  {
    var l := s.link;
    match step
    case CtlCommand(t) =>
      if l.wake.bits.cmd && l.cmdBox.Some? && l.cmdBox.value.Cmd? && s.posted != [] then
        Some(Moment(l.wake.at, l.cmdBox.value, t))
      else None
    case CtlVelocity(t) =>
      if l.wake.bits.vel && l.velBox.Some? then Some(Moment(l.wake.at, V.EventOf(l.velBox.value), t)) else None
    case CtlFault(t) => if l.wake.bits.fault then Some(Moment(l.wake.at, Stop(l.pending), t)) else None
    case CtlTick(tick, rl, rr, t) =>
      if l.wake.bits.tick then Some(Moment(l.wake.at, Tick(tick, rl, rr), t)) else None
  }

  lemma StageTrack(s: Sys, step: Step)
    requires Enabled(s, step) && ControlStep(step)
    ensures var l, l1 := s.link, Apply(s, step).link;
            && (match MomentOf(s, step)
                case Some(m) => Tuned(m.tuning) && l1.track == Advance(l.track, m)
                case None => l1.track == l.track)
            && (l1.wake.Asleep? || l1.wake.at == l.wake.at)
  {
  }

  lemma OtherTrack(s: Sys, step: Step)
    requires Enabled(s, step) && !ControlStep(step)
    ensures Apply(s, step).link.track == s.link.track && Apply(s, step).link.source == s.link.source
  {
  }

  // ---------------------------------------------------------------- faults

  /** A raised flag is pending or latched, and somebody is about to bring a pending one over. */
  ghost predicate FlagsOk(s: Sys) {
    var l := s.link;
    && l.raised <= l.pending + l.track.core.safety.faults
    && (l.pending != {} ==>
          (l.bits.fault || l.raising || (l.wake.Awake? && l.wake.bits.fault && !l.wake.stage.AtTick?)))
  }

  /** Past its fault stage, a wake that carries the fault bit has silenced the output. */
  ghost predicate SilentOk(s: Sys) {
    var l := s.link;
    l.wake.Awake? && l.wake.bits.fault && l.wake.stage.AtTick? ==>
      !Driving(l.track.out) && !Moving(l.track.core)
  }

  /** No event takes a latched flag back. */
  lemma FaultsGrow(tr: Track, m: Moment)
    requires Tuned(m.tuning)
    ensures tr.core.safety.faults <= Advance(tr, m).core.safety.faults
    ensures m.event.Stop? ==> m.event.flags <= Advance(tr, m).core.safety.faults
  {
    match m.event
    case Tick(tick, l, r) => SampledMoving(tr.core, tick, l, r, m.tuning);
    case Stop(_) =>
    case Cmd(cmd, _) =>
      if Accepts(tr.core, Wrap(m.at), cmd) {
        TakeOverFed(tr.core, cmd, m.tuning);
      }
  }

  lemma StageFlags(s: Sys, step: Step)
    requires FlagsOk(s) && SilentOk(s) && Enabled(s, step) && ControlStep(step)
    ensures FlagsOk(Apply(s, step)) && SilentOk(Apply(s, step))
  {
    StageTrack(s, step);
    if MomentOf(s, step).Some? {
      FaultsGrow(s.link.track, MomentOf(s, step).value);
      if step.CtlFault? {
        RestStays(s.link.track, MomentOf(s, step).value);
      }
    }
  }

  lemma OtherFlags(s: Sys, step: Step)
    requires FlagsOk(s) && SilentOk(s) && Enabled(s, step) && !ControlStep(step)
    ensures FlagsOk(Apply(s, step)) && SilentOk(Apply(s, step))
  {
    OtherTrack(s, step);
  }

  /** A wake that carried the fault bit ends in silence, whatever else it handled. */
  lemma FaultWakeEndsSilent(s: Sys, step: Step)
    requires SilentOk(s) && Enabled(s, step) && step.CtlTick? && s.link.wake.bits.fault
    ensures var l := Apply(s, step).link;
            l.wake.Asleep? && !Driving(l.track.out) && !Moving(l.track.core)
  {
    RestStays(s.link.track, Moment(s.link.wake.at, Tick(step.tick, step.rawLeft, step.rawRight), step.t));
  }

  /** Everything that calls for a stop: a byte lost, damaged or without room, a raised flag, another task, and
      the IO task as it synchronises. */
  predicate CallsStop(s: Sys, step: Step) {
    || (step.ByteIn? && (step.errored || |s.rx.ring| >= 63)) || step.ByteLost? || step.RaiseNotify? || step.CallStop?
    || ((step.IoSync? || step.IoFail?) && FaultPending(s.rx))
  }

  /** The control task is called by exactly the steps that have something for it, and each call stands until
      the task wakes and takes it along. */
  lemma CallsExactly(s: Sys, step: Step)
    requires Enabled(s, step)
    ensures var b, l1 := s.link.bits, Apply(s, step).link;
            if step.CtlWake? then l1.bits == NO_BITS && l1.wake == Awake(b, step.at, AtCommands)
            else l1.bits == Bits(b.cmd || step.IoPost?, b.vel || step.VelPost?, b.fault || CallsStop(s, step),
                                 b.tick || step.TickIsr?)
  {
    if ControlStep(step) {
      StageBits(s, step);
    } else if !step.CtlWake? && !step.ByteIn? && !step.ByteLost? && !step.IoSync? && !step.IoFail? {
      OtherBits(s, step);
    }
  }

  lemma StageBits(s: Sys, step: Step)
    requires Enabled(s, step) && ControlStep(step)
    ensures Apply(s, step).link.bits == s.link.bits
  {
  }

  lemma OtherBits(s: Sys, step: Step)
    requires Enabled(s, step) && !ControlStep(step) && !step.CtlWake?
    requires !step.ByteIn? && !step.ByteLost? && !step.IoSync? && !step.IoFail?
    ensures var b, b1 := s.link.bits, Apply(s, step).link.bits;
            b1 == Bits(b.cmd || step.IoPost?, b.vel || step.VelPost?, b.fault || step.RaiseNotify? || step.CallStop?,
                       b.tick || step.TickIsr?)
  {
  }

  /** None of these steps wakes the control task. */
  predicate NoWake(steps: seq<Step>) { forall step :: step in steps ==> !step.CtlWake? }

  lemma {:induction false} CallStands(s: Sys, steps: seq<Step>)
    requires s.link.bits.fault && Possible(s, steps) && NoWake(steps)
    ensures Exec(s, steps).link.bits.fault
    decreases steps
  {
    if steps != [] {
      CallsExactly(s, steps[0]);
      assert forall step :: step in steps[1..] ==> step in steps;
      CallStands(Apply(s, steps[0]), steps[1..]);
    }
  }

  /** So a call for a stop is never lost: whatever comes between, the next wake of the control task carries
      it, and with FaultCallSilences ends with the bridge undriven. */
  lemma NextWakeStops(s: Sys, call: Step, steps: seq<Step>, at: int)
    requires Enabled(s, call) && CallsStop(s, call) && Possible(Apply(s, call), steps) && NoWake(steps)
    requires Enabled(Exec(Apply(s, call), steps), CtlWake(at))
    ensures Apply(Exec(Apply(s, call), steps), CtlWake(at)).link.wake.bits.fault
  {
    CallsExactly(s, call);
    CallStands(Apply(s, call), steps);
    CallsExactly(Exec(Apply(s, call), steps), CtlWake(at));
  }

  // ---------------------------------------------------------------- freshness

  /** The time a wake works with is not before the last commit. */
  ghost predicate ClockOk(s: Sys) {
    Fresh(s.link.track) && (s.link.wake.Awake? ==> 0 <= s.link.wake.at - s.link.track.at < TWO32 - CMD_WATCHDOG_MS)
  }

  lemma OtherClock(s: Sys, step: Step)
    requires ClockOk(s) && Enabled(s, step) && !ControlStep(step)
    ensures ClockOk(Apply(s, step))
  {
    OtherTrack(s, step);
  }

  lemma ClockStep(s: Sys, step: Step)
    requires ClockOk(s) && Enabled(s, step) && ControlStep(step)
    ensures ClockOk(Apply(s, step))
  {
    StageTrack(s, step);
    if MomentOf(s, step).Some? {
      StageTimely(s, step);
      AdvanceFresh(s.link.track, MomentOf(s, step).value);
    }
  }

  lemma StageTimely(s: Sys, step: Step)
    requires ClockOk(s) && Enabled(s, step) && ControlStep(step) && MomentOf(s, step).Some?
    ensures Timely(s.link.track, MomentOf(s, step).value)
  {
  }

  // ---------------------------------------------------------------- velocities from the agent

  /** The agent's deliveries were accepted, and the one applied last is the one the core goes by. */
  ghost predicate SourceOk(s: Sys) {
    var l := s.link;
    && (l.velBox.Some? ==> V.Accepted(l.velBox.value))
    && (l.source.Some? ==>
          V.Accepted(l.source.value) && l.track.fedAt == V.AcceptedAt(l.source.value) && l.track.last == Some(CmdVel))
  }

  /** What the core goes by changes exactly with a command it takes over. */
  lemma AdvanceLast(tr: Track, m: Moment)
    requires Tuned(m.tuning)
    ensures var taken := m.event.Cmd? && Accepts(tr.core, Wrap(m.at), m.event.cmd);
            (Advance(tr, m).last, Advance(tr, m).fedAt) ==
            if taken then (Some(m.event.cmd.kind), m.event.acceptedAt) else (tr.last, tr.fedAt)
  {
  }

  lemma SourceStep(s: Sys, step: Step)
    requires SourceOk(s) && Enabled(s, step)
    ensures SourceOk(Apply(s, step))
  {
    if ControlStep(step) {
      SourceStage(s, step);
    } else {
      OtherTrack(s, step);
    }
  }

  lemma SourceStage(s: Sys, step: Step)
    requires SourceOk(s) && Enabled(s, step) && ControlStep(step)
    ensures SourceOk(Apply(s, step))
  {
    StageTrack(s, step);
    SourceOf(s, step);
    if MomentOf(s, step).Some? {
      AdvanceLast(s.link.track, MomentOf(s, step).value);
    }
  }

  /** The recorded source changes exactly with a command taken over. */
  lemma SourceOf(s: Sys, step: Step)
    requires Enabled(s, step) && ControlStep(step)
    ensures var l, l1, m := s.link, Apply(s, step).link, MomentOf(s, step);
            var taken := m.Some? && m.value.event.Cmd? && Accepts(l.track.core, Wrap(m.value.at), m.value.event.cmd);
            && (l1.velBox.Some? ==> l1.velBox == l.velBox)
            && l1.source == if !taken then l.source else if step.CtlVelocity? then l.velBox else None
  {
  }

  // ---------------------------------------------------------------- silence after a fault call

  ghost predicate Silent(s: Sys) { !Moving(s.link.track.core) && !Driving(s.link.track.out) }

  /** The control task takes over a duty or velocity command in this step. */
  ghost predicate StartsMotion(s: Sys, step: Step) {
    && ControlStep(step) && s.link.wake.Awake? && MomentOf(s, step).Some?
    && var m := MomentOf(s, step).value;
       m.event.Cmd? && !m.event.cmd.kind.CmdStop? && Accepts(s.link.track.core, Wrap(m.at), m.event.cmd)
  }

  lemma SilentStep(s: Sys, step: Step)
    requires Silent(s) && Enabled(s, step) && !StartsMotion(s, step)
    ensures Silent(Apply(s, step))
  {
    if ControlStep(step) {
      StageTrack(s, step);
      if MomentOf(s, step).Some? {
        RestStays(s.link.track, MomentOf(s, step).value);
      }
    } else {
      OtherTrack(s, step);
    }
  }

  /** No step of these takes over a motion command. */
  ghost predicate NoMotion(s: Sys, steps: seq<Step>)
    requires Possible(s, steps)
    decreases steps
  {
    steps == [] || (!StartsMotion(s, steps[0]) && NoMotion(Apply(s, steps[0]), steps[1..]))
  }

  /** Silence lasts, for every interleaving, until the control task takes over a motion command. */
  lemma {:induction false} StaysSilent(s: Sys, steps: seq<Step>)
    requires Silent(s) && Possible(s, steps) && NoMotion(s, steps)
    ensures Silent(Exec(s, steps))
    decreases steps
  {
    if steps != [] {
      SilentStep(s, steps[0]);
      StaysSilent(Apply(s, steps[0]), steps[1..]);
    }
  }

  // ---------------------------------------------------------------- all of it, in every run

  ghost predicate Inv(s: Sys) {
    && BytesOk(s) && AckInv(s) && RepliesOk(s) && SettingOk(s) && FlagsOk(s) && SilentOk(s) && ClockOk(s)
    && SourceOk(s)
  }

  lemma BootInv(at: int, rawLeft: u16, rawRight: u16)
    ensures Inv(PowerUp(at, rawLeft, rawRight))
  {
    assert Clean([], 0, "");
  }

  lemma StepInv(s: Sys, step: Step)
    requires Inv(s) && Enabled(s, step)
    ensures Inv(Apply(s, step))
  {
    BytesStep(s, step);
    AckStep(s, step);
    RepliesStep(s, step);
    SettingStep(s, step);
    SourceStep(s, step);
    if ControlStep(step) {
      ClockStep(s, step);
      StageFlags(s, step);
    } else {
      OtherClock(s, step);
      OtherFlags(s, step);
    }
  }

  lemma {:induction false} RunInv(s: Sys, steps: seq<Step>)
    requires Inv(s) && Possible(s, steps)
    ensures Inv(Exec(s, steps))
    decreases steps
  {
    if steps != [] {
      StepInv(s, steps[0]);
      RunInv(Apply(s, steps[0]), steps[1..]);
    }
  }

  /** For every interleaving: whatever was posted to the control task or took effect as a setting
      came from the exact bytes between two line ends, none of them lost or damaged, and means what
      the grammar says. */
  lemma ExecutedLinesAreExact(at: int, rawLeft: u16, rawRight: u16, steps: seq<Step>)
    requires Possible(PowerUp(at, rawLeft, rawRight), steps)
    ensures var s := Exec(PowerUp(at, rawLeft, rawRight), steps);
            && (forall p :: p in s.posted ==> ExactLine(s.rx.history, p.a, p.b, p.line) && !p.line.Spd? &&
                                              p.cmd == CommandOf(p.line, p.cmd.seq_, p.acceptedAt))
            && (forall e :: e in s.settings ==> ExactLine(s.rx.history, e.a, e.b, G.Spd(e.on)))
            && (s.spdOn <==> s.settings != [] && s.settings[|s.settings| - 1].on != 0)
  {
    BootInv(at, rawLeft, rawRight);
    RunInv(PowerUp(at, rawLeft, rawRight), steps);
  }

  /** The application `a` is of post number `index`, succeeded, and is what `reply` reports. */
  ghost predicate AnswersPost(a: Application, index: nat, p: Post, reply: Reply) {
    && a.index == index && Tuned(a.tuning) && a.result.kind.Applied?
    && a.result == OnCommand(a.before, Wrap(a.at), p.cmd, a.tuning).1
    && reply == Ok(Wrap(a.at), Clamped(p.cmd).0, Clamped(p.cmd).1)
  }

  /** What the answer of a judging IO task says, if it is ok. */
  ghost predicate OkIsTrue(s: Sys, s1: Sys) {
    var n := |s.replies|;
    n < |s1.replies| && n < |s1.answers| &&
    (s1.replies[n].Ok? ==>
       && s.posted != [] && s.rx.unsynced == 0
       && var p := s.posted[|s.posted| - 1];
          && s1.answers[n] == p.b && (s1.replies[n].left, s1.replies[n].right) == Meant(p.line)
          && ExactLine(s.rx.history, p.a, p.b, p.line)
          && exists k :: 0 <= k < |s.link.applied| &&
                         AnswersPost(s.link.applied[k], |s.posted| - 1, p, s1.replies[n]))
  }

  /** The answer of a judging IO task, in any state the invariants allow. */
  lemma OkAnswers(s: Sys, step: Step)
    requires AckInv(s) && BytesOk(s) && RepliesOk(s) && Enabled(s, step) && step.IoJudge?
    ensures OkIsTrue(s, Apply(s, step))
  {
    var reply := Apply(s, step).replies[|s.replies|];
    if reply.Ok? {
      PendingIsUnsynced(s.rx);
      var a := s.link.applied[s.io.k - 1];
      AppliedValues(a.before, Wrap(a.at), s.posted[a.index].cmd, a.tuning);
      var p := s.posted[|s.posted| - 1];
      CommandMeans(p.line, p.cmd.seq_, p.acceptedAt);
      assert AnswersPost(a, |s.posted| - 1, p, reply);
    }
  }

  /** For every interleaving: when the IO task answers a motion command with ok, the control task
      applied exactly the command posted last, after it was posted; that came from the very line answered,
      received undamaged; the values in the answer are its clamped ones, committed then; and no receive
      fault is unsynchronised at the decision. */
  lemma OkMeansApplied(at: int, rawLeft: u16, rawRight: u16, steps: seq<Step>, step: Step)
    requires Possible(PowerUp(at, rawLeft, rawRight), steps)
    requires Enabled(Exec(PowerUp(at, rawLeft, rawRight), steps), step) && step.IoJudge?
    ensures var s := Exec(PowerUp(at, rawLeft, rawRight), steps); OkIsTrue(s, Apply(s, step))
  {
    BootInv(at, rawLeft, rawRight);
    RunInv(PowerUp(at, rawLeft, rawRight), steps);
    OkAnswers(Exec(PowerUp(at, rawLeft, rawRight), steps), step);
  }

  /** Each line that ended gets exactly one answer, and the k-th answer is for the k-th line: all of them
      are answered once the IO task is idle again, and all but the one it is busy with before. */
  lemma OneReplyPerLine(at: int, rawLeft: u16, rawRight: u16, steps: seq<Step>)
    requires Possible(PowerUp(at, rawLeft, rawRight), steps)
    ensures var s := Exec(PowerUp(at, rawLeft, rawRight), steps);
            && |s.replies| == |s.answers| == |s.ends| - (if InCommand(s.io) then 1 else 0)
            && s.answers <= s.ends && (InCommand(s.io) ==> s.ends[|s.answers|] == s.io.b)
            && (forall i, j :: 0 <= i < j < |s.ends| ==> s.ends[i] < s.ends[j])
  {
    BootInv(at, rawLeft, rawRight);
    RunInv(PowerUp(at, rawLeft, rawRight), steps);
  }

  /** No raised fault flag is ever lost: it is pending or latched at every moment, and latched as soon
      as the control task has slept through without being called. */
  lemma FaultFlagsAreNeverLost(at: int, rawLeft: u16, rawRight: u16, steps: seq<Step>)
    requires Possible(PowerUp(at, rawLeft, rawRight), steps)
    ensures var l := Exec(PowerUp(at, rawLeft, rawRight), steps).link;
            && l.raised <= l.pending + l.track.core.safety.faults
            && (l.wake.Asleep? && !l.bits.fault && !l.raising ==> l.raised <= l.track.core.safety.faults)
  {
    BootInv(at, rawLeft, rawRight);
    RunInv(PowerUp(at, rawLeft, rawRight), steps);
  }

  /** For every interleaving: while the bridge is driven, at any time t less than p ms after the last commit
      or at it, the command applied last is a motion command accepted less than 200 + p ms before. */
  lemma DrivenMeansFresh(at: int, rawLeft: u16, rawRight: u16, steps: seq<Step>, t: int, p: nat)
    requires Possible(PowerUp(at, rawLeft, rawRight), steps)
    requires var tr := Exec(PowerUp(at, rawLeft, rawRight), steps).link.track; tr.at <= t <= tr.at + p
    ensures var tr := Exec(PowerUp(at, rawLeft, rawRight), steps).link.track;
            Driving(tr.out) ==>
              tr.last.Some? && !tr.last.value.CmdStop? && tr.fedAt <= t < tr.fedAt + CMD_WATCHDOG_MS + p
  {
    BootInv(at, rawLeft, rawRight);
    RunInv(PowerUp(at, rawLeft, rawRight), steps);
  }

  /** For every interleaving of the two command paths: while the bridge is driven on a velocity of the agent,
      at true time `output`, p ms after the last commit at the most, the stamp of that velocity is less than
      201 + p ms old, plus what its callback took between its two clock readings. */
  lemma VelocityNeverOutlives(at: int, rawLeft: u16, rawRight: u16, steps: seq<Step>, output: int, p: nat)
    requires Possible(PowerUp(at, rawLeft, rawRight), steps)
    requires var l := Exec(PowerUp(at, rawLeft, rawRight), steps).link;
             && Driving(l.track.out) && l.source.Some?
             && l.track.at <= V.Millis(output, l.source.value.phase) <= l.track.at + p
    ensures var d := Exec(PowerUp(at, rawLeft, rawRight), steps).link.source.value;
            output - d.stamp <= (201 + p) * V.NS_PER_MS - 2 + (d.read - d.checked)
  {
    BootInv(at, rawLeft, rawRight);
    RunInv(PowerUp(at, rawLeft, rawRight), steps);
    V.BackDatingBoundsAge(Exec(PowerUp(at, rawLeft, rawRight), steps).link.source.value, output, p);
  }

  /** A wake called for a fault leaves the output at zero or killed, whatever commands, velocities and
      ticks share it. */
  lemma FaultCallSilences(at: int, rawLeft: u16, rawRight: u16, steps: seq<Step>, step: Step)
    requires Possible(PowerUp(at, rawLeft, rawRight), steps)
    requires var s := Exec(PowerUp(at, rawLeft, rawRight), steps);
             Enabled(s, step) && step.CtlTick? && s.link.wake.bits.fault
    ensures var l := Apply(Exec(PowerUp(at, rawLeft, rawRight), steps), step).link;
            l.wake.Asleep? && !Driving(l.track.out) && !Moving(l.track.core)
  {
    BootInv(at, rawLeft, rawRight);
    RunInv(PowerUp(at, rawLeft, rawRight), steps);
    FaultWakeEndsSilent(Exec(PowerUp(at, rawLeft, rawRight), steps), step);
  }

  /** And it stays there, whatever steps follow in whatever order, until the control task takes over a motion
      command: no old one comes back to life, not even one still in a mailbox but too late. */
  lemma FaultCallStaysSilent(at: int, rawLeft: u16, rawRight: u16, steps: seq<Step>, step: Step, more: seq<Step>)
    requires Possible(PowerUp(at, rawLeft, rawRight), steps)
    requires var s := Exec(PowerUp(at, rawLeft, rawRight), steps);
             && Enabled(s, step) && step.CtlTick? && s.link.wake.bits.fault
             && Possible(Apply(s, step), more) && NoMotion(Apply(s, step), more)
    ensures Silent(Exec(Apply(Exec(PowerUp(at, rawLeft, rawRight), steps), step), more))
  {
    FaultCallSilences(at, rawLeft, rawRight, steps, step);
    StaysSilent(Apply(Exec(PowerUp(at, rawLeft, rawRight), steps), step), more);
  }
}
