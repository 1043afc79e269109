/** What the motor command machine does for a clean line when nothing comes in between: the other direction of
    the safety theorems, so that they do not hold for want of any action. */
module MotorReplies {
  import opened Words
  import opened MotorSafety
  import opened ControlSpec
  import opened ControlRuns
  import opened MotorPath
  import opened MotorProofs
  import G = AsciiGrammar
  import P = ProtocolAscii
  import V = CmdVel

  lemma {:induction false} ExecSnoc(s: Sys, steps: seq<Step>, step: Step)
    requires Possible(s, steps) && Enabled(Exec(s, steps), step)
    ensures Possible(s, steps + [step]) && Exec(s, steps + [step]) == Apply(Exec(s, steps), step)
    decreases steps
  {
    if steps == [] {
      assert steps + [step] == [step] && [step][1..] == [];
    } else {
      assert (steps + [step])[1..] == steps[1..] + [step];
      ExecSnoc(Apply(s, steps[0]), steps[1..], step);
    }
  }

  /** A run one step longer. */
  lemma Then(s0: Sys, steps: seq<Step>, s: Sys, step: Step) returns (steps1: seq<Step>, s1: Sys)
    requires Possible(s0, steps) && Exec(s0, steps) == s && Enabled(s, step)
    ensures Possible(s0, steps1) && Exec(s0, steps1) == s1 && s1 == Apply(s, step)
  {
    ExecSnoc(s0, steps, step);
    steps1, s1 := steps + [step], Apply(s, step);
  }

  /** The IO task is about to take the byte that completes this line, with no fault to synchronise, while the
      control task sleeps. */
  ghost predicate Completes(s: Sys, line: G.Line) {
    && RxOk(s.rx) && s.rx.unsynced == 0 && s.io.Synced? && s.link.wake.Asleep?
    && s.rx.ring != "" && P.Push(s.rx.proto, s.rx.ring[0]).1 == P.Command(line)
  }

  /** The state once that line has been taken and found undamaged. */
  function Decided(s: Sys, line: G.Line): Sys
    requires s.rx.ring != ""
  {
    var rx := Take(s.rx).0;
    s.(rx := rx, io := Posting(line, s.rx.from, rx.taken), ends := s.ends + [rx.taken])
  }

  lemma Decides(s: Sys, line: G.Line) returns (steps: seq<Step>, s1: Sys)
    requires Completes(s, line)
    ensures Possible(s, steps) && Exec(s, steps) == s1 && s1 == Decided(s, line)
  {
    TakeOk(s.rx);
    PendingIsUnsynced(Take(s.rx).0);
    steps, s1 := Then(s, [], s, IoTake);
    steps, s1 := Then(s, steps, s1, IoCheck);
  }

  /** A clean setting takes effect and is answered ok with its value. */
  lemma SettingIsAnswered(s: Sys, on: int) returns (steps: seq<Step>)
    requires Completes(s, G.Spd(on))
    ensures Possible(s, steps)
    ensures var e := Exec(s, steps);
            && e.spdOn == (on != 0) && e.link == s.link && e.posted == s.posted
            && e.replies == s.replies + [Ok(Wrap(s.now), on, on)]
            && e.answers == s.answers + [Take(s.rx).0.taken]
  {
    var s1: Sys;
    steps, s1 := Decides(s, G.Spd(on));
    steps, s1 := Then(s, steps, s1, IoSpd);
  }

  /** The control task sleeps with nothing to do and no fault, and wakes in time for a command accepted now. */
  ghost predicate Punctual(s: Sys, at: int, t: Tuning) {
    && s.link.bits == NO_BITS && s.link.wake.Asleep? && s.link.track.core.safety.faults == {}
    && s.link.track.core.safety.timeout == CMD_WATCHDOG_MS && Tuned(t)
    && 0 <= at - s.link.track.at < TWO32 - CMD_WATCHDOG_MS && s.now <= at < s.now + CMD_WATCHDOG_MS
  }

  /** What one wake makes of the command just posted: it is applied, and its result is in the mailbox. */
  function Served(s: Sys, m: Moment, wake: Wake): Sys
    requires s.posted != [] && m.event.Cmd? && m.tuning.left.dutyMax >= 0 && m.tuning.right.dutyMax >= 0
  {
    var core := s.link.track.core;
    var result := OnCommand(core, Wrap(m.at), m.event.cmd, m.tuning).1;
    s.(link := s.link.(track := Advance(s.link.track, m), wake := wake, bits := NO_BITS, cmdBox := None,
                       resultBox := Some(result),
                       source := if Accepts(core, Wrap(m.at), m.event.cmd) then None else s.link.source,
                       applied := s.link.applied + [Application(|s.posted| - 1, core, m.at, m.tuning, result)]))
  }

  const CALLED: Bits := NO_BITS.(cmd := true)

  lemma AppliesNow(s: Sys, m: Moment)
    requires s.posted != [] && s.link.cmdBox == Some(m.event) && m.event.Cmd? && s.link.bits == NO_BITS
    requires s.link.wake == Awake(CALLED, m.at, AtCommands) && Timely(s.link.track, m)
    ensures Enabled(s, CtlCommand(m.tuning))
    ensures Apply(s, CtlCommand(m.tuning)) == Served(s, m, s.link.wake)
  {
  }

  lemma Applies(s0: Sys, before: seq<Step>, s: Sys, m: Moment) returns (steps: seq<Step>, s1: Sys)
    requires Possible(s0, before) && Exec(s0, before) == s
    requires s.posted != [] && s.link.cmdBox == Some(m.event) && m.event.Cmd?
    requires s.link.wake.Asleep? && s.link.bits == CALLED && Timely(s.link.track, m)
    ensures Possible(s0, steps) && Exec(s0, steps) == s1 && s1 == Served(s, m, Awake(CALLED, m.at, AtCommands))
  {
    var s2 := s.(link := s.link.(wake := Awake(CALLED, m.at, AtCommands), bits := NO_BITS));
    assert Apply(s, CtlWake(m.at)) == s2;
    steps, s1 := Then(s0, before, s, CtlWake(m.at));
    AppliesNow(s2, m);
    steps, s1 := Then(s0, steps, s2, CtlCommand(m.tuning));
  }

  /** The rest of a wake that was called for a command alone. */
  lemma Finishes(s0: Sys, before: seq<Step>, s: Sys, t: Tuning) returns (steps: seq<Step>, s1: Sys)
    requires Possible(s0, before) && Exec(s0, before) == s && Tuned(t)
    requires s.link.wake.Awake? && s.link.wake.bits == CALLED && s.link.wake.stage == AtCommands && s.link.cmdBox.None?
    ensures Possible(s0, steps) && Exec(s0, steps) == s1 && s1 == s.(link := s.link.(wake := Asleep))
  {
    var at := s.link.wake.at;
    steps, s1 := Passes(s0, before, s, CtlCommand(t), Awake(CALLED, at, AtVelocity));
    steps, s1 := Passes(s0, steps, s1, CtlVelocity(t), Awake(CALLED, at, AtFault));
    steps, s1 := Passes(s0, steps, s1, CtlFault(t), Awake(CALLED, at, AtTick));
    steps, s1 := Passes(s0, steps, s1, CtlTick(0, 0, 0, t), Asleep);
  }

  /** A stage of such a wake that has nothing to do. */
  lemma Passes(s0: Sys, before: seq<Step>, s: Sys, step: Step, next: Wake) returns (steps: seq<Step>, s1: Sys)
    requires Possible(s0, before) && Exec(s0, before) == s
    requires s.link.wake.Awake? && s.link.wake.bits == CALLED && s.link.cmdBox.None?
    requires ControlStep(step) && Tuned(step.t)
    requires var stage := s.link.wake.stage;
             && next == (match stage
                         case AtCommands => Awake(CALLED, s.link.wake.at, AtVelocity)
                         case AtVelocity => Awake(CALLED, s.link.wake.at, AtFault)
                         case AtFault => Awake(CALLED, s.link.wake.at, AtTick)
                         case AtTick => Asleep)
             && (match stage
                 case AtCommands => step.CtlCommand?
                 case AtVelocity => step.CtlVelocity?
                 case AtFault => step.CtlFault?
                 case AtTick => step.CtlTick?)
    ensures Possible(s0, steps) && Exec(s0, steps) == s1 && s1 == s.(link := s.link.(wake := next))
  {
    steps, s1 := Then(s0, before, s, step);
  }

  lemma Serves(s0: Sys, before: seq<Step>, s: Sys, m: Moment) returns (steps: seq<Step>, s1: Sys)
    requires Possible(s0, before) && Exec(s0, before) == s
    requires s.posted != [] && s.link.cmdBox == Some(m.event) && m.event.Cmd?
    requires s.link.wake.Asleep? && s.link.bits == CALLED && Timely(s.link.track, m)
    ensures Possible(s0, steps) && Exec(s0, steps) == s1 && s1 == Served(s, m, Asleep)
  {
    steps, s1 := Applies(s0, before, s, m);
    steps, s1 := Finishes(s0, steps, s1, m.tuning);
  }

  lemma Judges(s0: Sys, before: seq<Step>, s: Sys) returns (steps: seq<Step>, s1: Sys)
    requires Possible(s0, before) && Exec(s0, before) == s
    requires s.io.Waiting? && s.link.wake.Asleep? && s.link.resultBox.Some? && RxOk(s.rx) && s.rx.unsynced == 0
    requires s.link.resultBox.value.seq_ == s.cmdSeq && s.link.resultBox.value.kind.Applied?
    ensures Possible(s0, steps) && Exec(s0, steps) == s1
    ensures var r := s.link.resultBox.value;
            s1 == Answer(s.(link := s.link.(resultBox := None)), Ok(r.appliedMs, r.left, r.right), s.io.b)
  {
    PendingIsUnsynced(s.rx);
    steps, s1 := Then(s0, before, s, IoReceive(false));
    steps, s1 := Then(s0, steps, s1, IoJudge);
  }

  lemma Posts(s: Sys, line: G.Line) returns (steps: seq<Step>, s1: Sys)
    requires Completes(s, line) && !line.Spd?
    ensures Possible(s, steps) && Exec(s, steps) == s1
    ensures var d, cmd := Decided(s, line), CommandOf(line, Next(s.cmdSeq), s.now);
            s1 == d.(io := Waiting(d.rx.taken), cmdSeq := cmd.seq_,
                     posted := s.posted + [Post(cmd, s.now, line, s.rx.from, d.rx.taken)],
                     link := s.link.(cmdBox := Some(Cmd(cmd, s.now)), bits := s.link.bits.(cmd := true)))
  {
    steps, s1 := Decides(s, line);
    steps, s1 := Then(s, steps, s1, IoPost);
  }

  /** A command of this path met in time is taken over, and its result says so. */
  lemma InTime(tr: Track, line: G.Line, seq_: u32, acceptedAt: int, at: int, t: Tuning)
    requires tr.core.safety.faults == {} && tr.core.safety.timeout == CMD_WATCHDOG_MS && Tuned(t)
    requires 0 <= at - tr.at < TWO32 - CMD_WATCHDOG_MS && acceptedAt <= at < acceptedAt + CMD_WATCHDOG_MS
    ensures var cmd := CommandOf(line, seq_, acceptedAt);
            && Timely(tr, Moment(at, Cmd(cmd, acceptedAt), t)) && Accepts(tr.core, Wrap(at), cmd)
            && var r := OnCommand(tr.core, Wrap(at), cmd, t).1;
               r == Result(seq_, Applied, Wrap(at), Clamped(cmd).0, Clamped(cmd).1)
  {
    WrapAdd(acceptedAt, CMD_WATCHDOG_MS);
    SignedDistance(at, acceptedAt + CMD_WATCHDOG_MS);
    AppliedIffInTime(tr.core, at, CommandOf(line, seq_, acceptedAt), acceptedAt, t);
  }

  /** A clean command line is executed: with the control task awake for it within the watchdog time and no
      fault, it is posted under the next sequence number, taken over by the core, and answered ok for that
      very line with the clamped values it set. */
  lemma CommandIsExecuted(s: Sys, line: G.Line, at: int, t: Tuning) returns (steps: seq<Step>)
    requires Completes(s, line) && !line.Spd? && Punctual(s, at, t)
    ensures Possible(s, steps)
    ensures var e, cmd := Exec(s, steps), CommandOf(line, Next(s.cmdSeq), s.now);
            && e.posted == s.posted + [Post(cmd, s.now, line, s.rx.from, Take(s.rx).0.taken)]
            && e.link.track == Advance(s.link.track, Moment(at, Cmd(cmd, s.now), t))
            && e.replies == s.replies + [Ok(Wrap(at), Meant(line).0, Meant(line).1)]
            && e.answers == s.answers + [Take(s.rx).0.taken]
            && Accepts(s.link.track.core, Wrap(at), cmd)
  {
    var cmd := CommandOf(line, Next(s.cmdSeq), s.now);
    CommandMeans(line, Next(s.cmdSeq), s.now);
    InTime(s.link.track, line, Next(s.cmdSeq), s.now, at, t);
    TakeOk(s.rx);
    var s1: Sys;
    steps, s1 := Posts(s, line);
    steps, s1 := Serves(s, steps, s1, Moment(at, Cmd(cmd, s.now), t));
    steps, s1 := Judges(s, steps, s1);
  }

  // ---------------------------------------------------------------- a whole wake

  /** What the two mailboxes hold for a wake called with these bits. */
  function Legacy(l: Link, bits: Bits): seq<Event> {
    if bits.cmd && l.cmdBox.Some? then [l.cmdBox.value] else []
  }

  function Delivered(l: Link, bits: Bits): seq<Event> {
    if bits.vel && l.velBox.Some? then [V.EventOf(l.velBox.value)] else []
  }

  lemma CommandsServed(s0: Sys, before: seq<Step>, s: Sys, t: Tuning) returns (steps: seq<Step>, s1: Sys)
    requires Possible(s0, before) && Exec(s0, before) == s && Tuned(t)
    requires var l := s.link;
             && l.wake.Awake? && l.wake.stage == AtCommands
             && (l.wake.bits.cmd && l.cmdBox.Some? ==>
                   l.cmdBox.value.Cmd? && s.posted != [] && Timely(l.track, Moment(l.wake.at, l.cmdBox.value, t)))
    ensures Possible(s0, steps) && Exec(s0, steps) == s1
    ensures var l, l1 := s.link, s1.link;
            && l1.wake == l.wake.(stage := AtVelocity)
            && (l1.velBox, l1.pending, l1.bits) == (l.velBox, l.pending, l.bits)
            && l1.track == Handle(l.track, Legacy(l, l.wake.bits), l.wake.at, t)
  {
    steps, s1 := Then(s0, before, s, CtlCommand(t));
    if s.link.wake.bits.cmd && s.link.cmdBox.Some? {
      HandleOne(s.link.track, s.link.cmdBox.value, s.link.wake.at, t);
      steps, s1 := Then(s0, steps, s1, CtlCommand(t));
    }
  }

  lemma VelocityServed(s0: Sys, before: seq<Step>, s: Sys, t: Tuning) returns (steps: seq<Step>, s1: Sys)
    requires Possible(s0, before) && Exec(s0, before) == s && Tuned(t)
    requires var l := s.link;
             && l.wake.Awake? && l.wake.stage == AtVelocity
             && (l.wake.bits.vel && l.velBox.Some? ==> Timely(l.track, Moment(l.wake.at, V.EventOf(l.velBox.value), t)))
    ensures Possible(s0, steps) && Exec(s0, steps) == s1
    ensures var l, l1 := s.link, s1.link;
            && l1.wake == l.wake.(stage := AtFault) && (l1.pending, l1.bits) == (l.pending, l.bits)
            && l1.track == Handle(l.track, Delivered(l, l.wake.bits), l.wake.at, t)
  {
    steps, s1 := Then(s0, before, s, CtlVelocity(t));
    if s.link.wake.bits.vel && s.link.velBox.Some? {
      HandleOne(s.link.track, V.EventOf(s.link.velBox.value), s.link.wake.at, t);
      steps, s1 := Then(s0, steps, s1, CtlVelocity(t));
    }
  }

  lemma FaultServed(s0: Sys, before: seq<Step>, s: Sys, t: Tuning) returns (steps: seq<Step>, s1: Sys)
    requires Possible(s0, before) && Exec(s0, before) == s && Tuned(t)
    requires s.link.wake.Awake? && s.link.wake.stage == AtFault
    ensures Possible(s0, steps) && Exec(s0, steps) == s1
    ensures var l, l1 := s.link, s1.link;
            && l1.wake == l.wake.(stage := AtTick) && l1.bits == l.bits
            && l1.pending == (if l.wake.bits.fault then {} else l.pending)
            && l1.track == Handle(l.track, if l.wake.bits.fault then [Stop(l.pending)] else [], l.wake.at, t)
  {
    HandleOne(s.link.track, Stop(s.link.pending), s.link.wake.at, t);
    steps, s1 := Then(s0, before, s, CtlFault(t));
  }

  lemma TickServed(s0: Sys, before: seq<Step>, s: Sys, tick: u32, rl: u16, rr: u16, t: Tuning)
    returns (steps: seq<Step>, s1: Sys)
    requires Possible(s0, before) && Exec(s0, before) == s && Tuned(t)
    requires s.link.wake.Awake? && s.link.wake.stage == AtTick
    ensures Possible(s0, steps) && Exec(s0, steps) == s1
    ensures var l, l1 := s.link, s1.link;
            && l1.wake.Asleep? && (l1.bits, l1.pending) == (l.bits, l.pending)
            && l1.track == Handle(l.track, if l.wake.bits.tick then [Tick(tick, rl, rr)] else [], l.wake.at, t)
  {
    HandleOne(s.link.track, Tick(tick, rl, rr), s.link.wake.at, t);
    steps, s1 := Then(s0, before, s, CtlTick(tick, rl, rr, t));
  }

  /** A second letter is as timely at the moment the first has been handled. */
  lemma StillTimely(tr: Track, es: seq<Event>, at: int, t: Tuning, e: Event)
    requires |es| <= 1 && Tuned(t) && 0 <= at - tr.at < TWO32 - CMD_WATCHDOG_MS && Timely(tr, Moment(at, e, t))
    ensures Timely(Handle(tr, es, at, t), Moment(at, e, t))
  {
    if es != [] {
      assert es == [es[0]];
      HandleOne(tr, es[0], at, t);
    }
  }

  /** The stages of a wake, one after the other. */
  lemma Stages(s0: Sys, before: seq<Step>, s: Sys, t: Tuning, tick: u32, rl: u16, rr: u16)
    returns (steps: seq<Step>, s1: Sys)
    requires Possible(s0, before) && Exec(s0, before) == s && Tuned(t)
    requires s.link.wake.Awake? && s.link.wake.stage == AtCommands
    requires var l, at, b := s.link, s.link.wake.at, s.link.wake.bits;
             && 0 <= at - l.track.at < TWO32 - CMD_WATCHDOG_MS
             && (forall e :: e in Legacy(l, b) ==> e.Cmd? && s.posted != [] && Timely(l.track, Moment(at, e, t)))
             && (forall e :: e in Delivered(l, b) ==> Timely(l.track, Moment(at, e, t)))
    ensures Possible(s0, steps) && Exec(s0, steps) == s1
    ensures var l, l1, at, b := s.link, s1.link, s.link.wake.at, s.link.wake.bits;
            && l1.wake.Asleep? && l1.bits == l.bits && l1.pending == (if b.fault then {} else l.pending)
            && l1.track == Handle(Handle(Handle(Handle(l.track, Legacy(l, b), at, t), Delivered(l, b), at, t),
                                         if b.fault then [Stop(l.pending)] else [], at, t),
                                  if b.tick then [Tick(tick, rl, rr)] else [], at, t)
  {
    var l, at, b := s.link, s.link.wake.at, s.link.wake.bits;
    if b.vel && l.velBox.Some? {
      assert V.EventOf(l.velBox.value) in Delivered(l, b);
      StillTimely(l.track, Legacy(l, b), at, t, V.EventOf(l.velBox.value));
    }
    steps, s1 := CommandsServed(s0, before, s, t);
    steps, s1 := VelocityServed(s0, steps, s1, t);
    steps, s1 := LateStages(s0, steps, s1, t, tick, rl, rr);
  }

  lemma LateStages(s0: Sys, before: seq<Step>, s: Sys, t: Tuning, tick: u32, rl: u16, rr: u16)
    returns (steps: seq<Step>, s1: Sys)
    requires Possible(s0, before) && Exec(s0, before) == s && Tuned(t)
    requires s.link.wake.Awake? && s.link.wake.stage == AtFault
    ensures Possible(s0, steps) && Exec(s0, steps) == s1
    ensures var l, l1, at, b := s.link, s1.link, s.link.wake.at, s.link.wake.bits;
            && l1.wake.Asleep? && l1.bits == l.bits && l1.pending == (if b.fault then {} else l.pending)
            && l1.track == Handle(Handle(l.track, if b.fault then [Stop(l.pending)] else [], at, t),
                                  if b.tick then [Tick(tick, rl, rr)] else [], at, t)
  {
    steps, s1 := FaultServed(s0, before, s, t);
    steps, s1 := TickServed(s0, steps, s1, tick, rl, rr, t);
  }

  /** What a wake called for the bits b handles. */
  function Calls(l: Link, b: Bits, tick: u32, rl: u16, rr: u16): Wakeup {
    Wakeup(Legacy(l, b) + Delivered(l, b), if b.fault then Some(l.pending) else None,
           if b.tick then Some(Tick(tick, rl, rr)) else None)
  }

  /** A wake of the control task that nothing interrupts handles exactly what it was called for: the letter in
      each mailbox whose bit is set, then the fault call with all flags pending, then the tick; and sleeps. */
  lemma WakeIsHandled(s: Sys, at: int, t: Tuning, tick: u32, rl: u16, rr: u16) returns (steps: seq<Step>)
    requires s.link.wake.Asleep? && s.link.bits != NO_BITS && Tuned(t)
    requires 0 <= at - s.link.track.at < TWO32 - CMD_WATCHDOG_MS
    requires forall e :: e in Legacy(s.link, s.link.bits) ==>
               e.Cmd? && s.posted != [] && Timely(s.link.track, Moment(at, e, t))
    requires forall e :: e in Delivered(s.link, s.link.bits) ==> Timely(s.link.track, Moment(at, e, t))
    ensures Possible(s, steps)
    ensures var l, l1 := s.link, Exec(s, steps).link;
            && l1.wake.Asleep? && l1.bits == NO_BITS && l1.pending == (if l.bits.fault then {} else l.pending)
            && l1.track == Handle(l.track, Order(Calls(l, l.bits, tick, rl, rr)), at, t)
  {
    var l, b := s.link, s.link.bits;
    FourStages(l.track, Legacy(l, b), Delivered(l, b), if b.fault then [Stop(l.pending)] else [],
             if b.tick then [Tick(tick, rl, rr)] else [], at, t);
    var s1 := s.(link := l.(wake := Awake(b, at, AtCommands), bits := NO_BITS));
    assert Apply(s, CtlWake(at)) == s1;
    assert Legacy(s1.link, b) == Legacy(l, b) && Delivered(s1.link, b) == Delivered(l, b);
    steps, s1 := Then(s, [], s, CtlWake(at));
    steps, s1 := Stages(s, steps, s1, t, tick, rl, rr);
  }

  /** So a velocity the agent delivers is in the core after the next wake, if no fault is called then. */
  lemma VelocityIsExecuted(s: Sys, d: V.Delivery, at: int, t: Tuning) returns (steps: seq<Step>)
    requires s.link.wake.Asleep? && s.link.bits == NO_BITS && V.Accepted(d) && Tuned(t)
    requires 0 <= at - s.link.track.at < TWO32 - CMD_WATCHDOG_MS
    requires Timely(s.link.track, Moment(at, V.EventOf(d), t))
    ensures Possible(s, steps)
    ensures Exec(s, steps).link.track == Advance(s.link.track, Moment(at, V.EventOf(d), t))
  {
    var s1 := s.(link := s.link.(velBox := Some(d), bits := NO_BITS.(vel := true)));
    assert Apply(s, VelPost(d)) == s1;
    var rest := WakeIsHandled(s1, at, t, 0, 0, 0);
    HandleOne(s.link.track, V.EventOf(d), at, t);
    assert Order(Calls(s1.link, s1.link.bits, 0, 0, 0)) == [V.EventOf(d)];
    steps := [VelPost(d)] + rest;
    assert steps[1..] == rest;
  }

  /** Exactly when a motion command is answered ok: a result came in time, it is that of the command waited
      for, that one was applied, and no receive fault is unsynchronised. */
  lemma OkExactly(at: int, rawLeft: u16, rawRight: u16, steps: seq<Step>, step: Step)
    requires Possible(PowerUp(at, rawLeft, rawRight), steps)
    requires Enabled(Exec(PowerUp(at, rawLeft, rawRight), steps), step) && step.IoJudge?
    ensures var s := Exec(PowerUp(at, rawLeft, rawRight), steps);
            && |Apply(s, step).replies| == |s.replies| + 1
            && (Apply(s, step).replies[|s.replies|].Ok? <==>
                  && s.io.received && s.posted != [] && s.io.result.seq_ == s.posted[|s.posted| - 1].cmd.seq_
                  && s.io.result.kind.Applied? && s.rx.unsynced == 0)
  {
    BootInv(at, rawLeft, rawRight);
    RunInv(PowerUp(at, rawLeft, rawRight), steps);
    PendingIsUnsynced(Exec(PowerUp(at, rawLeft, rawRight), steps).rx);
  }
}
