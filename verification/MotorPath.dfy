/** From the received byte to the motor and back to the acknowledgement: the receive interrupt, the
    IO task, the control task and the velocity traffic as one machine of atomic steps. Interrupts
    may come between any two steps; the control task preempts the IO task, never the reverse. */
module MotorPath {
  import opened Words
  import opened MotorSafety
  import opened ControlSpec
  import opened ControlRuns
  import G = AsciiGrammar
  import P = ProtocolAscii
  import V = CmdVel

  const RING_ROOM: nat := 63

  // ---------------------------------------------------------------- receiving

  /** A byte on the wire, and whether it reached the ring undamaged. */
  datatype Arrival = Arrival(c: char, intact: bool)

  /** The receive side. `history`, `taken`, `from` and `unsynced` only record what happened: all
      arrivals, how many the parser has seen or lost, where its current line began, and the faults
      the IO task has not reacted to. */
  datatype Rx = Rx(ring: string, epoch: u32, seen: u32, proto: P.Proto,
                   history: seq<Arrival>, taken: nat, from: nat, unsynced: nat)

  predicate FaultPending(rx: Rx) { rx.epoch != rx.seen }

  function Faulted(rx: Rx): Rx { rx.(epoch := Next(rx.epoch), unsynced := rx.unsynced + 1) }

  /** app_on_rx_byte, followed by app_on_uart_error when the byte came with an error. */
  function OnByte(rx: Rx, c: char, errored: bool): Rx {
    var full := |rx.ring| >= RING_ROOM;
    var rx1 := rx.(history := rx.history + [Arrival(c, !full && !errored)],
                   ring := if full then rx.ring else rx.ring + [c]);
    var rx2 := if full then Faulted(rx1) else rx1;
    if errored then Faulted(rx2) else rx2
  }

  /** app_on_uart_error for a byte the hardware lost. */
  function OnLost(rx: Rx): Rx { Faulted(rx.(history := rx.history + [Arrival('\0', false)])) }

  /** sync_rx_faults, when there is something to synchronise. */
  function Resync(rx: Rx): Rx {
    rx.(ring := "", seen := rx.epoch, proto := P.Poison(rx.proto), taken := |rx.history|, unsynced := 0)
  }

  function Take(rx: Rx): (Rx, P.Event)
    requires rx.ring != ""
  {
    var c := rx.ring[0];
    var (p, e) := P.Push(rx.proto, c);
    (rx.(ring := rx.ring[1..], proto := p, taken := rx.taken + 1,
         from := if P.IsLineEnd(c) then rx.taken + 1 else rx.from), e)
  }

  // ---------------------------------------------------------------- the control task's mailboxes

  datatype Bits = Bits(cmd: bool, vel: bool, fault: bool, tick: bool)

  const NO_BITS: Bits := Bits(false, false, false, false)

  /** Where the control task stands within a wake. */
  datatype Stage = AtCommands | AtVelocity | AtFault | AtTick

  datatype Wake = Asleep | Awake(bits: Bits, at: int, stage: Stage)

  /** One command applied: which post it was, the core it met, and the result it gave. */
  datatype Application = Application(index: nat, before: Core, at: int, tuning: Tuning, result: Result)

  /** `source` records the delivery of the command applied last, if that came from the agent; `applied`
      and `raised` record what happened too. */
  datatype Link = Link(track: Track, wake: Wake, bits: Bits, pending: set<Fault>, raising: bool,
                       cmdBox: Option<Event>, velBox: Option<V.Delivery>, resultBox: Option<Result>,
                       source: Option<V.Delivery>, applied: seq<Application>, raised: set<Fault>)

  // ---------------------------------------------------------------- the IO task

  /** A command in flight also remembers which arrivals its line was, or at least where that ended. */
  datatype Io =
    | Ready
    | Synced
    | Deciding(line: G.Line, a: nat, b: nat)
    | Failing(b: nat)
    | Posting(line: G.Line, a: nat, b: nat)
    | Waiting(b: nat)
    | Judging(received: bool, result: Result, k: nat, b: nat)

  datatype Post = Post(cmd: Command, acceptedAt: int, line: G.Line, a: nat, b: nat)

  datatype Setting = Setting(on: int, a: nat, b: nat)

  datatype Reply = Ok(ms: u32, left: int, right: int) | Err

  datatype Ack = AckOk | AckTimeout | AckSeq | AckRejected | AckRxFault

  /** control_ack_decide */
  function Decide(received: bool, awaited: u32, result: Result, rxFault: bool): Ack {
    if !received then AckTimeout
    else if result.seq_ != awaited then AckSeq
    else if result.kind != Applied then AckRejected
    else if rxFault then AckRxFault
    else AckOk
  }

  /** `ends` records where in the arrivals each line ended, and `answers` for which of these ends each
      reply was given. */
  datatype Sys = Sys(rx: Rx, io: Io, now: int, cmdSeq: u32, spdOn: bool, link: Link,
                     posted: seq<Post>, settings: seq<Setting>, ends: seq<nat>, replies: seq<Reply>,
                     answers: seq<nat>)

  /** A reply for the line that ended at b; the IO task is free again. */
  function Answer(s: Sys, reply: Reply, b: nat): Sys {
    s.(io := Ready, replies := s.replies + [reply], answers := s.answers + [b])
  }

  const NO_RESULT: Result := Result(0, Rejected, 0, 0, 0)

  function PowerUp(at: int, rawLeft: u16, rawRight: u16): Sys {
    Sys(Rx("", 0, 0, P.FRESH, [], 0, 0, 0), Ready, at, 0, false,
        Link(Start(at, rawLeft, rawRight), Asleep, NO_BITS, {}, false, None, None, None, None, [], {}),
        [], [], [], [], [])
  }

  /** The command an accepted line becomes; a speed-telemetry line never becomes one. */
  function CommandOf(line: G.Line, seq_: u32, acceptedAt: int): Command {
    var now := Wrap(acceptedAt);
    match line
    case Duty(l, r) => Command(seq_, CmdDuty, l, r, now, Wrap(now + CMD_WATCHDOG_MS))
    case Vel(l, r) => Command(seq_, CmdVel, l, r, now, Wrap(now + CMD_WATCHDOG_MS))
    case Spd(on) => Command(seq_, CmdStop, on, on, now, Wrap(now + CMD_WATCHDOG_MS))
    case Halt => Command(seq_, CmdStop, 0, 0, now, Wrap(now + CMD_WATCHDOG_MS))
  }

  /** What a command line stands for: the values an ok to it reports. */
  function Meant(line: G.Line): (int, int) {
    match line
    case Duty(l, r) => (Limited(l, 1000), Limited(r, 1000))
    case Vel(l, r) => (Limited(l, 6000), Limited(r, 6000))
    case Spd(on) => (on, on)
    case Halt => (0, 0)
  }

  function Limited(v: int, limit: int): int { if v < -limit then -limit else if v > limit then limit else v }

  /** A command line becomes the command of its kind, with its own values in their order and the watchdog time
      for its deadline. */
  lemma CommandMeans(line: G.Line, seq_: u32, acceptedAt: int)
    requires !line.Spd?
    ensures var cmd := CommandOf(line, seq_, acceptedAt);
            && Clamped(cmd) == Meant(line) && cmd.seq_ == seq_
            && (cmd.kind.CmdDuty? <==> line.Duty?) && (cmd.kind.CmdVel? <==> line.Vel?)
            && (line.Duty? ==> (cmd.left, cmd.right) == (line.left, line.right))
            && (line.Vel? ==> (cmd.left, cmd.right) == (line.left, line.right))
            && cmd.accepted == Wrap(acceptedAt) && cmd.deadline == Wrap(acceptedAt + CMD_WATCHDOG_MS)
  {
    WrapAdd(acceptedAt, CMD_WATCHDOG_MS);
  }

  // ---------------------------------------------------------------- steps

  datatype Step =
    | ByteIn(c: char, errored: bool) | ByteLost | TickIsr
    | IoClock(now: int) | IoSync | IoTake | IoCheck | IoFail | IoSpd | IoPost
    | IoReceive(last: bool) | IoTimeout | IoJudge
    | RaiseLatch(f: Fault) | RaiseNotify | CallStop
    | VelPost(d: V.Delivery)
    | CtlWake(at: int) | CtlCommand(t: Tuning) | CtlVelocity(t: Tuning) | CtlFault(t: Tuning)
    | CtlTick(tick: u32, rawLeft: u16, rawRight: u16, t: Tuning)

  predicate InCommand(io: Io) { !io.Ready? && !io.Synced? }

  /** What control step i of a wake does to the core. */
  function Done(l: Link, m: Moment, next: Stage): Link
    requires m.tuning.left.dutyMax >= 0 && m.tuning.right.dutyMax >= 0 && l.wake.Awake?
  {
    l.(track := Advance(l.track, m), wake := l.wake.(stage := next))
  }

  ghost predicate Enabled(s: Sys, step: Step) {
    var l := s.link;
    match step
    case ByteIn(_, _) => s.rx.unsynced + 2 < TWO32
    case ByteLost => s.rx.unsynced + 2 < TWO32
    case TickIsr => true
    case IoClock(now) => l.wake.Asleep? && s.io.Ready?
    case IoSync => l.wake.Asleep? && s.io.Ready?
    case IoTake => l.wake.Asleep? && s.io.Synced?
    case IoCheck => l.wake.Asleep? && s.io.Deciding?
    case IoFail => l.wake.Asleep? && s.io.Failing?
    case IoSpd => l.wake.Asleep? && s.io.Posting? && s.io.line.Spd?
    case IoPost => l.wake.Asleep? && s.io.Posting? && !s.io.line.Spd?
    case IoReceive(_) => l.wake.Asleep? && s.io.Waiting? && l.resultBox.Some?
    case IoTimeout => l.wake.Asleep? && s.io.Waiting? && l.resultBox.None?
    case IoJudge => l.wake.Asleep? && s.io.Judging?
    case RaiseLatch(_) => l.wake.Asleep? && !l.raising
    case RaiseNotify => l.wake.Asleep? && l.raising
    case CallStop => l.wake.Asleep?
    case VelPost(d) => l.wake.Asleep? && V.Accepted(d)
    case CtlWake(at) => l.wake.Asleep? && l.bits != NO_BITS && 0 <= at - l.track.at < TWO32 - CMD_WATCHDOG_MS
    case CtlCommand(t) => l.wake.Awake? && l.wake.stage == AtCommands && Tuned(t) &&
      (l.wake.bits.cmd && l.cmdBox.Some? ==> Timely(l.track, Moment(l.wake.at, l.cmdBox.value, t)))
    case CtlVelocity(t) => l.wake.Awake? && l.wake.stage == AtVelocity && Tuned(t) &&
      (l.wake.bits.vel && l.velBox.Some? ==> Timely(l.track, Moment(l.wake.at, V.EventOf(l.velBox.value), t)))
    case CtlFault(t) => l.wake.Awake? && l.wake.stage == AtFault && Tuned(t)
    case CtlTick(_, _, _, t) => l.wake.Awake? && l.wake.stage == AtTick && Tuned(t)
  }

  ghost function Apply(s: Sys, step: Step): Sys
    requires Enabled(s, step)
  {
    var l := s.link;
    match step
    case ByteIn(c, errored) =>
      var fault := errored || |s.rx.ring| >= RING_ROOM;
      s.(rx := OnByte(s.rx, c, errored), link := if fault then l.(bits := l.bits.(fault := true)) else l)
    case ByteLost => s.(rx := OnLost(s.rx), link := l.(bits := l.bits.(fault := true)))
    case TickIsr => s.(link := l.(bits := l.bits.(tick := true)))
    case IoClock(now) => s.(now := now)
    case IoSync =>
      if FaultPending(s.rx) then s.(rx := Resync(s.rx), link := l.(bits := l.bits.(fault := true)))
      else s.(io := Synced)
    case IoTake =>
      if s.rx.ring == "" then s.(io := Ready)
      else
        var (rx, e) := Take(s.rx);
        (match e
         case Nothing => s.(rx := rx, io := Ready)
         case Reject => Answer(s.(rx := rx, ends := s.ends + [rx.taken]), Err, rx.taken)
         case Command(line) => s.(rx := rx, io := Deciding(line, s.rx.from, rx.taken), ends := s.ends + [rx.taken]))
    case IoCheck =>
      if FaultPending(s.rx) then s.(io := Failing(s.io.b))
      else s.(io := Posting(s.io.line, s.io.a, s.io.b))
    case IoFail =>
      var s1 := Answer(s, Err, s.io.b);
      if FaultPending(s.rx) then s1.(rx := Resync(s.rx), link := l.(bits := l.bits.(fault := true))) else s1
    case IoSpd =>
      var on := s.io.line.on;
      Answer(s.(spdOn := on != 0, settings := s.settings + [Setting(on, s.io.a, s.io.b)]),
             Ok(Wrap(s.now), on, on), s.io.b)
    case IoPost =>
      var cmd := CommandOf(s.io.line, Next(s.cmdSeq), s.now);
      s.(io := Waiting(s.io.b), cmdSeq := cmd.seq_, posted := s.posted + [Post(cmd, s.now, s.io.line, s.io.a, s.io.b)],
         link := l.(cmdBox := Some(Cmd(cmd, s.now)), bits := l.bits.(cmd := true)))
    case IoReceive(last) =>
      var r := l.resultBox.value;
      var l1 := l.(resultBox := None);
      if r.seq_ == s.cmdSeq || last then s.(link := l1, io := Judging(true, r, |l.applied|, s.io.b))
      else s.(link := l1)
    case IoTimeout => s.(io := Judging(false, NO_RESULT, 0, s.io.b))
    case IoJudge =>
      var reply := if Decide(s.io.received, s.cmdSeq, s.io.result, FaultPending(s.rx)).AckOk?
                   then Ok(s.io.result.appliedMs, s.io.result.left, s.io.result.right) else Err;
      Answer(s, reply, s.io.b)
    case RaiseLatch(f) => s.(link := l.(pending := l.pending + {f}, raised := l.raised + {f}, raising := true))
    case RaiseNotify => s.(link := l.(bits := l.bits.(fault := true), raising := false))
    case CallStop => s.(link := l.(bits := l.bits.(fault := true)))
    case VelPost(d) => s.(link := l.(velBox := Some(d), bits := l.bits.(vel := true)))
    case CtlWake(at) => s.(link := l.(wake := Awake(l.bits, at, AtCommands), bits := NO_BITS))
    case CtlCommand(t) => s.(link := CommandStage(l, t, |s.posted|))
    case CtlVelocity(t) => s.(link := VelocityStage(l, t))
    case CtlFault(t) => s.(link := FaultStage(l, t))
    case CtlTick(tick, rl, rr, t) => s.(link := TickStage(l, tick, rl, rr, t))
  }

  /** `while (xQueueReceive(s_cmd_queue, ...))`: one command, or on to the next stage. */
  function CommandStage(l: Link, t: Tuning, posts: nat): Link
    requires l.wake.Awake? && t.left.dutyMax >= 0 && t.right.dutyMax >= 0
  {
    if l.wake.bits.cmd && l.cmdBox.Some? && l.cmdBox.value.Cmd? && posts > 0 then
      var result := OnCommand(l.track.core, Wrap(l.wake.at), l.cmdBox.value.cmd, t).1;
      Done(l, Moment(l.wake.at, l.cmdBox.value, t), AtCommands)
        .(cmdBox := None, resultBox := Some(result),
          source := if Accepts(l.track.core, Wrap(l.wake.at), l.cmdBox.value.cmd) then None else l.source,
          applied := l.applied + [Application(posts - 1, l.track.core, l.wake.at, t, result)])
    else l.(wake := l.wake.(stage := AtVelocity))
  }

  function VelocityStage(l: Link, t: Tuning): Link
    requires l.wake.Awake? && t.left.dutyMax >= 0 && t.right.dutyMax >= 0
  {
    if l.wake.bits.vel && l.velBox.Some? then
      var e := V.EventOf(l.velBox.value);
      Done(l, Moment(l.wake.at, e, t), AtVelocity)
        .(velBox := None,
          source := if Accepts(l.track.core, Wrap(l.wake.at), e.cmd) then l.velBox else l.source)
    else l.(wake := l.wake.(stage := AtFault))
  }

  function FaultStage(l: Link, t: Tuning): Link
    requires l.wake.Awake? && t.left.dutyMax >= 0 && t.right.dutyMax >= 0
  {
    if l.wake.bits.fault then Done(l, Moment(l.wake.at, Stop(l.pending), t), AtTick).(pending := {})
    else l.(wake := l.wake.(stage := AtTick))
  }

  function TickStage(l: Link, tick: u32, rl: u16, rr: u16, t: Tuning): Link
    requires l.wake.Awake? && t.left.dutyMax >= 0 && t.right.dutyMax >= 0
  {
    if l.wake.bits.tick then Done(l, Moment(l.wake.at, Tick(tick, rl, rr), t), AtTick).(wake := Asleep)
    else l.(wake := Asleep)
  }

  // ---------------------------------------------------------------- runs

  ghost predicate Possible(s: Sys, steps: seq<Step>)
    decreases steps
  {
    steps == [] || (Enabled(s, steps[0]) && Possible(Apply(s, steps[0]), steps[1..]))
  }

  ghost function Exec(s: Sys, steps: seq<Step>): Sys
    requires Possible(s, steps)
    decreases steps
  {
    if steps == [] then s else Exec(Apply(s, steps[0]), steps[1..])
  }

  // ---------------------------------------------------------------- the byte side

  ghost predicate LineStart(h: seq<Arrival>, k: nat) {
    k == 0 || (k <= |h| && h[k - 1].intact && P.IsLineEnd(h[k - 1].c))
  }

  ghost predicate Clean(h: seq<Arrival>, a: nat, s: string) {
    && a + |s| <= |h|
    && forall i :: 0 <= i < |s| ==> h[a + i] == Arrival(s[i], true) && !P.IsLineEnd(s[i])
  }

  /** Arrivals a..b are one complete line: it begins at a line end or at the very start, ends with
      one, has none inside, every byte of it arrived undamaged, and it reads as `line`. */
  ghost predicate ExactLine(h: seq<Arrival>, a: nat, b: nat, line: G.Line) {
    && a < b <= |h| && LineStart(h, a) && LineStart(h, b)
    && exists s :: |s| == b - 1 - a && Clean(h, a, s) && P.Parse(s) == Some(line)
  }

  ghost predicate RxOk(rx: Rx) {
    && rx.unsynced < TWO32 && rx.epoch == Wrap(rx.seen + rx.unsynced)
    && rx.taken + |rx.ring| <= |rx.history|
    && (rx.proto.poisoned ==> rx.proto.line == "")
    && (rx.unsynced == 0 ==>
          && rx.taken + |rx.ring| == |rx.history|
          && (forall i :: 0 <= i < |rx.ring| ==> rx.history[rx.taken + i] == Arrival(rx.ring[i], true))
          && (!rx.proto.poisoned ==>
                rx.from + |rx.proto.line| == rx.taken && LineStart(rx.history, rx.from) &&
                Clean(rx.history, rx.from, rx.proto.line)))
  }

  /** No fault is pending exactly when none happened since the last synchronisation. */
  lemma PendingIsUnsynced(rx: Rx)
    requires RxOk(rx)
    ensures FaultPending(rx) <==> rx.unsynced > 0
  {
    WrapForward(rx.seen, rx.seen);
    if 0 < rx.unsynced {
      if rx.seen + rx.unsynced >= TWO32 {
        WrapShift(rx.seen + rx.unsynced, -1);
      }
    }
  }

  lemma FaultOk(rx: Rx)
    requires rx.unsynced + 1 < TWO32 && rx.epoch == Wrap(rx.seen + rx.unsynced)
    requires rx.taken + |rx.ring| <= |rx.history|
    requires rx.proto.poisoned ==> rx.proto.line == ""
    ensures RxOk(Faulted(rx))
  {
    WrapAdd(rx.seen + rx.unsynced, 1);
  }

  lemma ByteOk(rx: Rx, c: char, errored: bool)
    requires RxOk(rx) && rx.unsynced + 2 < TWO32
    ensures RxOk(OnByte(rx, c, errored)) && RxOk(OnLost(rx))
  {
    var full := |rx.ring| >= RING_ROOM;
    var rx1 := rx.(history := rx.history + [Arrival(c, !full && !errored)],
                   ring := if full then rx.ring else rx.ring + [c]);
    FaultOk(rx.(history := rx.history + [Arrival('\0', false)]));
    if full {
      FaultOk(rx1);
    }
    if errored {
      FaultOk(if full then Faulted(rx1) else rx1);
    }
  }

  lemma ResyncOk(rx: Rx)
    requires RxOk(rx)
    ensures RxOk(Resync(rx)) && Resync(rx).history == rx.history
  {
  }

  /** Popping a byte keeps the correspondence, and a command it completes is an exact line as long
      as no fault is unsynchronised. */
  lemma TakeOk(rx: Rx)
    requires RxOk(rx) && rx.ring != ""
    ensures RxOk(Take(rx).0) && Take(rx).0.history == rx.history && Take(rx).0.unsynced == rx.unsynced
    ensures Take(rx).1.Command? && rx.unsynced == 0 ==>
              ExactLine(rx.history, rx.from, Take(rx).0.taken, Take(rx).1.cmd)
  {
    var c := rx.ring[0];
    var (p, e) := P.Push(rx.proto, c);
    if rx.unsynced == 0 {
      assert rx.history[rx.taken] == Arrival(c, true);
      if P.IsLineEnd(c) {
        assert Clean(rx.history, rx.taken + 1, "");
        if e.Command? {
          assert Clean(rx.history, rx.from, rx.proto.line);
        }
      } else if !p.poisoned {
        assert p.line == rx.proto.line + [c];
      }
    }
  }

  /** Later arrivals do not change what an earlier line was. */
  lemma ExactLineStays(h: seq<Arrival>, h': seq<Arrival>, a: nat, b: nat, line: G.Line)
    requires ExactLine(h, a, b, line) && h <= h'
    ensures ExactLine(h', a, b, line)
  {
    var s :| |s| == b - 1 - a && Clean(h, a, s) && P.Parse(s) == Some(line);
    assert Clean(h', a, s);
  }

  ghost predicate BytesOk(s: Sys) {
    && RxOk(s.rx)
    && (s.io.Deciding? ==> s.rx.unsynced > 0 || ExactLine(s.rx.history, s.io.a, s.io.b, s.io.line))
    && (s.io.Posting? ==> ExactLine(s.rx.history, s.io.a, s.io.b, s.io.line))
    && (forall p :: p in s.posted ==> ExactLine(s.rx.history, p.a, p.b, p.line) && !p.line.Spd? &&
                                      p.cmd == CommandOf(p.line, p.cmd.seq_, p.acceptedAt))
    && (forall e :: e in s.settings ==> ExactLine(s.rx.history, e.a, e.b, G.Spd(e.on)))
  }

  /** What has been proved of lines already seen survives any growth of the history. */
  lemma BytesGrow(s: Sys, rx: Rx)
    requires BytesOk(s) && RxOk(rx) && s.rx.history <= rx.history && (s.rx.unsynced > 0 ==> rx.unsynced > 0)
    ensures BytesOk(s.(rx := rx))
  {
    var h, h' := s.rx.history, rx.history;
    if s.io.Deciding? && s.rx.unsynced == 0 {
      ExactLineStays(h, h', s.io.a, s.io.b, s.io.line);
    }
    if s.io.Posting? {
      ExactLineStays(h, h', s.io.a, s.io.b, s.io.line);
    }
    forall p | p in s.posted
      ensures ExactLine(h', p.a, p.b, p.line)
    {
      ExactLineStays(h, h', p.a, p.b, p.line);
    }
    forall e | e in s.settings
      ensures ExactLine(h', e.a, e.b, G.Spd(e.on))
    {
      ExactLineStays(h, h', e.a, e.b, G.Spd(e.on));
    }
  }

  /** Steps of the interrupt and of the IO task that touch lines. */
  predicate TouchesBytes(step: Step) {
    step.ByteIn? || step.ByteLost? || step.IoSync? || step.IoTake? || step.IoCheck? || step.IoFail? ||
    step.IoSpd? || step.IoPost?
  }

  lemma BytesKept(s: Sys, step: Step)
    requires Enabled(s, step) && !TouchesBytes(step)
    ensures var s1 := Apply(s, step);
            && s1.rx == s.rx && s1.posted == s.posted && s1.settings == s.settings
            && (s1.io == s.io || s1.io.Ready? || s1.io.Judging?)
  {
  }

  lemma IsrBytesStep(s: Sys, step: Step)
    requires BytesOk(s) && Enabled(s, step) && (step.ByteIn? || step.ByteLost?)
    ensures BytesOk(Apply(s, step)) && s.rx.history <= Apply(s, step).rx.history
  {
    if step.ByteIn? {
      ByteOk(s.rx, step.c, step.errored);
      BytesGrow(s, OnByte(s.rx, step.c, step.errored));
    } else {
      ByteOk(s.rx, '\0', false);
      BytesGrow(s, OnLost(s.rx));
    }
  }

  lemma IoBytesStep(s: Sys, step: Step)
    requires BytesOk(s) && Enabled(s, step) && TouchesBytes(step) && !step.ByteIn? && !step.ByteLost?
    ensures BytesOk(Apply(s, step)) && Apply(s, step).rx.history == s.rx.history
  {
    if step.IoSpd? || step.IoPost? {
      OutcomeBytesStep(s, step);
    } else if step.IoTake? {
      TakeBytesStep(s, step);
    } else if step.IoCheck? {
      PendingIsUnsynced(s.rx);
    } else {
      ResyncOk(s.rx);
    }
  }

  lemma TakeBytesStep(s: Sys, step: Step)
    requires BytesOk(s) && Enabled(s, step) && step.IoTake?
    ensures BytesOk(Apply(s, step)) && Apply(s, step).rx.history == s.rx.history
  {
    if s.rx.ring != "" {
      TakeOk(s.rx);
    }
  }

  lemma OutcomeBytesStep(s: Sys, step: Step)
    requires BytesOk(s) && Enabled(s, step) && (step.IoSpd? || step.IoPost?)
    ensures BytesOk(Apply(s, step)) && Apply(s, step).rx.history == s.rx.history
  {
  }

  lemma BytesStep(s: Sys, step: Step)
    requires BytesOk(s) && Enabled(s, step)
    ensures BytesOk(Apply(s, step)) && s.rx.history <= Apply(s, step).rx.history
  {
    if step.ByteIn? || step.ByteLost? {
      IsrBytesStep(s, step);
    } else if TouchesBytes(step) {
      IoBytesStep(s, step);
    } else {
      BytesKept(s, step);
    }
  }
}
