/** The control task as the object that owns the core and the mailboxes: what is posted to it, and what
    one wake does, in the order it does it. */
module ControlTask {
  import opened Words
  import opened MotorSafety
  import opened ControlSpec
  import opened ControlRuns
  import opened ControlCore
  import P = MotorPath

  type Bits = P.Bits

  /** What a mailbox gives the task, as events. */
  function Waiting(box: Option<Command>, at: int): seq<Event> {
    if box.Some? then [Cmd(box.value, at)] else []
  }

  /** What a wake with these notification bits handles. */
  function WakeOf(bits: Bits, cmdBox: Option<Command>, velBox: Option<Command>, pending: set<Fault>, tick: Event,
                  at: int): Wakeup {
    Wakeup((if bits.cmd then Waiting(cmdBox, at) else []) + (if bits.vel then Waiting(velBox, at) else []),
           if bits.fault then Some(pending) else None, if bits.tick then Some(tick) else None)
  }

  class Task {
    const core: Control
    var cmdBox: Option<Command>
    var velBox: Option<Command>
    var resultBox: Option<Result>
    var pending: set<Fault>
    var bits: Bits
    var out: Out

    ghost predicate Valid() { core.Valid() && this !in core.Repr }

    /** The core and the bridge stand where the track says. */
    ghost predicate On(tr: Track)
      reads this, core.Repr
    {
      tr.core == core.Value() && tr.out == out
    }

    constructor (now: u32, rawLeft: u16, rawRight: u16)
      ensures Valid() && fresh(core) && fresh(core.Repr) && core.Value() == Boot(now, rawLeft, rawRight)
      ensures bits == P.NO_BITS && pending == {} && cmdBox.None? && velBox.None? && resultBox.None?
    {
      core := new Control(now, rawLeft, rawRight);
      cmdBox, velBox, resultBox, pending, bits := None, None, None, {}, P.NO_BITS;
      out := Kill;
    }

    /** app_link_post_command: the mailbox keeps the newest. */
    method PostCommand(cmd: Command)
      modifies this`cmdBox, this`bits
      ensures cmdBox == Some(cmd) && bits == old(bits).(cmd := true)
    {
      cmdBox := Some(cmd);
      bits := bits.(cmd := true);
    }

    /** app_link_post_cmd_vel */
    method PostVelocity(cmd: Command)
      modifies this`velBox, this`bits
      ensures velBox == Some(cmd) && bits == old(bits).(vel := true)
    {
      velBox := Some(cmd);
      bits := bits.(vel := true);
    }

    /** app_link_urgent_stop: the flags first, then the call. */
    method CallStop(flags: set<Fault>)
      modifies this`pending, this`bits
      ensures pending == old(pending) + flags && bits == old(bits).(fault := true)
    {
      if flags != {} {
        pending := pending + flags;
      }
      bits := bits.(fault := true);
    }

    /** The legacy commands waiting, each with a result for the IO task. */
    method TakeCommands(ghost tr: Track, ghost at: int, now: u32, t: Tuning) returns (ghost tr1: Track)
      requires Valid() && On(tr) && now == Wrap(at) && Tuned(t)
      modifies this`cmdBox, this`resultBox, this`out, core.Repr
      ensures On(tr1) && tr1 == Handle(tr, Waiting(old(cmdBox), at), at, t) && cmdBox.None?
      ensures resultBox == if old(cmdBox).Some? then Some(OnCommand(tr.core, now, old(cmdBox).value, t).1)
                           else old(resultBox)
    {
      tr1 := tr;
      while cmdBox.Some?
        invariant On(tr1) && (cmdBox.Some? ==> cmdBox == old(cmdBox) && tr1 == tr && resultBox == old(resultBox))
        invariant cmdBox.None? ==> tr1 == Handle(tr, Waiting(old(cmdBox), at), at, t)
        invariant cmdBox.None? ==>
                    resultBox == if old(cmdBox).Some? then Some(OnCommand(tr.core, now, old(cmdBox).value, t).1)
                                 else old(resultBox)
        decreases cmdBox.Some?
      {
        var cmd := cmdBox.value;
        cmdBox := None;
        var result, o := core.Apply(now, cmd, t);
        out := o;
        resultBox := Some(result);
        tr1 := Advance(tr, Moment(at, Cmd(cmd, at), t));
        HandleOne(tr, Cmd(cmd, at), at, t);
      }
    }

    /** The velocity command waiting; its result goes nowhere. */
    method TakeVelocity(ghost tr: Track, ghost at: int, now: u32, t: Tuning) returns (ghost tr1: Track)
      requires Valid() && On(tr) && now == Wrap(at) && Tuned(t)
      modifies this`velBox, this`out, core.Repr
      ensures On(tr1) && tr1 == Handle(tr, Waiting(old(velBox), at), at, t) && velBox.None?
    {
      tr1 := tr;
      while velBox.Some?
        invariant On(tr1) && (velBox.Some? ==> velBox == old(velBox) && tr1 == tr)
        invariant velBox.None? ==> tr1 == Handle(tr, Waiting(old(velBox), at), at, t)
        decreases velBox.Some?
      {
        var cmd := velBox.value;
        velBox := None;
        var _, o := core.Apply(now, cmd, t);
        out := o;
        tr1 := Advance(tr, Moment(at, Cmd(cmd, at), t));
        HandleOne(tr, Cmd(cmd, at), at, t);
      }
    }

    /** The fault call, with the flags collected up to now. */
    method TakeFaults(ghost tr: Track, ghost at: int, now: u32, t: Tuning) returns (ghost tr1: Track)
      requires Valid() && On(tr) && now == Wrap(at) && Tuned(t)
      modifies this`pending, this`out, core.Repr
      ensures On(tr1) && tr1 == Handle(tr, [Stop(old(pending))], at, t) && pending == {}
    {
      var flags := pending;
      pending := {};
      out := core.UrgentStop(now, flags);
      tr1 := Advance(tr, Moment(at, Stop(flags), t));
      HandleOne(tr, Stop(flags), at, t);
    }

    method TakeTick(ghost tr: Track, ghost at: int, now: u32, tick: u32, rawLeft: u16, rawRight: u16, t: Tuning)
      returns (ghost tr1: Track)
      requires Valid() && On(tr) && now == Wrap(at) && Tuned(t)
      modifies this`out, core.Repr
      ensures On(tr1) && tr1 == Handle(tr, [Event.Tick(tick, rawLeft, rawRight)], at, t)
    {
      out := core.Tick(now, tick, rawLeft, rawRight, t);
      tr1 := Advance(tr, Moment(at, Event.Tick(tick, rawLeft, rawRight), t));
      HandleOne(tr, Event.Tick(tick, rawLeft, rawRight), at, t);
    }

    /** The mailboxes the bits b name, in their order. */
    method ServeMailboxes(b: Bits, ghost tr: Track, ghost at: int, now: u32, t: Tuning) returns (ghost tr1: Track)
      requires Valid() && On(tr) && now == Wrap(at) && Tuned(t)
      modifies this`cmdBox, this`velBox, this`resultBox, this`out, core.Repr
      ensures On(tr1)
      ensures tr1 == Handle(Handle(tr, if b.cmd then Waiting(old(cmdBox), at) else [], at, t),
                            if b.vel then Waiting(old(velBox), at) else [], at, t)
      ensures resultBox == if b.cmd && old(cmdBox).Some? then Some(OnCommand(tr.core, now, old(cmdBox).value, t).1)
                           else old(resultBox)
    {
      tr1 := tr;
      if b.cmd {
        tr1 := TakeCommands(tr1, at, now, t);
      }
      if b.vel {
        tr1 := TakeVelocity(tr1, at, now, t);
      }
    }

    /** The fault call and the tick, if the bits b name them. */
    method ServeCalls(b: Bits, ghost tr: Track, ghost at: int, now: u32, tick: u32, rawLeft: u16, rawRight: u16,
                      t: Tuning) returns (ghost tr1: Track)
      requires Valid() && On(tr) && now == Wrap(at) && Tuned(t)
      modifies this`pending, this`out, core.Repr
      ensures On(tr1) && pending == if b.fault then {} else old(pending)
      ensures tr1 == Handle(Handle(tr, if b.fault then [Stop(old(pending))] else [], at, t),
                            if b.tick then [Event.Tick(tick, rawLeft, rawRight)] else [], at, t)
    {
      tr1 := tr;
      if b.fault {
        tr1 := TakeFaults(tr1, at, now, t);
      }
      if b.tick {
        tr1 := TakeTick(tr1, at, now, tick, rawLeft, rawRight, t);
      }
    }

    /** The body of a wake that found the notification bits b. */
    method Serve(b: Bits, ghost tr: Track, ghost at: int, now: u32, tick: u32, rawLeft: u16, rawRight: u16, t: Tuning)
      requires Valid() && On(tr) && now == Wrap(at) && Tuned(t)
      modifies this`cmdBox, this`velBox, this`resultBox, this`pending, this`out, core.Repr
      ensures var w := WakeOf(b, old(cmdBox), old(velBox), old(pending), Event.Tick(tick, rawLeft, rawRight), at);
              On(Handle(tr, Order(w), at, t))
      ensures pending == if b.fault then {} else old(pending)
      ensures resultBox == if b.cmd && old(cmdBox).Some? then Some(OnCommand(tr.core, now, old(cmdBox).value, t).1)
                           else old(resultBox)
    {
      FourStages(tr, if b.cmd then Waiting(cmdBox, at) else [], if b.vel then Waiting(velBox, at) else [],
                 if b.fault then [Stop(pending)] else [],
                 if b.tick then [Event.Tick(tick, rawLeft, rawRight)] else [], at, t);
      ghost var tr1 := ServeMailboxes(b, tr, at, now, t);
      tr1 := ServeCalls(b, tr1, at, now, tick, rawLeft, rawRight, t);
    }

    /** One wake of control_task: commands, velocity, faults, tick. The bridge ends where handling those
        events in that order leads, so a wake called for a fault ends undriven with every flag posted
        so far latched. */
    method Wake(ghost tr: Track, ghost at: int, now: u32, tick: u32, rawLeft: u16, rawRight: u16, t: Tuning)
      requires Valid() && On(tr) && now == Wrap(at) && Tuned(t)
      modifies this, core.Repr
      ensures var k := Event.Tick(tick, rawLeft, rawRight);
              var w := WakeOf(old(bits), old(cmdBox), old(velBox), old(pending), k, at);
              On(Handle(tr, Order(w), at, t))
      ensures bits == P.NO_BITS && pending == if old(bits).fault then {} else old(pending)
      ensures resultBox ==
              if old(bits).cmd && old(cmdBox).Some? then Some(OnCommand(tr.core, now, old(cmdBox).value, t).1)
              else old(resultBox)
      ensures old(bits).fault ==> !Driving(out) && !Moving(core.Value()) && old(pending) <= core.Value().safety.faults
    {
      ghost var w := WakeOf(bits, cmdBox, velBox, pending, Event.Tick(tick, rawLeft, rawRight), at);
      var b := bits;
      bits := P.NO_BITS;
      if b.fault {
        FaultWakeSilences(tr, w, at, t);
      }
      Serve(b, tr, at, now, tick, rawLeft, rawRight, t);
    }
  }
}
