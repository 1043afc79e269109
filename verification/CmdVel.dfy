/** The velocity commands from the agent: the age check on their creation stamp, and what it means
    for the motors once the command is in the control core. */
module CmdVel {
  import opened Words
  import opened MotorSafety
  import opened MotorOutput
  import opened ControlSpec
  import opened ControlRuns
  import S = SpeedControl

  const NS_PER_MS: int := 1_000_000
  const CMD_VEL_MAX_AGE_MS: int := CMD_WATCHDOG_MS
  const CMD_VEL_SEQ_BASE: int := 0x8000_0000

  datatype Verdict = StampOk | NoSync | ZeroStamp | Stale | Future

  /** agent_link_check_stamp: the verdict, and the age in whole milliseconds (0 if negative). */
  function CheckStamp(synced: bool, stamp: int, now: int, maxAgeMs: nat): (Verdict, u32) {
    var maxAge := maxAgeMs * NS_PER_MS;
    var age := now - stamp;
    if !synced then (NoSync, 0)
    else if stamp <= 0 then (ZeroStamp, 0)
    else if age < 0 then (if -age <= maxAge then StampOk else Future, 0)
    else
      var ms := age / NS_PER_MS;
      (if age > maxAge then Stale else StampOk, if ms > TWO32 - 1 then TWO32 - 1 else ms)
  }

  /** A stamp is accepted exactly when the clocks agree, it is set, and its distance from now, past
      or future, is within the limit. The age never exceeds the true one and is short by less than
      a millisecond. */
  lemma CheckStampExact(synced: bool, stamp: int, now: int, maxAgeMs: nat)
    ensures var (verdict, age) := CheckStamp(synced, stamp, now, maxAgeMs);
            && (verdict == StampOk <==>
                  synced && stamp > 0 && -(maxAgeMs * NS_PER_MS) <= now - stamp <= maxAgeMs * NS_PER_MS)
            && (verdict == StampOk && maxAgeMs < TWO32 && stamp <= now ==>
                  age * NS_PER_MS <= now - stamp < (age + 1) * NS_PER_MS)
            && (stamp >= now ==> age == 0)
            && (verdict == StampOk && maxAgeMs < TWO32 ==> age <= maxAgeMs)
  {
    var age := now - stamp;
    if 0 <= age <= maxAgeMs * NS_PER_MS {
      assert age / NS_PER_MS <= maxAgeMs;
    }
  }

  /** What cmd_vel_callback posts for an accepted message: the receive time moved back by the age. */
  function Post(count: u32, left: int, right: int, nowMs: u32, age: u32): Command {
    var accepted := Wrap(nowMs - age);
    Command(SeqOf(count), CmdVel, left, right, accepted, Wrap(accepted + CMD_WATCHDOG_MS))
  }

  /** The sequence numbers of this path have the top bit set. */
  function SeqOf(count: u32): u32 {
    if count >= TWO31 then count else count + CMD_VEL_SEQ_BASE
  }

  /** The millisecond tick shown at true time `ns`, for a tick counter with phase `phase`. */
  function Millis(ns: int, phase: int): int { (ns + phase) / NS_PER_MS }

  /** cmd_vel_callback at work: the stamp check reads the clock at `checked`, the tick is read at
      `read`, both in nanoseconds on one time line. */
  datatype Delivery = Delivery(stamp: int, checked: int, read: int, phase: int, count: u32, left: int, right: int)

  ghost predicate Accepted(d: Delivery) {
    && d.checked <= d.read
    && CheckStamp(true, d.stamp, d.checked, CMD_VEL_MAX_AGE_MS).0 == StampOk
  }

  function AgeOf(d: Delivery): u32 { CheckStamp(true, d.stamp, d.checked, CMD_VEL_MAX_AGE_MS).1 }

  /** The true millisecond the posted command counts as accepted at. */
  function AcceptedAt(d: Delivery): int { Millis(d.read, d.phase) - AgeOf(d) }

  /** The command a delivery posts carries exactly that time, wrapped. */
  lemma PostIsBackDated(d: Delivery)
    ensures var cmd := Post(d.count, d.left, d.right, Wrap(Millis(d.read, d.phase)), AgeOf(d));
            && cmd.accepted == Wrap(AcceptedAt(d)) && cmd.deadline == Wrap(AcceptedAt(d) + CMD_WATCHDOG_MS)
            && cmd.kind == CmdVel && (cmd.left, cmd.right) == (d.left, d.right) && cmd.seq_ >= CMD_VEL_SEQ_BASE
  {
    var age: int := AgeOf(d);
    WrapAdd(Millis(d.read, d.phase), -age);
    WrapAdd(AcceptedAt(d), CMD_WATCHDOG_MS);
  }

  /** The command of a delivery as an event of the control task. */
  function EventOf(d: Delivery): Event {
    Cmd(Post(d.count, d.left, d.right, Wrap(Millis(d.read, d.phase)), AgeOf(d)), AcceptedAt(d))
  }

  /** An instant within 200 + p ticks of the back-dated acceptance is less than 201 + p ms, by two
      nanoseconds, after the stamp, plus the time the callback itself spent between reading the two clocks. */
  lemma BackDatingBoundsAge(d: Delivery, output: int, p: nat)
    requires Accepted(d)
    requires Millis(output, d.phase) < AcceptedAt(d) + CMD_WATCHDOG_MS + p
    ensures output - d.stamp <= (201 + p) * NS_PER_MS - 2 + (d.read - d.checked)
  {
    CheckStampExact(true, d.stamp, d.checked, CMD_VEL_MAX_AGE_MS);
    MillisBounds(output, d.phase);
    MillisBounds(d.read, d.phase);
  }

  lemma MillisBounds(ns: int, phase: int)
    ensures Millis(ns, phase) * NS_PER_MS <= ns + phase < (Millis(ns, phase) + 1) * NS_PER_MS
  {
  }

  /** The command of this moment comes from an accepted delivery. */
  ghost predicate ComesFrom(m: Moment, d: Delivery) { Accepted(d) && m.event == EventOf(d) }

  /** The moment of a run at which a command was last taken over. */
  ghost function LastApplied(tr: Track, ms: seq<Moment>): Option<Moment>
    requires TimelyRun(tr, ms)
    decreases |ms|
  {
    if ms == [] then None
    else
      var before, m := ms[..|ms| - 1], ms[|ms| - 1];
      if m.event.Cmd? && Accepts(Run(tr, before).core, Wrap(m.at), m.event.cmd) then Some(m)
      else LastApplied(tr, before)
  }

  lemma {:induction false} LastAppliedFed(tr: Track, ms: seq<Moment>)
    requires TimelyRun(tr, ms)
    ensures var end := Run(tr, ms);
            match LastApplied(tr, ms)
            case Some(m) =>
              m in ms && m.event.Cmd? && end.fedAt == m.event.acceptedAt && end.last == Some(m.event.cmd.kind)
            case None => end.fedAt == tr.fedAt && end.last == tr.last
    decreases |ms|
  {
    if ms != [] {
      LastAppliedFed(tr, ms[..|ms| - 1]);
    }
  }

  /** End to end: after any run, if the command last taken over is one the agent delivered, and the
      commit that ended the run at true time `output` drives the bridge, then the stamp of that
      command is less than 201 ms old, whatever the link, the mailbox and the clock wraps did in
      between; the time the callback itself was held up between its two clock readings comes on
      top. */
  lemma StampedCommandNeverOutlives(at: int, rawLeft: u16, rawRight: u16, ms: seq<Moment>, d: Delivery, output: int)
    requires DrivenBy(at, rawLeft, rawRight, ms, d, output)
    ensures output - d.stamp <= 201 * NS_PER_MS - 2 + (d.read - d.checked)
  {
    DrivenInTime(at, rawLeft, rawRight, ms, d, output);
    BackDatingBoundsAge(d, output, 0);
  }

  /** A run that ends with a commit at true time `output` that drives the bridge, on the command of the
      delivery d. */
  ghost predicate DrivenBy(at: int, rawLeft: u16, rawRight: u16, ms: seq<Moment>, d: Delivery, output: int) {
    var tr0 := Start(at, rawLeft, rawRight);
    && TimelyRun(tr0, ms) && LastApplied(tr0, ms).Some? && ComesFrom(LastApplied(tr0, ms).value, d)
    && Driving(Run(tr0, ms).out) && Run(tr0, ms).at == Millis(output, d.phase)
  }

  lemma DrivenInTime(at: int, rawLeft: u16, rawRight: u16, ms: seq<Moment>, d: Delivery, output: int)
    requires DrivenBy(at, rawLeft, rawRight, ms, d, output)
    ensures AcceptedAt(d) <= Millis(output, d.phase) < AcceptedAt(d) + CMD_WATCHDOG_MS
    ensures d.left != 0 || d.right != 0
  {
    LastAppliedFed(Start(at, rawLeft, rawRight), ms);
    DrivingMeansFreshCommand(at, rawLeft, rawRight, ms);
    RunFresh(Start(at, rawLeft, rawRight), ms);
    if d.left == 0 && d.right == 0 {
      AimlessRests(Start(at, rawLeft, rawRight), ms);
    }
  }

  /** A velocity command for nothing leaves the core at rest, as long as no other is taken over. */
  lemma {:induction false} AimlessRests(tr: Track, ms: seq<Moment>)
    requires TimelyRun(tr, ms) && LastApplied(tr, ms).Some?
    requires var e := LastApplied(tr, ms).value.event;
             e.Cmd? && e.cmd.kind.CmdVel? && e.cmd.left == 0 && e.cmd.right == 0
    ensures !Moving(Run(tr, ms).core)
    decreases |ms|
  {
    var before, m := ms[..|ms| - 1], ms[|ms| - 1];
    var v := Run(tr, before);
    if m.event.Cmd? && Accepts(v.core, Wrap(m.at), m.event.cmd) {
      AimlessTaken(v.core, m.event.cmd, m.tuning);
      CommitRests(TakeOver(v.core, m.event.cmd, m.tuning), Wrap(m.at));
    } else {
      AimlessRests(tr, before);
      RestStays(v, m);
    }
  }

  lemma AimlessTaken(c: Core, cmd: Command, t: Tuning)
    requires t.left.dutyMax >= 0 && t.right.dutyMax >= 0
    requires cmd.kind.CmdVel? && cmd.left == 0 && cmd.right == 0
    ensures !Moving(TakeOver(c, cmd, t))
  {
  }

  // ---------------------------------------------------------------- how long exactly

  /** Some run ends driving the bridge on this delivery at that time. */
  ghost predicate CanDrive(d: Delivery, output: int) {
    exists at, rawLeft: u16, rawRight: u16, ms :: DrivenBy(at, rawLeft, rawRight, ms, d, output)
  }

  /** Gains that answer every target but zero with half the duty. */
  const HALF: S.Gains := S.Gains(0.0, 500.0, 0.0, 0.0, 1.0, DUTY_MAX)
  const STEADY: Tuning := Tuning(HALF, HALF)

  /** The command is taken at once and, at `output`, still drives. */
  function TakenAndKept(d: Delivery, output: int): seq<Moment> {
    [Moment(Millis(d.read, d.phase), EventOf(d), STEADY), Moment(Millis(output, d.phase), Tick(0, 0, 0), STEADY)]
  }

  lemma Taken(d: Delivery)
    requires Accepted(d) && (d.left != 0 || d.right != 0) && AgeOf(d) < CMD_WATCHDOG_MS
    ensures var tr0, m := Start(Millis(d.read, d.phase), 0, 0), TakenAndKept(d, d.read)[0];
            && Timely(tr0, m) && Accepts(tr0.core, Wrap(m.at), m.event.cmd)
            && var c := Advance(tr0, m).core;
               && c.tickSeen == 0 && (c.cmdLeft != 0 || c.cmdRight != 0)
               && c.safety.faults == {} && c.safety.timeout == CMD_WATCHDOG_MS
               && c.safety.lastCmd == Wrap(AcceptedAt(d))
  {
    var at := Millis(d.read, d.phase);
    PostIsBackDated(d);
    SignedDistance(at, AcceptedAt(d) + CMD_WATCHDOG_MS);
    Aimed(Boot(Wrap(at), 0, 0), EventOf(d).cmd);
    CommitYoung(TakeOver(Boot(Wrap(at), 0, 0), EventOf(d).cmd, STEADY), at, AcceptedAt(d));
  }

  /** A commit leaves a core with a young command as it is. */
  lemma CommitYoung(c: Core, at: int, fedAt: int)
    requires c.safety.faults == {} && c.safety.timeout == CMD_WATCHDOG_MS && c.safety.lastCmd == Wrap(fedAt)
    requires 0 <= at - fedAt < CMD_WATCHDOG_MS
    ensures var c1 := Commit(c, Wrap(at)).0;
            && (c1.cmdLeft, c1.cmdRight, c1.tickSeen) == (c.cmdLeft, c.cmdRight, c.tickSeen)
            && c1.safety == c.safety.(timedOut := false)
  {
    AllowIsFreshness(c.safety, at, fedAt);
  }

  /** Under these gains a core that has just started takes over a velocity command with a duty. */
  lemma Aimed(c: Core, cmd: Command)
    requires c.spdLeft == S.REST && c.spdRight == S.REST && !c.closedLoop
    requires cmd.kind.CmdVel? && (cmd.left != 0 || cmd.right != 0)
    ensures var c1 := TakeOver(c, cmd, STEADY); c1.cmdLeft != 0 || c1.cmdRight != 0
  {
    if cmd.left != 0 {
      HalfDuty(Clamp(cmd.left, VEL_TARGET_MAX_TPS), c.measuredLeft);
    }
    if cmd.right != 0 {
      HalfDuty(Clamp(cmd.right, VEL_TARGET_MAX_TPS), c.measuredRight);
    }
  }

  lemma HalfDuty(target: int, measured: real)
    requires target != 0
    ensures S.Update(S.REST.(target := target), HALF, measured, false).duty == if target > 0 then 500 else -500
  {
  }

  /** Exactly how long a delivery can drive the motors from its receipt on: while less than 200 ticks have
      gone since the tick it is dated to, and only if it asks for any speed. */
  lemma DrivesExactly(d: Delivery, output: int)
    requires Accepted(d) && d.read <= output
    ensures CanDrive(d, output) <==>
            (d.left != 0 || d.right != 0) && Millis(output, d.phase) < AcceptedAt(d) + CMD_WATCHDOG_MS
  {
    if CanDrive(d, output) {
      var at, rawLeft: u16, rawRight: u16, ms :| DrivenBy(at, rawLeft, rawRight, ms, d, output);
      DrivenInTime(at, rawLeft, rawRight, ms, d, output);
    }
    if (d.left != 0 || d.right != 0) && Millis(output, d.phase) < AcceptedAt(d) + CMD_WATCHDOG_MS {
      KeptDriving(d, output);
    }
  }

  lemma KeptDriving(d: Delivery, output: int)
    requires Accepted(d) && d.read <= output && (d.left != 0 || d.right != 0)
    requires Millis(output, d.phase) < AcceptedAt(d) + CMD_WATCHDOG_MS
    ensures DrivenBy(Millis(d.read, d.phase), 0, 0, TakenAndKept(d, output), d, output)
  {
    var at, tr0, ms := Millis(d.read, d.phase), Start(Millis(d.read, d.phase), 0, 0), TakenAndKept(d, output);
    MillisBounds(d.read, d.phase);
    MillisBounds(output, d.phase);
    Taken(d);
    TwoMoments(tr0, ms[0], ms[1]);
    StillDriving(Advance(tr0, ms[0]).core, Millis(output, d.phase), AcceptedAt(d));
  }

  lemma TwoMoments(tr: Track, m: Moment, n: Moment)
    requires Timely(tr, m) && Timely(Advance(tr, m), n)
    requires m.event.Cmd? && Accepts(tr.core, Wrap(m.at), m.event.cmd) && n.event.Tick?
    ensures TimelyRun(tr, [m, n]) && Run(tr, [m, n]) == Advance(Advance(tr, m), n)
    ensures LastApplied(tr, [m, n]) == Some(m)
  {
    assert [m, n][..1] == [m] && [m][..0] == [];
    assert Reach(tr, [m][..0]) == Some(tr);
    assert Reach(tr, [m]) == Some(Advance(tr, m));
  }

  /** A core that was given a duty keeps driving at a repeated tick, while its command is young. */
  lemma StillDriving(c: Core, at: int, fedAt: int)
    requires c.tickSeen == 0 && (c.cmdLeft != 0 || c.cmdRight != 0)
    requires c.safety.faults == {} && c.safety.timeout == CMD_WATCHDOG_MS && c.safety.lastCmd == Wrap(fedAt)
    requires 0 <= at - fedAt < CMD_WATCHDOG_MS
    ensures Driving(OnTick(c, Wrap(at), 0, 0, 0, STEADY).1)
  {
    AllowIsFreshness(c.safety, at, fedAt);
    CcrSound(c.cmdLeft, c.cmdRight);
  }

  /** Exactly which deliveries can drive the motors 200 ms or more after their stamp: those asking for some
      speed, not yet 200 ms old by the rounded age, whose stamp lies before the tick they are dated to. */
  lemma OverrunsExactly(d: Delivery)
    requires Accepted(d)
    ensures (exists output :: d.read <= output && CanDrive(d, output) && output - d.stamp >= 200 * NS_PER_MS) <==>
            && (d.left != 0 || d.right != 0) && AgeOf(d) < CMD_WATCHDOG_MS
            && d.stamp + d.phase < AcceptedAt(d) * NS_PER_MS
  {
    var end := (AcceptedAt(d) + CMD_WATCHDOG_MS) * NS_PER_MS - 1 - d.phase;
    MillisBounds(d.read, d.phase);
    MillisBounds(end, d.phase);
    if d.read <= end {
      DrivesExactly(d, end);
    }
    forall output | d.read <= output && CanDrive(d, output)
      ensures output <= end && AgeOf(d) < CMD_WATCHDOG_MS && (d.left != 0 || d.right != 0)
    {
      DrivesExactly(d, output);
      MillisBounds(output, d.phase);
    }
  }

  /** 200 ms is not true, and the bound proved is reached: a delivery whose command drives the motors 201 ms
      less two nanoseconds after its stamp, with no delay in the callback. */
  lemma BoundIsTight()
    ensures var d := Delivery(1, 1_000_000, 1_000_000, 0, 1, 100, 100);
            && Accepted(d) && d.read == d.checked
            && exists output :: CanDrive(d, output) && output - d.stamp == 201 * NS_PER_MS - 2
  {
    var d := Delivery(1, 1_000_000, 1_000_000, 0, 1, 100, 100);
    assert 999_999 / NS_PER_MS == 0;
    DrivesExactly(d, 201 * NS_PER_MS - 1);
  }

  /** A stamp from the future gains nothing: such a delivery stops driving 200 ms after its receipt, and so
      sooner after its stamp. */
  lemma FutureStampsEndSooner(d: Delivery, output: int)
    requires Accepted(d) && d.stamp >= d.checked && d.read <= output && CanDrive(d, output)
    ensures output - d.read < 200 * NS_PER_MS
    ensures output - d.stamp < 200 * NS_PER_MS - (d.stamp - d.checked) + (d.read - d.checked)
  {
    DrivesExactly(d, output);
    MillisBounds(output, d.phase);
    MillisBounds(d.read, d.phase);
  }

  /** The counters of the callback. Every message is counted once as applied or once as rejected,
      which the wrapping counters keep true for ever. */
  class Session {
    var count: u32
    var applied: u32
    var rejected: u32
    var verdict: Verdict
    var ageMs: u32
    var posts: u32

    ghost predicate Valid()
      reads this
    {
      count == Wrap(applied + rejected)
    }

    constructor ()
      ensures Valid() && count == 0 && posts == 0
    {
      count, applied, rejected, ageMs, posts := 0, 0, 0, 0, 0;
      verdict := StampOk;
    }

    method Arrive()
      requires Valid()
      modifies this`count
      ensures count == Next(old(count)) && count == Wrap(applied + rejected + 1)
    {
      WrapAdd(applied + rejected, 1);
      count := Next(count);
    }

    method Accept(age: u32)
      requires count == Wrap(applied + rejected + 1)
      modifies this`applied, this`ageMs
      ensures Valid() && applied == Next(old(applied)) && ageMs == age
    {
      WrapAddBoth(applied + 1, rejected);
      applied := Next(applied);
      ageMs := age;
    }

    method Reject()
      requires count == Wrap(applied + rejected + 1)
      modifies this`rejected
      ensures Valid() && rejected == Next(old(rejected))
    {
      WrapAddBoth(applied, rejected + 1);
      rejected := Next(rejected);
    }

    /** cmd_vel_callback. `wheels` is what the kinematics gave, nothing for a NaN or an infinity;
        `taken` is whether the control task's mailbox was there to take the command. */
    method Callback(synced: bool, stamp: int, nowNs: int, wheels: Option<(int, int)>, nowMs: u32, taken: bool)
      returns (post: Option<Command>)
      requires Valid()
      modifies this
      ensures Valid() && count == Next(old(count))
      ensures verdict == CheckStamp(synced, stamp, nowNs, CMD_VEL_MAX_AGE_MS).0
      ensures post.Some? <==> verdict == StampOk && wheels.Some?
      ensures post.Some? ==> post.value == Post(posts, wheels.value.0, wheels.value.1, nowMs,
                                                CheckStamp(synced, stamp, nowNs, CMD_VEL_MAX_AGE_MS).1)
      ensures posts == if post.Some? then Next(old(posts)) else old(posts)
      ensures if post.Some? && taken then applied == Next(old(applied)) && rejected == old(rejected)
              else applied == old(applied) && rejected == Next(old(rejected))
    {
      Arrive();
      var (v, age) := CheckStamp(synced, stamp, nowNs, CMD_VEL_MAX_AGE_MS);
      verdict := v;
      if v != StampOk || wheels.None? {
        Reject();
        return None;
      }
      posts := Next(posts);
      post := Some(Post(posts, wheels.value.0, wheels.value.1, nowMs, age));
      if taken {
        Accept(age);
      } else {
        Reject();
      }
    }
  }
}
