/** The dispatcher of the mission node: the queue of service calls and the loop that pumps it, against
    the machine of CallQueue. */
module MissionNode {
  import opened Words
  import opened MissionSpec
  import opened MissionRuns
  import opened MissionMachine
  import opened CallQueue

  /** What one callback finds: the time, the deadlines of calls made now, whether the service is there,
      and the answers that have come in, by request. No answer comes in while a callback is at work. */
  datatype Env = Env(now: real, dues: Dues, ready: bool, answers: map<nat, bool>)

  /** An enable can cost one more call, the disable it may bring about. */
  function Weight(calls: seq<Call>): nat {
    if calls == [] then 0 else (if calls[|calls| - 1].want then 2 else 1) + Weight(calls[..|calls| - 1])
  }

  function Load(orders: seq<bool>): nat {
    if orders == [] then 0 else (if orders[|orders| - 1] then 2 else 1) + Load(orders[..|orders| - 1])
  }

  lemma {:induction false} WeightPop(calls: seq<Call>)
    requires calls != []
    ensures Weight(calls) == Weight(calls[1..]) + (if calls[0].want then 2 else 1)
  {
    if |calls| > 1 {
      assert calls[..|calls| - 1][1..] == calls[1..][..|calls| - 2];
      WeightPop(calls[..|calls| - 1]);
    }
  }

  lemma WeightHead(calls: seq<Call>, c: Call)
    requires calls != [] && c.want == calls[0].want
    ensures Weight(calls[0 := c]) == Weight(calls)
  {
    WeightPop(calls);
    WeightPop(calls[0 := c]);
    assert calls[0 := c][1..] == calls[1..];
  }

  lemma {:induction false} WeightPush(calls: seq<Call>, orders: seq<bool>, dues: Dues)
    ensures Weight(calls + Calls(orders, dues)) == Weight(calls) + Load(orders)
    decreases |orders|
  {
    if orders == [] {
      assert calls + Calls(orders, dues) == calls;
    } else {
      var more := Calls(orders[..|orders| - 1], dues);
      WeightPush(calls, orders[..|orders| - 1], dues);
      assert (calls + Calls(orders, dues))[..|calls| + |more|] == calls + more;
    }
  }

  /** A queue stays well formed when orders join it. */
  lemma PushOneOut(n: Node, orders: seq<bool>, dues: Dues)
    requires OneOut(n)
    ensures OneOut(Push(n, orders, dues))
  {
  }

  /** Outcomes bring about at most the disable an enable can cost. */
  lemma OutcomeLoad(c: Config, m: Machine, now: real, want: bool, ok: bool)
    ensures var orders := EnableResult(c, m, now, want, ok).1;
            Load(orders) <= if want then 1 else 0
  {
    assert Load([]) == 0 && [false][..0] == [] && Load([false]) == 1 + Load([false][..0]);
  }

  class Dispatcher {
    const mission: Mission
    var calls: seq<Call>
    var sent: seq<bool>
    ghost var ran: nat
    ghost var follow: bool

    ghost function Value(): Node
      reads this, mission
    {
      Node(mission.Value(), calls, sent, ran, follow)
    }

    /** The answers at hand are of requests the service has run. */
    ghost predicate Fits(env: Env)
      reads this
    {
      forall k :: k in env.answers ==> k < ran
    }

    /** Nothing is left to do for the head of the queue. */
    ghost predicate Settled(env: Env)
      reads this
    {
      calls != [] ==>
        env.now <= calls[0].deadline &&
        match calls[0].request
        case None => !env.ready
        case Some(k) => k !in env.answers
    }

    constructor (c: Config, env: Env, ghost following: bool)
      requires env.answers == map[]
      ensures mission.cfg == c && fresh(mission)
      ensures Value() == Boot(following, env.dues)
    {
      mission := new Mission(c);
      calls := [NewCall(false, env.dues)];
      sent := [];
      ran, follow := 0, following;
    }

    /** _execute: queues the orders, each with the deadline of its kind, and pumps. */
    method Execute(orders: seq<bool>, env: Env) returns (ghost steps: seq<Step>)
      requires Fits(env) && OneOut(Value())
      modifies this, mission
      ensures Reach(mission.cfg, Push(old(Value()), orders, env.dues), steps) == Some(Value())
      ensures ran == old(ran) && OneOut(Value()) && Settled(env)
      ensures Weight(calls) <= old(Weight(calls)) + Load(orders)
      decreases Weight(calls) + Load(orders), 1
    {
      WeightPush(calls, orders, env.dues);
      PushOneOut(Value(), orders, env.dues);
      Enqueue(orders, env.dues);
      steps := Pump(env);
    }

    method Enqueue(orders: seq<bool>, dues: Dues)
      modifies this`calls
      ensures Value() == Push(old(Value()), orders, dues)
    {
      for i := 0 to |orders|
        invariant calls == old(calls) + Calls(orders[..i], dues)
      {
        assert orders[..i + 1][..i] == orders[..i];
        calls := calls + [NewCall(orders[i], dues)];
      }
      assert orders[..|orders|] == orders;
    }

    /** _pump: sends, collects and gives up calls until the head has to wait. */
    method Pump(env: Env) returns (ghost steps: seq<Step>)
      requires Fits(env) && OneOut(Value())
      modifies this, mission
      ensures Reach(mission.cfg, old(Value()), steps) == Some(Value())
      ensures ran == old(ran) && OneOut(Value()) && Settled(env)
      ensures Weight(calls) <= old(Weight(calls))
      decreases Weight(calls), 0
    {
      ghost var n0 := Value();
      steps := [];
      while calls != []
        invariant Reach(mission.cfg, n0, steps) == Some(Value())
        invariant ran == old(ran) && OneOut(Value()) && Weight(calls) <= old(Weight(calls))
        decreases Weight(calls)
      {
        ghost var more, m := [], Value();
        if calls[0].request.None? && env.ready {
          more := SendIt();
          steps := Extend(n0, steps, m, more);
          m := Value();
        }
        var c := calls[0];
        if c.request.None? && env.now <= c.deadline {
          return;
        }
        if c.request.Some? && c.request.value in env.answers {
          more := Retire(env, Some(env.answers[c.request.value]));
        } else if env.now > c.deadline {
          more := Retire(env, None);
        } else {
          return;
        }
        steps := Extend(n0, steps, m, more);
      }
    }

    /** Puts two stretches of a run together. */
    ghost method Extend(n0: Node, s: seq<Step>, m: Node, t: seq<Step>) returns (st: seq<Step>)
      requires Reach(mission.cfg, n0, s) == Some(m) && Reach(mission.cfg, m, t) == Some(Value())
      ensures Reach(mission.cfg, n0, st) == Some(Value())
    {
      ReachJoin(mission.cfg, n0, s, m, t);
      st := s + t;
    }

    /** Hands the head to the service. */
    method SendIt() returns (ghost steps: seq<Step>)
      requires OneOut(Value()) && calls != [] && calls[0].request.None?
      modifies this`calls, this`sent
      ensures Reach(mission.cfg, old(Value()), steps) == Some(Value())
      ensures OneOut(Value()) && Weight(calls) == old(Weight(calls))
      ensures calls != [] && calls[0].request.Some?
    {
      ghost var n0 := Value();
      var c := calls[0].(request := Some(|sent|));
      WeightHead(calls, c);
      calls := calls[0 := c];
      sent := sent + [c.want];
      steps := [Send];
      ReachOne(mission.cfg, n0, Send);
    }

    /** Takes the head off the queue with its answer, or without one, and passes the outcome on. */
    method Retire(env: Env, answer: Option<bool>) returns (ghost steps: seq<Step>)
      requires Fits(env) && OneOut(Value()) && calls != []
      requires answer.Some? ==> calls[0].request.Some? && calls[0].request.value < ran
      requires answer.None? ==> env.now > calls[0].deadline
      modifies this, mission
      ensures Reach(mission.cfg, old(Value()), steps) == Some(Value())
      ensures ran == old(ran) && OneOut(Value()) && Settled(env)
      ensures Weight(calls) < old(Weight(calls))
      decreases Weight(calls) - 1, 3
    {
      ghost var n0 := Value();
      WeightPop(calls);
      var c := calls[0];
      calls := calls[1..];
      var ok := answer.Some? && answer.value;
      ghost var more := TakeOutcome(c.want, ok, env);
      ghost var s := if answer.Some? then Answered(env.now, ok, env.dues) else GiveUp(env.now, env.dues);
      ReachFirst(mission.cfg, n0, s, more);
      steps := [s] + more;
    }

    /** _result: tells the machine and executes what it orders. */
    method TakeOutcome(want: bool, ok: bool, env: Env) returns (ghost steps: seq<Step>)
      requires Fits(env) && OneOut(Value())
      modifies this, mission
      ensures var n := Feed(mission.cfg, old(Value()), Outcome(env.now, want, ok), env.dues);
              Reach(mission.cfg, n, steps) == Some(Value())
      ensures ran == old(ran) && OneOut(Value()) && Settled(env)
      ensures Weight(calls) <= old(Weight(calls)) + if want then 1 else 0
      decreases Weight(calls) + if want then 1 else 0, 2
    {
      OutcomeLoad(mission.cfg, mission.Value(), env.now, want, ok);
      var orders := mission.TakeResult(env.now, want, ok);
      steps := Execute(orders, env);
    }

    /** Executes what the machine, at node state n, ordered for input i. */
    method Obey(ghost n: Node, ghost i: Input, orders: seq<bool>, env: Env) returns (ghost steps: seq<Step>)
      requires Fits(env) && OneOut(Value()) && !i.Outcome?
      requires Value() == n.(mission := React(mission.cfg, n.mission, i).0)
      requires orders == React(mission.cfg, n.mission, i).1
      modifies this, mission
      ensures Reach(mission.cfg, n, steps) == Some(Value())
      ensures OneOut(Value()) && Settled(env)
    {
      OrdersMatchMovement(mission.cfg, n.mission, i);
      ghost var more := Execute(orders, env);
      ReachFirst(mission.cfg, n, Callback(i, env.dues), more);
      steps := [Callback(i, env.dues)] + more;
    }

    /** on_trip, a start command. */
    method OnStart(trip: Trip, env: Env) returns (ghost steps: seq<Step>)
      requires Fits(env) && OneOut(Value())
      modifies this, mission
      ensures Reach(mission.cfg, old(Value()), steps) == Some(Value())
      ensures OneOut(Value()) && Settled(env)
    {
      ghost var n := Value();
      var orders := mission.BeginTrip(env.now, trip);
      steps := Obey(n, StartTrip(env.now, trip), orders, env);
    }

    /** on_trip, a cancel command. */
    method OnCancel(env: Env) returns (ghost steps: seq<Step>)
      requires Fits(env) && OneOut(Value())
      modifies this, mission
      ensures Reach(mission.cfg, old(Value()), steps) == Some(Value())
      ensures OneOut(Value()) && Settled(env)
    {
      ghost var n := Value();
      var orders := mission.CancelTrip(env.now);
      steps := Obey(n, CancelTrip(env.now), orders, env);
    }

    /** _stop: a safety stop. */
    method OnStop(message: string, env: Env) returns (ghost steps: seq<Step>)
      requires Fits(env) && OneOut(Value())
      modifies this, mission
      ensures Reach(mission.cfg, old(Value()), steps) == Some(Value())
      ensures OneOut(Value()) && Settled(env)
    {
      ghost var n := Value();
      var orders := mission.AbortTrip(env.now, message);
      steps := Obey(n, AbortTrip(env.now, message), orders, env);
    }

    /** The machine's own clock. */
    method Timer(env: Env) returns (ghost steps: seq<Step>)
      requires Fits(env) && OneOut(Value())
      modifies this, mission
      ensures Reach(mission.cfg, old(Value()), steps) == Some(Value())
      ensures OneOut(Value()) && Settled(env)
    {
      ghost var n := Value();
      var orders := mission.OnTick(env.now);
      steps := Obey(n, Clock(env.now), orders, env);
    }

    /** on_tick: pumps, runs the machine's clock and executes what it orders. */
    method OnTick(env: Env) returns (ghost steps: seq<Step>)
      requires Fits(env) && OneOut(Value())
      modifies this, mission
      ensures Reach(mission.cfg, old(Value()), steps) == Some(Value())
      ensures OneOut(Value()) && Settled(env)
    {
      ghost var n0 := Value();
      ghost var first := Pump(env);
      ghost var m := Value();
      ghost var second := Timer(env);
      steps := Extend(n0, first, m, second);
    }
  }
}
