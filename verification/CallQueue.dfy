/** The calls of the mission node to the follow node: a queue with one request outstanding at a time,
    whose outcomes go back to the trip state machine, and the service that runs requests in order. */
module CallQueue {
  import opened Words
  import opened MissionSpec
  import opened MissionRuns

  /** `request` is the position of the request among those sent, once it is sent. */
  datatype Call = Call(want: bool, deadline: real, request: Option<nat>)

  /** The deadlines of calls made now, by kind. */
  datatype Dues = Dues(on: real, off: real)

  /** `sent` is every request handed to the service, of which it has run the first `ran`; `follow` is
      whether the follow node is enabled. */
  datatype Node = Node(mission: Machine, calls: seq<Call>, sent: seq<bool>, ran: nat, follow: bool)

  /** The node queues a disable as it starts; the follow node may be in any state then. */
  function Boot(follow: bool, dues: Dues): Node {
    Node(FRESH, [NewCall(false, dues)], [], 0, follow)
  }

  datatype Step =
    /** a callback other than a service answer, whose orders get these deadlines */
    | Callback(input: Input, dues: Dues)
    /** the head is sent */
    | Send
    /** the head's answer is there */
    | Answered(now: real, ok: bool, dues: Dues)
    /** the head is given up: unsent without a service, or sent and not answered in time */
    | GiveUp(now: real, dues: Dues)
    /** the service runs its next request; an enable may fail to take effect, a disable does not */
    | Run(takes: bool)

  predicate Enabled(n: Node, s: Step) {
    match s
    case Callback(input, _) => !input.Outcome?
    case Send => n.calls != [] && n.calls[0].request.None?
    case Answered(_, _, _) => n.calls != [] && n.calls[0].request.Some? && n.calls[0].request.value < n.ran
    case GiveUp(now, _) => n.calls != [] && now > n.calls[0].deadline
    case Run(_) => n.ran < |n.sent|
  }

  function NewCall(want: bool, dues: Dues): Call { Call(want, if want then dues.on else dues.off, None) }

  function Calls(wants: seq<bool>, dues: Dues): (calls: seq<Call>)
    ensures |calls| == |wants|
    ensures forall i :: 0 <= i < |calls| ==> calls[i] == NewCall(wants[i], dues)
  {
    if wants == [] then [] else Calls(wants[..|wants| - 1], dues) + [NewCall(wants[|wants| - 1], dues)]
  }

  function Push(n: Node, orders: seq<bool>, dues: Dues): Node {
    n.(calls := n.calls + Calls(orders, dues))
  }

  function Pop(n: Node): Node
    requires n.calls != []
  {
    n.(calls := n.calls[1..])
  }

  /** The machine takes an input, and what it orders joins the queue. */
  function Feed(c: Config, n: Node, i: Input, dues: Dues): Node {
    var (m, orders) := React(c, n.mission, i);
    Push(n.(mission := m), orders, dues)
  }

  /** The head leaves the queue with an outcome. */
  function Finish(c: Config, n: Node, now: real, ok: bool, dues: Dues): Node
    requires n.calls != []
  {
    Feed(c, Pop(n), Outcome(now, n.calls[0].want, ok), dues)
  }

  function SendHead(n: Node): Node
    requires n.calls != []
  {
    n.(sent := n.sent + [n.calls[0].want], calls := n.calls[0 := n.calls[0].(request := Some(|n.sent|))])
  }

  function Apply(c: Config, n: Node, s: Step): Node
    requires Enabled(n, s)
  {
    match s
    case Callback(input, dues) => Feed(c, n, input, dues)
    case Send => SendHead(n)
    case Answered(now, ok, dues) => Finish(c, n, now, ok, dues)
    case GiveUp(now, dues) => Finish(c, n, now, false, dues)
    case Run(takes) =>
      n.(ran := n.ran + 1, follow := if n.sent[n.ran] then takes || n.follow else false)
  }

  /** Where the steps lead from n, if each of them is possible when its turn comes. */
  function Reach(c: Config, n: Node, steps: seq<Step>): Option<Node> {
    if steps == [] then Some(n)
    else
      match Reach(c, n, steps[..|steps| - 1])
      case Some(m) => if Enabled(m, steps[|steps| - 1]) then Some(Apply(c, m, steps[|steps| - 1])) else None
      case None => None
  }

  lemma {:induction false} ReachJoin(c: Config, n: Node, s: seq<Step>, m: Node, t: seq<Step>)
    requires Reach(c, n, s) == Some(m)
    ensures Reach(c, n, s + t) == Reach(c, m, t)
    decreases |t|
  {
    if t == [] {
      assert s + t == s;
    } else {
      ReachJoin(c, n, s, m, t[..|t| - 1]);
      assert (s + t)[..|s + t| - 1] == s + t[..|t| - 1];
    }
  }

  lemma ReachOne(c: Config, n: Node, s: Step)
    requires Enabled(n, s)
    ensures Reach(c, n, [s]) == Some(Apply(c, n, s))
  {
    assert [s][..0] == [];
    assert Reach(c, n, [s][..0]) == Some(n);
  }

  lemma ReachFirst(c: Config, n: Node, s: Step, t: seq<Step>)
    requires Enabled(n, s)
    ensures Reach(c, n, [s] + t) == Reach(c, Apply(c, n, s), t)
  {
    ReachOne(c, n, s);
    ReachJoin(c, n, [s], Apply(c, n, s), t);
  }

  // ---------------------------------------------------------------- what is still to come

  function Wants(calls: seq<Call>): (w: seq<bool>)
    ensures |w| == |calls|
    ensures forall i :: 0 <= i < |w| ==> w[i] == calls[i].want
  {
    seq(|calls|, i requires 0 <= i < |calls| => calls[i].want)
  }

  /** The calls not sent yet: all but a head that is out. */
  function Unsent(calls: seq<Call>): seq<Call> {
    if calls != [] && calls[0].request.Some? then calls[1..] else calls
  }

  /** Everything the service has yet to run or to be given, in order. */
  function Ahead(n: Node): seq<bool>
    requires n.ran <= |n.sent|
  {
    n.sent[n.ran..] + Wants(Unsent(n.calls))
  }

  /** Only the head of the queue may be out. */
  ghost predicate OneOut(n: Node) {
    && n.ran <= |n.sent|
    && (forall i :: 1 <= i < |n.calls| ==> n.calls[i].request.None?)
    && (n.calls != [] && n.calls[0].request.Some? ==> n.calls[0].request.value == |n.sent| - 1)
  }

  /** What the follow node will be told last, or is now if nothing is ahead of it. */
  function Final(n: Node): bool
    requires n.ran <= |n.sent|
  {
    var ahead := Ahead(n);
    if ahead == [] then n.follow else ahead[|ahead| - 1]
  }

  /** Giving up s loses the only call there is, a disable that was never sent. */
  predicate Loses(n: Node, s: Step) { Abandons(n, s) && |n.calls| == 1 }

  /** The branch that gives an order up unsent: a disable that found no service until its deadline. */
  predicate Abandons(n: Node, s: Step) {
    s.GiveUp? && n.calls != [] && n.calls[0].request.None? && !n.calls[0].want
  }

  /** What the machine orders in a step. */
  function Orders(c: Config, n: Node, s: Step): seq<bool>
    requires Enabled(n, s)
  {
    match s
    case Callback(input, _) => React(c, n.mission, input).1
    case Answered(now, ok, _) => React(c, n.mission, Outcome(now, n.calls[0].want, ok)).1
    case GiveUp(now, _) => React(c, n.mission, Outcome(now, n.calls[0].want, false)).1
    case Send => []
    case Run(_) => []
  }

  /** Unless the latest order is lost, the last word to the follow node is off whenever the trip is not
      under way. */
  ghost predicate Safe(n: Node, lost: bool) {
    OneOut(n) && (lost ==> n.calls == []) && (!lost && !Moving(n.mission) ==> !Final(n))
  }

  lemma WantsConcat(a: seq<Call>, b: seq<Call>)
    ensures Wants(a + b) == Wants(a) + Wants(b)
  {
  }

  lemma WantsFirst(calls: seq<Call>)
    requires calls != []
    ensures Wants(calls) == [calls[0].want] + Wants(calls[1..])
  {
  }

  lemma WantsJoin(calls: seq<Call>, orders: seq<bool>, dues: Dues)
    ensures Wants(Unsent(calls + Calls(orders, dues))) == Wants(Unsent(calls)) + orders
  {
    var more := Calls(orders, dues);
    assert Unsent(calls + more) == Unsent(calls) + more;
    WantsConcat(Unsent(calls), more);
    assert Wants(more) == orders;
  }

  lemma AheadOfPush(n: Node, orders: seq<bool>, dues: Dues)
    requires OneOut(n)
    ensures OneOut(Push(n, orders, dues)) && Ahead(Push(n, orders, dues)) == Ahead(n) + orders
  {
    WantsJoin(n.calls, orders, dues);
    assert Ahead(Push(n, orders, dues)) == n.sent[n.ran..] + (Wants(Unsent(n.calls)) + orders);
  }

  lemma AheadOfFeed(c: Config, n: Node, i: Input, dues: Dues)
    requires OneOut(n)
    ensures var orders := React(c, n.mission, i).1;
            OneOut(Feed(c, n, i, dues)) && Ahead(Feed(c, n, i, dues)) == Ahead(n) + orders
  {
    var n1 := n.(mission := React(c, n.mission, i).0);
    assert Ahead(n1) == Ahead(n);
    AheadOfPush(n1, React(c, n.mission, i).1, dues);
  }

  lemma FeedKeeps(c: Config, n: Node, i: Input, dues: Dues, lost: bool)
    requires Safe(n, lost)
    ensures Safe(Feed(c, n, i, dues), lost && React(c, n.mission, i).1 == [])
  {
    AheadOfFeed(c, n, i, dues);
    OrdersMatchMovement(c, n.mission, i);
  }

  lemma DropSnoc(a: seq<bool>, w: bool, r: nat, t: seq<bool>)
    requires r <= |a|
    ensures (a + [w])[r..] + t == a[r..] + ([w] + t)
  {
  }

  lemma SendKeeps(n: Node, lost: bool)
    requires Safe(n, lost) && n.calls != [] && n.calls[0].request.None?
    ensures Safe(SendHead(n), lost)
  {
    SameAhead(n);
  }

  lemma SameAhead(n: Node)
    requires OneOut(n) && n.calls != [] && n.calls[0].request.None?
    ensures OneOut(SendHead(n)) && Ahead(SendHead(n)) == Ahead(n)
  {
    WantsFirst(n.calls);
    assert SendHead(n).calls[1..] == n.calls[1..];
    DropSnoc(n.sent, n.calls[0].want, n.ran, Wants(n.calls[1..]));
  }

  lemma AheadOfPop(n: Node)
    requires OneOut(n) && n.calls != []
    ensures var h, rest := n.calls[0], Wants(n.calls[1..]);
            && OneOut(Pop(n)) && Ahead(Pop(n)) == n.sent[n.ran..] + rest
            && Ahead(n) == if h.request.Some? then n.sent[n.ran..] + rest else n.sent[n.ran..] + ([h.want] + rest)
  {
    assert Unsent(Pop(n).calls) == n.calls[1..];
    if n.calls[0].request.None? {
      WantsFirst(n.calls);
    }
  }

  /** Taking the head off changes nothing ahead of the service if it was out, and otherwise removes
      one order, which is never the last one unless a trip is under way or the order is lost. */
  lemma PopKeeps(n: Node, lost: bool)
    requires Safe(n, lost) && n.calls != []
    ensures Safe(Pop(n), |n.calls| == 1 && n.calls[0].request.None? && !n.calls[0].want)
  {
    AheadOfPop(n);
    var sent, rest := n.sent[n.ran..], Wants(n.calls[1..]);
    if n.calls[0].request.Some? {
      assert Final(Pop(n)) == Final(n);
    } else if rest != [] {
      LastWord(n, sent, [n.calls[0].want] + rest);
      LastWord(Pop(n), sent, rest);
    } else {
      LastWord(n, sent, [n.calls[0].want]);
    }
  }

  lemma LastWord(n: Node, a: seq<bool>, b: seq<bool>)
    requires n.ran <= |n.sent| && Ahead(n) == a + b && b != []
    ensures Final(n) == b[|b| - 1]
  {
  }

  lemma RunKeeps(c: Config, n: Node, takes: bool, lost: bool)
    requires Safe(n, lost) && n.ran < |n.sent|
    ensures Safe(Apply(c, n, Run(takes)), lost)
  {
    assert n.sent[n.ran..] == [n.sent[n.ran]] + n.sent[n.ran + 1..];
  }

  lemma StepKeeps(c: Config, n: Node, s: Step, lost: bool)
    requires Safe(n, lost) && Enabled(n, s)
    ensures Safe(Apply(c, n, s), Loses(n, s) || (lost && Orders(c, n, s) == []))
  {
    match s
    case Callback(input, dues) => FeedKeeps(c, n, input, dues, lost);
    case Send => SendKeeps(n, lost);
    case Answered(now, ok, dues) =>
      PopKeeps(n, lost);
      FeedKeeps(c, Pop(n), Outcome(now, n.calls[0].want, ok), dues, false);
    case GiveUp(now, dues) =>
      PopKeeps(n, lost);
      FeedKeeps(c, Pop(n), Outcome(now, n.calls[0].want, false), dues, Loses(n, s));
    case Run(takes) => RunKeeps(c, n, takes, lost);
  }

  // ---------------------------------------------------------------- which runs leave following on

  /** Step k of a run lost the latest order. */
  ghost predicate LosesAt(c: Config, n: Node, steps: seq<Step>, k: nat)
    requires k < |steps|
  {
    Reach(c, n, steps[..k]).Some? && Loses(Reach(c, n, steps[..k]).value, steps[k])
  }

  ghost predicate OrdersAt(c: Config, n: Node, steps: seq<Step>, k: nat)
    requires k < |steps|
  {
    match Reach(c, n, steps[..k])
    case Some(m) => Enabled(m, steps[k]) && Orders(c, m, steps[k]) != []
    case None => false
  }

  /** Step k lost the latest order, and no step has ordered anything since. */
  ghost predicate LostAt(c: Config, n: Node, steps: seq<Step>, k: nat) {
    k < |steps| && LosesAt(c, n, steps, k) && forall j :: k < j < |steps| ==> !OrdersAt(c, n, steps, j)
  }

  ghost predicate Lost(c: Config, n: Node, steps: seq<Step>) { exists k: nat :: LostAt(c, n, steps, k) }

  lemma AtBefore(c: Config, n: Node, steps: seq<Step>, k: nat)
    requires k < |steps| - 1
    ensures LosesAt(c, n, steps[..|steps| - 1], k) == LosesAt(c, n, steps, k)
    ensures OrdersAt(c, n, steps[..|steps| - 1], k) == OrdersAt(c, n, steps, k)
  {
    assert steps[..|steps| - 1][..k] == steps[..k];
  }

  lemma LostAtBefore(c: Config, n: Node, steps: seq<Step>, k: nat)
    requires k < |steps| - 1
    ensures LostAt(c, n, steps, k) <==>
            LostAt(c, n, steps[..|steps| - 1], k) && !OrdersAt(c, n, steps, |steps| - 1)
  {
    var last := |steps| - 1;
    AtBefore(c, n, steps, k);
    forall j: nat | j < last
      ensures OrdersAt(c, n, steps[..last], j) == OrdersAt(c, n, steps, j)
    {
      AtBefore(c, n, steps, j);
    }
    if LostAt(c, n, steps[..last], k) && !OrdersAt(c, n, steps, last) {
      assert forall j :: k < j < |steps| ==> j == last || !OrdersAt(c, n, steps[..last], j);
    }
  }

  lemma LostStep(c: Config, n: Node, steps: seq<Step>)
    requires steps != []
    ensures var last := |steps| - 1;
            Lost(c, n, steps) <==>
              LosesAt(c, n, steps, last) || (Lost(c, n, steps[..last]) && !OrdersAt(c, n, steps, last))
  {
    var last := |steps| - 1;
    if LosesAt(c, n, steps, last) {
      assert LostAt(c, n, steps, last);
    } else if Lost(c, n, steps[..last]) {
      var k: nat :| LostAt(c, n, steps[..last], k);
      LostAtBefore(c, n, steps, k);
    }
    if Lost(c, n, steps) {
      var k: nat :| LostAt(c, n, steps, k);
      if k < last {
        LostAtBefore(c, n, steps, k);
      }
    }
  }

  lemma {:induction false} RunsKeep(c: Config, n: Node, steps: seq<Step>)
    requires Safe(n, false) && Reach(c, n, steps).Some?
    ensures Safe(Reach(c, n, steps).value, Lost(c, n, steps))
    decreases |steps|
  {
    if steps != [] {
      var before := steps[..|steps| - 1];
      RunsKeep(c, n, before);
      LostStep(c, n, steps);
      StepKeeps(c, Reach(c, n, before).value, steps[|steps| - 1], Lost(c, n, before));
    }
  }

  lemma RunSafe(c: Config, follow: bool, dues: Dues, steps: seq<Step>)
    requires Reach(c, Boot(follow, dues), steps).Some?
    ensures Safe(Reach(c, Boot(follow, dues), steps).value, Lost(c, Boot(follow, dues), steps))
  {
    var n0 := Boot(follow, dues);
    assert Wants(Unsent(n0.calls)) == [false];
    RunsKeep(c, n0, steps);
  }

  /** What the requests already sent leave the follow node at: the last one, or what it is now. */
  predicate Told(n: Node)
    requires n.ran <= |n.sent|
  {
    if n.ran == |n.sent| then n.follow else n.sent[|n.sent| - 1]
  }

  /** Exactly which runs break the rule. In every run, with any interleaving of callbacks, requests, answers
      and time-outs: outside a trip the last word to the follow node is on exactly if a disable standing
      alone in the queue found no service until its deadline, nothing has been ordered since, and the
      requests sent before leave it on. */
  lemma LastWordExactly(c: Config, follow: bool, dues: Dues, steps: seq<Step>)
    requires Reach(c, Boot(follow, dues), steps).Some?
    ensures var n := Reach(c, Boot(follow, dues), steps).value;
            && n.ran <= |n.sent|
            && (!Moving(n.mission) ==> (Final(n) <==> Lost(c, Boot(follow, dues), steps) && Told(n)))
  {
    RunSafe(c, follow, dues, steps);
    var n := Reach(c, Boot(follow, dues), steps).value;
    if n.calls == [] {
      NothingQueued(n);
    }
  }

  lemma NothingQueued(n: Node)
    requires OneOut(n) && n.calls == []
    ensures Ahead(n) == n.sent[n.ran..] && (Final(n) <==> Told(n))
  {
  }

  /** The service is there for every disable before its deadline. */
  ghost predicate Served(c: Config, n: Node, steps: seq<Step>) {
    forall k :: 0 <= k < |steps| && Reach(c, n, steps[..k]).Some? ==> !Abandons(Reach(c, n, steps[..k]).value, steps[k])
  }

  /** With a service that is there for every disable, and that may be as slow to answer as it likes: a
      disable stands behind every earlier enable whenever the trip is not under way. So once the queue is
      empty and every request has been run, the follow node is enabled only for a trip that is starting or
      active. */
  lemma FollowsOnlyDuringTrips(c: Config, follow: bool, dues: Dues, steps: seq<Step>)
    requires Reach(c, Boot(follow, dues), steps).Some? && Served(c, Boot(follow, dues), steps)
    ensures var n := Reach(c, Boot(follow, dues), steps).value;
            && n.ran <= |n.sent|
            && (!Moving(n.mission) ==> !Final(n))
            && (Drained(n) && n.follow ==> Moving(n.mission))
  {
    LastWordExactly(c, follow, dues, steps);
    forall k: nat | k < |steps|
      ensures !LosesAt(c, Boot(follow, dues), steps, k)
    {
    }
  }

  /** The same at the step that fails: giving up a disable that was never sent, alone in the queue, leaves
      the last word on exactly if the requests sent before do. */
  lemma GiveUpExactly(c: Config, n: Node, s: Step)
    requires OneOut(n) && Enabled(n, s) && Loses(n, s)
    ensures OneOut(Apply(c, n, s)) && Apply(c, n, s).calls == []
    ensures Final(Apply(c, n, s)) <==> Told(n)
  {
    NothingQueued(Apply(c, n, s));
  }

  /** Requests reach the service one at a time. */
  lemma OneRequestOut(c: Config, follow: bool, dues: Dues, steps: seq<Step>)
    requires Reach(c, Boot(follow, dues), steps).Some?
    ensures OneOut(Reach(c, Boot(follow, dues), steps).value)
  {
    RunSafe(c, follow, dues, steps);
  }

  predicate ByUser(s: Step) { s.Callback? && (s.input.StartTrip? || s.input.CancelTrip?) }

  /** A tick of the clock may still order the disable again: while stopping, none has gone through or is
      under way, and the retry comes before the stop times out. */
  predicate WillRetry(c: Config, m: Machine) {
    && m.state.Cancelling? && m.disableOkAt.None? && !m.disablePending
    && m.nextDisableAt.Some? && m.nextDisableAt.value - m.entered <= c.stopTimeout
  }

  /** The queue has done with the follow node: nothing waits, and every request sent has been run. */
  predicate Drained(n: Node) { n.calls == [] && n.ran == |n.sent| }

  /** No tick, safety stop or odometry changes what a drained follow node was told last. */
  lemma {:induction false} NothingRepairs(c: Config, n: Node, steps: seq<Step>)
    requires Drained(n) && !Moving(n.mission) && !WillRetry(c, n.mission)
    requires Reach(c, n, steps).Some? && forall s :: s in steps ==> !ByUser(s)
    ensures var m := Reach(c, n, steps).value;
            && !Moving(m.mission) && !WillRetry(c, m.mission)
            && m.calls == [] && m.sent == n.sent && m.ran == n.ran && m.follow == n.follow
    decreases |steps|
  {
    if steps != [] {
      var before := steps[..|steps| - 1];
      assert forall s :: s in before ==> s in steps;
      NothingRepairs(c, n, before);
      assert steps[|steps| - 1] in steps;
      NothingOrdered(c, Reach(c, n, before).value, steps[|steps| - 1]);
    }
  }

  lemma NothingOrdered(c: Config, n: Node, s: Step)
    requires Drained(n) && !Moving(n.mission) && !WillRetry(c, n.mission) && Enabled(n, s) && !ByUser(s)
    ensures var n1 := Apply(c, n, s);
            n1 == n.(mission := n1.mission) && !Moving(n1.mission) && !WillRetry(c, n1.mission)
  {
  }

  /** Steps without a command of the user that bring a new order. */
  ghost predicate Repairs(c: Config, n: Node, steps: seq<Step>) {
    && Reach(c, n, steps).Some? && (forall s :: s in steps ==> !ByUser(s))
    && (Reach(c, n, steps).value.calls != [] || Reach(c, n, steps).value.sent != n.sent)
  }

  /** What a drained follow node was told last stands, outside a trip, until the user commands something,
      exactly unless a retry is due before the stop times out. */
  lemma RepairedExactly(c: Config, n: Node)
    requires Drained(n) && !Moving(n.mission)
    ensures (exists steps :: Repairs(c, n, steps)) <==> WillRetry(c, n.mission)
  {
    if WillRetry(c, n.mission) {
      var s := Callback(Clock(n.mission.nextDisableAt.value), Dues(0.0, 0.0));
      ReachOne(c, n, s);
      assert Apply(c, n, s).calls == [NewCall(false, Dues(0.0, 0.0))];
      assert Repairs(c, n, [s]);
    } else {
      forall steps | Repairs(c, n, steps)
        ensures false
      {
        NothingRepairs(c, n, steps);
      }
    }
  }

  /** The disable of the start-up has been run and answered. */
  lemma AfterBoot() returns (steps: seq<Step>)
    ensures Reach(DEFAULTS, Boot(false, Dues(3.0, 1.0)), steps) == Some(Node(FRESH, [], [false], 1, false))
  {
    var c, n0 := DEFAULTS, Boot(false, Dues(3.0, 1.0));
    var n := n0;
    steps, n := Then(c, n0, [], n, Send);
    steps, n := Then(c, n0, steps, n, Run(true));
    steps, n := Then(c, n0, steps, n, Answered(0.0, true, Dues(3.0, 1.0)));
    assert n == Node(FRESH, [], [false], 1, false);
  }

  /** A start whose enable is run but never answered: the trip has failed, and its disable is queued. */
  lemma UnansweredStart() returns (steps: seq<Step>, n: Node)
    ensures Reach(DEFAULTS, Boot(false, Dues(3.0, 1.0)), steps) == Some(n)
    ensures n.mission.state.Failed? && n.sent == [false, true] && n.ran == 2 && n.follow
    ensures n.calls == [Call(true, 5.0, Some(1)), Call(false, 6.1, None)]
  {
    var c, n0 := DEFAULTS, Boot(false, Dues(3.0, 1.0));
    steps := AfterBoot();
    n := Node(FRESH, [], [false], 1, false);
    steps, n := Then(c, n0, steps, n, Callback(StartTrip(2.0, Trip("t", "a", "b")), Dues(5.0, 3.0)));
    steps, n := Then(c, n0, steps, n, Send);
    steps, n := Then(c, n0, steps, n, Run(true));
    assert n.calls == [Call(true, 5.0, Some(1))] && n.mission.state.Starting? && n.mission.entered == 2.0;
    steps, n := Then(c, n0, steps, n, Callback(Clock(5.1), Dues(8.1, 6.1)));
  }

  /** The condition of FollowsOnlyDuringTrips is needed: a start whose enable is run but never answered times
      out, and the disable ordered then finds no service. The trip has failed, nothing is left to be sent,
      and the follow node is enabled and stays so whatever happens, short of a command of the user. */
  lemma LostDisableLeavesFollowOn() returns (steps: seq<Step>)
    ensures Reach(DEFAULTS, Boot(false, Dues(3.0, 1.0)), steps).Some?
    ensures var n := Reach(DEFAULTS, Boot(false, Dues(3.0, 1.0)), steps).value;
            && n.mission.state.Failed? && Drained(n) && n.follow
            && forall more :: Reach(DEFAULTS, n, more).Some? && (forall s :: s in more ==> !ByUser(s)) ==>
                 Reach(DEFAULTS, n, more).value.follow && !Moving(Reach(DEFAULTS, n, more).value.mission)
  {
    var c, n0 := DEFAULTS, Boot(false, Dues(3.0, 1.0));
    var n: Node;
    steps, n := UnansweredStart();
    steps, n := Then(c, n0, steps, n, GiveUp(5.2, Dues(8.2, 6.2)));
    assert n.calls == [Call(false, 6.1, None)];
    steps, n := Then(c, n0, steps, n, GiveUp(6.2, Dues(9.2, 7.2)));
    forall more | Reach(c, n, more).Some? && forall s :: s in more ==> !ByUser(s)
      ensures Reach(c, n, more).value.follow && !Moving(Reach(c, n, more).value.mission)
    {
      NothingRepairs(c, n, more);
    }
  }

  /** A run one step longer. */
  lemma Then(c: Config, n0: Node, s: seq<Step>, n: Node, step: Step) returns (s1: seq<Step>, n1: Node)
    requires Reach(c, n0, s) == Some(n) && Enabled(n, step)
    ensures n1 == Apply(c, n, step) && Reach(c, n0, s1) == Some(n1)
  {
    s1, n1 := s + [step], Apply(c, n, step);
    assert s1[..|s|] == s;
  }
}
