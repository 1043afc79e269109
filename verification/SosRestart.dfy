/** The alarm nodes in the database across a restart of the agent: requests left from the run before,
    the sweep that closes what it left open, and what is there afterwards. */
module SosRestart {
  import opened Words
  import opened SosLog
  import O = Outbox

  /** Where the sending thread stands with the sweep: before it, having found the queue empty, having
      read the nodes, and past it. */
  datatype Phase = Unswept | Found | Got(ids: seq<string>) | Past

  /** `left` counts the requests in the queue that are from the run before. */
  datatype World = World(agent: Agent, queue: seq<NodeOp>, left: nat, nodes: set<string>, phase: Phase)

  function Boot(queue: seq<NodeOp>, nodes: set<string>): World { World(FRESH, queue, |queue|, nodes, Unswept) }

  datatype Step =
    | Hear(input: Input)
    /** the head is written, and answered or not */
    | Deliver(answered: bool)
    /** the head is refused for good; a drop never is */
    | Refuse
    | Check
    /** the nodes are read, or the read fails for now */
    | Read(ids: seq<string>)
    | ReadFails
    | Sweep

  /** A patch writes the node even where there was none. */
  function Written(nodes: set<string>, op: NodeOp): set<string> {
    if op.kind.DropNode? then nodes - {op.id} else nodes + {op.id}
  }

  /** Which records exist after a request is what becomes of the set of nodes, as the agent's puts and
      patches always carry a field. */
  lemma WrittenIsWrite(db: O.Db, op: O.Op, key: string)
    requires op.verb.Delete? || (key in op.body && op.body[key].Some?)
    ensures var kind := match op.verb case Put => PutNode case Patch => PatchNode case Delete => DropNode;
            O.Write(db, op).Keys == Written(db.Keys, NodeOp(kind, op.path))
  {
    if !op.verb.Delete? {
      var f := O.Overlay(if op.verb.Put? then map[] else O.At(db, op.path), op.body);
      assert key in f;
    }
  }

  /** The sending thread does not send while it sweeps; callbacks come at any time. */
  ghost predicate Enabled(w: World, s: Step) {
    match s
    case Hear(i) => !i.Swept?
    case Deliver(_) => w.queue != [] && (w.phase.Unswept? || w.phase.Past?)
    case Refuse => w.queue != [] && (w.phase.Unswept? || w.phase.Past?) && !w.queue[0].kind.DropNode?
    case Check => w.phase.Unswept? && w.queue == []
    case Read(ids) => w.phase.Found? && forall id :: id in ids <==> id in w.nodes
    case ReadFails => w.phase.Found?
    case Sweep => w.phase.Got?
  }

  function Told(w: World, i: Input): World {
    var (a, items) := React(w.agent, i);
    w.(agent := a, queue := w.queue + Writes(items))
  }

  function Popped(w: World): World
    requires w.queue != []
  {
    w.(queue := w.queue[1..], left := if w.left > 0 then w.left - 1 else 0)
  }

  ghost function Next(w: World, s: Step): World
    requires Enabled(w, s)
  {
    match s
    case Hear(i) => Told(w, i)
    case Deliver(answered) =>
      var w1 := w.(nodes := Written(w.nodes, w.queue[0]));
      if answered then Popped(w1) else w1
    case Refuse => Popped(w)
    case Check => w.(phase := Found)
    case Read(ids) => w.(phase := Got(ids))
    case ReadFails => w.(phase := Unswept)
    case Sweep => Told(w, Swept(w.phase.ids)).(phase := Past)
  }

  ghost function Reach(w: World, steps: seq<Step>): Option<World> {
    if steps == [] then Some(w)
    else
      match Reach(w, steps[..|steps| - 1])
      case Some(v) => if Enabled(v, steps[|steps| - 1]) then Some(Next(v, steps[|steps| - 1])) else None
      case None => None
  }

  // ---------------------------------------------------------------- what holds throughout

  /** The node is not there once the queue is through, whatever of the rest of it is refused. */
  predicate Gone(nodes: set<string>, queue: seq<NodeOp>, id: string) {
    match LastOp(queue, id)
    case Some(k) => k.DropNode?
    case None => id !in nodes
  }

  predicate Settled(ops: seq<NodeOp>, id: string) { LastOp(ops, id).None? || LastOp(ops, id).value.DropNode? }

  ghost predicate Ok(w: World) {
    && w.left <= |w.queue| && (!w.phase.Unswept? && !w.phase.Past? ==> w.left == 0)
    && (forall id :: id !in w.agent.sos ==> Settled(w.queue[w.left..], id))
    && (forall id :: id in w.agent.closed && id !in w.agent.sos ==> Gone(w.nodes, w.queue, id))
    && (w.phase.Got? ==> forall id :: id in w.phase.ids <==> id in w.nodes)
    && (w.phase.Past? ==> forall id :: id !in w.agent.sos ==> Gone(w.nodes, w.queue, id))
  }

  lemma {:induction false} LastOpJoin(x: seq<NodeOp>, y: seq<NodeOp>, id: string)
    ensures LastOp(x + y, id) == if LastOp(y, id).Some? then LastOp(y, id) else LastOp(x, id)
    decreases |y|
  {
    if y == [] {
      assert x + y == x;
    } else {
      assert (x + y)[..|x + y| - 1] == x + y[..|y| - 1];
      LastOpJoin(x, y[..|y| - 1], id);
    }
  }

  lemma LastOpTail(q: seq<NodeOp>, id: string)
    requires q != []
    ensures LastOp(q, id) == if LastOp(q[1..], id).Some? then LastOp(q[1..], id)
                             else if q[0].id == id then Some(q[0].kind) else None
  {
    assert q == [q[0]] + q[1..];
    LastOpJoin([q[0]], q[1..], id);
    assert [q[0]][..0] == [];
  }

  /** What a message does to the alarms no longer open: their node is dropped, or not touched. */
  ghost predicate Frees(a: Agent, a1: Agent, ops: seq<NodeOp>) {
    && (forall id :: id !in a1.sos ==> LastOp(ops, id) == Some(DropNode) || (LastOp(ops, id).None? && id !in a.sos))
    && (forall id :: id in a1.closed ==> id in a.closed || LastOp(ops, id) == Some(DropNode))
  }

  lemma LastOpOne(op: NodeOp, id: string)
    ensures LastOp([op], id) == if op.id == id then Some(op.kind) else None
  {
    assert [op][..0] == [];
  }

  lemma ClearFrees(a: Agent, id: string)
    ensures Frees(a, OnClear(a, id).0, Writes(OnClear(a, id).1))
  {
    if id !in a.closed {
      ClearWrites(a, id);
      forall x { LastOpOne(NodeOp(DropNode, id), x); }
    }
  }

  lemma AckFrees(a: Agent, id: string, received: bool, dueAt: real)
    ensures Frees(a, OnAck(a, id, received, dueAt).0, Writes(OnAck(a, id, received, dueAt).1))
  {
    AckWrites(a, id, received, dueAt);
    forall x { LastOpOne(NodeOp(PatchNode, id), x); }
  }

  lemma RequestFrees(a: Agent, id: string)
    ensures Frees(a, OnRequest(a, id).0, Writes(OnRequest(a, id).1))
  {
    WritesOf(id, NodeOp(PutNode, id), true);
    forall x { LastOpOne(NodeOp(PutNode, id), x); }
  }

  lemma LocationFrees(a: Agent, id: string, rank: nat)
    ensures Frees(a, OnLocation(a, id, rank).0, Writes(OnLocation(a, id, rank).1))
  {
    WritesOf(id, NodeOp(PatchNode, id), true);
    forall x { LastOpOne(NodeOp(PatchNode, id), x); }
  }

  lemma DueFrees(a: Agent, id: string, now: real)
    ensures Frees(a, OnDue(a, id, now).0, Writes(OnDue(a, id, now).1))
  {
    WritesOf(id, NodeOp(DropNode, id), id in a.sos && a.sos[id].received);
  }

  lemma HearFrees(a: Agent, i: Input)
    requires !i.Swept?
    ensures Frees(a, React(a, i).0, Writes(React(a, i).1))
  {
    match i
    case Requested(id) => RequestFrees(a, id);
    case Acked(id, received, dueAt) => AckFrees(a, id, received, dueAt);
    case Located(id, rank) => LocationFrees(a, id, rank);
    case Cleared(id) => ClearFrees(a, id);
    case Due(id, now) => DueFrees(a, id, now);
  }

  lemma {:induction false} SweepFrees(closed: seq<string>, live: set<string>, ids: seq<string>)
    ensures var (closed1, items) := SweepAll(closed, live, ids);
            && (forall id :: LastOp(Writes(items), id) == if id in ids && id !in live then Some(DropNode) else None)
            && (forall id :: id in closed1 ==> id in closed || (id in ids && id !in live))
    decreases |ids|
  {
    if ids != [] {
      var before, id := ids[..|ids| - 1], ids[|ids| - 1];
      assert ids == before + [id];
      SweepFrees(closed, live, before);
      var (closed0, items) := SweepAll(closed, live, before);
      if id !in live {
        var op := NodeOp(DropNode, id);
        WritesJoin(items, [ClearEvent(id), Node(op)]);
        WritesOf(id, op, true);
        forall x
          ensures LastOp(Writes(items) + [op], x) == if x == id then Some(DropNode) else LastOp(Writes(items), x)
        {
          LastOpSnoc(Writes(items), op, x);
        }
      }
    }
  }

  // ---------------------------------------------------------------- every step keeps it

  /** New writes behind the queue. */
  lemma QueuedKeeps(w: World, a1: Agent, ops: seq<NodeOp>)
    requires Ok(w) && Frees(w.agent, a1, ops)
    ensures Ok(w.(agent := a1, queue := w.queue + ops))
  {
    var w1 := w.(agent := a1, queue := w.queue + ops);
    assert w1.queue[w1.left..] == w.queue[w.left..] + ops;
    forall id
      ensures LastOp(w1.queue, id) == if LastOp(ops, id).Some? then LastOp(ops, id) else LastOp(w.queue, id)
      ensures LastOp(w1.queue[w1.left..], id) ==
                if LastOp(ops, id).Some? then LastOp(ops, id) else LastOp(w.queue[w.left..], id)
    {
      LastOpJoin(w.queue, ops, id);
      LastOpJoin(w.queue[w.left..], ops, id);
    }
  }

  lemma SweepKeeps(w: World)
    requires Ok(w) && w.phase.Got?
    ensures Ok(Next(w, Sweep))
  {
    var ids, live := w.phase.ids, Live(w.agent);
    var w1 := Next(w, Sweep);
    var ops := Writes(SweepAll(w.agent.closed, live, ids).1);
    SweepFrees(w.agent.closed, live, ids);
    assert w.queue[0..] == w.queue && w1.queue[0..] == w1.queue;
    forall id
      ensures LastOp(w1.queue, id) == if LastOp(ops, id).Some? then LastOp(ops, id) else LastOp(w.queue, id)
    {
      LastOpJoin(w.queue, ops, id);
    }
    forall id | id !in w.agent.sos
      ensures Gone(w1.nodes, w1.queue, id)
    {
      assert id in live <==> id in w.agent.closed;
    }
  }

  lemma WrittenKeeps(w: World)
    requires Ok(w) && w.queue != [] && !w.phase.Got?
    ensures Ok(w.(nodes := Written(w.nodes, w.queue[0])))
  {
    forall id
      ensures Gone(w.nodes, w.queue, id) ==> Gone(Written(w.nodes, w.queue[0]), w.queue, id)
    {
      LastOpTail(w.queue, id);
    }
  }

  /** The head may leave once it is written, or if it is no drop. */
  lemma PoppedKeeps(w: World)
    requires Ok(w) && w.queue != [] && !w.phase.Got? && !w.phase.Found?
    requires w.queue[0].kind.DropNode? ==> w.queue[0].id !in w.nodes
    ensures Ok(Popped(w))
  {
    var w1 := Popped(w);
    forall id
      ensures Gone(w.nodes, w.queue, id) ==> Gone(w1.nodes, w1.queue, id)
    {
      LastOpTail(w.queue, id);
    }
    if w.left > 0 {
      assert w1.queue[w1.left..] == w.queue[w.left..];
    } else {
      assert w.queue[0..] == w.queue && w1.queue[0..] == w.queue[1..];
      forall id
        ensures Settled(w.queue, id) ==> Settled(w1.queue, id)
      {
        LastOpTail(w.queue, id);
      }
    }
  }

  lemma StepKeeps(w: World, s: Step)
    requires Ok(w) && Enabled(w, s)
    ensures Ok(Next(w, s))
  {
    match s
    case Hear(i) =>
      HearFrees(w.agent, i);
      QueuedKeeps(w, React(w.agent, i).0, Writes(React(w.agent, i).1));
    case Deliver(answered) =>
      WrittenKeeps(w);
      if answered {
        PoppedKeeps(w.(nodes := Written(w.nodes, w.queue[0])));
      }
    case Refuse => RefusedKeeps(w);
    case Check =>
    case Read(ids) =>
    case ReadFails =>
    case Sweep => SweepKeeps(w);
  }

  lemma RefusedKeeps(w: World)
    requires Ok(w) && w.queue != [] && !w.queue[0].kind.DropNode? && (w.phase.Unswept? || w.phase.Past?)
    ensures Ok(Popped(w))
  {
    PoppedKeeps(w);
  }

  lemma {:induction false} RunOk(queue: seq<NodeOp>, nodes: set<string>, steps: seq<Step>)
    requires Reach(Boot(queue, nodes), steps).Some?
    ensures Ok(Reach(Boot(queue, nodes), steps).value)
    decreases |steps|
  {
    if steps == [] {
      assert queue[|queue|..] == [];
    } else {
      RunOk(queue, nodes, steps[..|steps| - 1]);
      StepKeeps(Reach(Boot(queue, nodes), steps[..|steps| - 1]).value, steps[|steps| - 1]);
    }
  }

  /** After the sweep, whatever nodes and requests the run before left behind and whatever arrived and
      was lost, repeated or refused since: the node of an alarm that is not open is not in the database
      or its drop is still queued, behind all other writes to it. With the queue through, the nodes left
      are those of open alarms. */
  lemma SweptNodesAreOpen(queue: seq<NodeOp>, nodes: set<string>, steps: seq<Step>)
    requires Reach(Boot(queue, nodes), steps).Some? && Reach(Boot(queue, nodes), steps).value.phase.Past?
    ensures var w := Reach(Boot(queue, nodes), steps).value;
            && (forall id :: id !in w.agent.sos ==> Gone(w.nodes, w.queue, id))
            && (w.queue == [] ==> w.nodes <= w.agent.sos.Keys)
  {
    RunOk(queue, nodes, steps);
    var w := Reach(Boot(queue, nodes), steps).value;
    forall id | w.queue == [] && id in w.nodes
      ensures id in w.agent.sos
    {
      assert id !in w.agent.sos ==> Gone(w.nodes, w.queue, id);
    }
  }
}
