/** The life of an alarm in the telemetry agent: what it queues for the database, and what that means
    for the alarm nodes found there, across a restart of the agent. */
module SosLog {
  import opened Words

  const MAX_LOCATION_UPDATES: nat := 3
  const CLOSED_KEPT: nat := 64

  /** What the agent knows of an open alarm; an orphan is one whose request it never saw. */
  datatype Entry = Entry(orphan: bool, received: bool, ackDue: Option<real>, ackEmitted: bool, failEmitted: bool,
                         bestRank: nat, updates: nat)

  const NEW_ENTRY: Entry := Entry(false, false, None, false, false, 0, 0)
  const ORPHAN_ENTRY: Entry := Entry(true, false, None, false, false, 0, MAX_LOCATION_UPDATES)

  datatype Agent = Agent(sos: map<string, Entry>, closed: seq<string>)

  const FRESH: Agent := Agent(map[], [])

  datatype Kind = PutNode | PatchNode | DropNode

  datatype NodeOp = NodeOp(kind: Kind, id: string)

  /** What is queued: writes to alarm nodes, and events. */
  datatype Item = Node(op: NodeOp) | AckEvent(id: string, ok: bool) | RequestEvent(id: string) | ClearEvent(id: string)

  datatype Input =
    | Requested(id: string)
    | Acked(id: string, received: bool, dueAt: real)
    | Located(id: string, rank: nat)
    | Cleared(id: string)
    | Due(id: string, now: real)
    | Swept(ids: seq<string>)

  function Drop(a: map<string, Entry>, id: string): map<string, Entry> { a - {id} }

  /** `deque(maxlen=64)`: the oldest falls out. */
  function Remember(closed: seq<string>, id: string): seq<string> {
    var all := closed + [id];
    if |all| > CLOSED_KEPT then all[|all| - CLOSED_KEPT..] else all
  }

  function Ack(e: Entry): Entry { e.(ackDue := None, ackEmitted := e.ackEmitted || e.received) }

  function OnRequest(a: Agent, id: string): (Agent, seq<Item>) {
    if id in a.sos || id in a.closed then (a, [])
    else (a.(sos := a.sos[id := NEW_ENTRY]), [RequestEvent(id), Node(NodeOp(PutNode, id))])
  }

  /** The items of a message that may change the node, in the order they are queued. */
  function Items(patch: bool, id: string, last: seq<Item>): seq<Item> {
    if patch then [Node(NodeOp(PatchNode, id))] + last else last
  }

  function OnAck(a: Agent, id: string, received: bool, dueAt: real): (Agent, seq<Item>) {
    if id in a.closed then (a, [])
    else
      var e := if id in a.sos then a.sos[id] else ORPHAN_ENTRY;
      var e1 := e.(received := received);
      var patch := e.received != received && !e.orphan;
      if !received && !e.failEmitted then
        (a.(sos := a.sos[id := Ack(e1.(failEmitted := true))]), Items(patch, id, [AckEvent(id, false)]))
      else if received && !e.ackEmitted && e.ackDue.None? then
        (a.(sos := a.sos[id := e1.(ackDue := Some(dueAt))]), Items(patch, id, []))
      else (a.(sos := a.sos[id := e1]), Items(patch, id, []))
  }

  function OnLocation(a: Agent, id: string, rank: nat): (Agent, seq<Item>) {
    if rank == 0 || id !in a.sos || rank < a.sos[id].bestRank then (a, [])
    else
      var e := a.sos[id].(bestRank := rank);
      if e.updates < MAX_LOCATION_UPDATES then
        (a.(sos := a.sos[id := e.(updates := e.updates + 1)]), [Node(NodeOp(PatchNode, id))])
      else (a.(sos := a.sos[id := e]), [])
  }

  function OnClear(a: Agent, id: string): (Agent, seq<Item>) {
    if id in a.closed then (a, [])
    else
      var late := if id in a.sos && a.sos[id].ackDue.Some? && !a.sos[id].ackEmitted
                  then [AckEvent(id, a.sos[id].received)] else [];
      (Agent(Drop(a.sos, id), Remember(a.closed, id)), late + [ClearEvent(id), Node(NodeOp(DropNode, id))])
  }

  /** The timer looks at one open alarm. */
  function OnDue(a: Agent, id: string, now: real): (Agent, seq<Item>) {
    if id in a.sos && a.sos[id].ackDue.Some? && now >= a.sos[id].ackDue.value && !a.sos[id].ackEmitted then
      (a.(sos := a.sos[id := Ack(a.sos[id])]), [AckEvent(id, a.sos[id].received)])
    else (a, [])
  }

  /** The sweep: of the nodes it found, those the agent did not know when it began are closed. */
  function SweepAll(closed: seq<string>, live: set<string>, ids: seq<string>): (seq<string>, seq<Item>) {
    if ids == [] then (closed, [])
    else
      var (closed1, items) := SweepAll(closed, live, ids[..|ids| - 1]);
      var id := ids[|ids| - 1];
      if id in live then (closed1, items)
      else (Remember(closed1, id), items + [ClearEvent(id), Node(NodeOp(DropNode, id))])
  }

  function Live(a: Agent): set<string> { a.sos.Keys + set id | id in a.closed }

  function OnSweep(a: Agent, ids: seq<string>): (Agent, seq<Item>) {
    var (closed, items) := SweepAll(a.closed, Live(a), ids);
    (a.(closed := closed), items)
  }

  function React(a: Agent, i: Input): (Agent, seq<Item>) {
    match i
    case Requested(id) => OnRequest(a, id)
    case Acked(id, received, dueAt) => OnAck(a, id, received, dueAt)
    case Located(id, rank) => OnLocation(a, id, rank)
    case Cleared(id) => OnClear(a, id)
    case Due(id, now) => OnDue(a, id, now)
    case Swept(ids) => OnSweep(a, ids)
  }

  /** The writes among some queued items. */
  function Writes(items: seq<Item>): (ops: seq<NodeOp>)
    ensures |ops| <= |items|
  {
    if items == [] then []
    else
      var before := Writes(items[..|items| - 1]);
      match items[|items| - 1]
      case Node(op) => before + [op]
      case _ => before
  }

  // ---------------------------------------------------------------- what a run queues

  function After(h: seq<Input>): Agent {
    if h == [] then FRESH else React(After(h[..|h| - 1]), h[|h| - 1]).0
  }

  function Queued(h: seq<Input>): seq<Item> {
    if h == [] then [] else Queued(h[..|h| - 1]) + React(After(h[..|h| - 1]), h[|h| - 1]).1
  }

  /** The last write to the node of `id`, if there is one. */
  function LastOp(ops: seq<NodeOp>, id: string): Option<Kind> {
    if ops == [] then None
    else if ops[|ops| - 1].id == id then Some(ops[|ops| - 1].kind)
    else LastOp(ops[..|ops| - 1], id)
  }

  /** Put or patched, and not dropped since. */
  predicate Present(ops: seq<NodeOp>, id: string) { LastOp(ops, id).Some? && !LastOp(ops, id).value.DropNode? }

  /** Every patch is of a node put earlier and not dropped since. */
  predicate PatchesFollowPuts(ops: seq<NodeOp>) {
    ops == [] ||
    (var before, op := ops[..|ops| - 1], ops[|ops| - 1];
     PatchesFollowPuts(before) && (op.kind.PatchNode? ==> Present(before, op.id)))
  }

  /** The nodes the agent put are those of the alarms it holds and saw the request of. */
  ghost predicate NodesOk(a: Agent, ops: seq<NodeOp>) {
    && (forall id :: Present(ops, id) <==> id in a.sos && !a.sos[id].orphan)
    && (forall id :: id in a.sos && a.sos[id].orphan ==> a.sos[id].updates >= MAX_LOCATION_UPDATES)
  }

  lemma LastOpSnoc(ops: seq<NodeOp>, op: NodeOp, id: string)
    ensures LastOp(ops + [op], id) == if op.id == id then Some(op.kind) else LastOp(ops, id)
    ensures PatchesFollowPuts(ops + [op]) <==> PatchesFollowPuts(ops) && (op.kind.PatchNode? ==> Present(ops, op.id))
  {
    assert (ops + [op])[..|ops|] == ops;
  }

  predicate Owned(a: Agent, id: string) { id in a.sos && !a.sos[id].orphan }

  ghost predicate OrphansQuiet(a: Agent) {
    forall id :: id in a.sos && a.sos[id].orphan ==> a.sos[id].updates >= MAX_LOCATION_UPDATES
  }

  /** One more write, and what it must do to the alarms held. */
  lemma WriteKeeps(a: Agent, ops: seq<NodeOp>, a1: Agent, op: NodeOp)
    requires NodesOk(a, ops) && OrphansQuiet(a1)
    requires forall id :: Owned(a1, id) <==> if id == op.id then !op.kind.DropNode? else Owned(a, id)
    requires op.kind.PatchNode? ==> Owned(a, op.id)
    ensures NodesOk(a1, ops + [op]) && (PatchesFollowPuts(ops) ==> PatchesFollowPuts(ops + [op]))
  {
    LastOpSnoc(ops, op, op.id);
    forall id
      ensures Present(ops + [op], id) <==> if id == op.id then !op.kind.DropNode? else Present(ops, id)
      ensures Owned(a1, id) <==> if id == op.id then !op.kind.DropNode? else Owned(a, id)
    {
      LastOpSnoc(ops, op, id);
    }
  }

  lemma SameKeeps(a: Agent, ops: seq<NodeOp>, a1: Agent)
    requires NodesOk(a, ops) && OrphansQuiet(a1) && forall id :: Owned(a1, id) <==> Owned(a, id)
    ensures NodesOk(a1, ops)
  {
    forall id
      ensures Present(ops, id) <==> Owned(a1, id)
    {
      assert Owned(a1, id) <==> Owned(a, id);
    }
  }

  lemma WritesSnoc(items: seq<Item>, i: Item)
    ensures Writes(items + [i]) == if i.Node? then Writes(items) + [i.op] else Writes(items)
  {
    assert (items + [i])[..|items|] == items;
  }

  lemma {:induction false} WritesJoin(x: seq<Item>, y: seq<Item>)
    ensures Writes(x + y) == Writes(x) + Writes(y)
    decreases |y|
  {
    if y == [] {
      assert x + y == x;
    } else {
      var z, i := y[..|y| - 1], y[|y| - 1];
      WritesJoin(x, z);
      assert x + y == (x + z) + [i];
      assert y == z + [i];
      WritesSnoc(x + z, i);
      WritesSnoc(z, i);
      if i.Node? {
        assert (Writes(x) + Writes(z)) + [i.op] == Writes(x) + (Writes(z) + [i.op]);
      }
    }
  }

  /** The writes of each short list of items the agent makes. */
  lemma WritesOf(id: string, op: NodeOp, ok: bool)
    ensures Writes([Node(op)]) == [op] && Writes([AckEvent(id, ok)]) == []
    ensures Writes([Node(op), AckEvent(id, ok)]) == [op]
    ensures Writes([RequestEvent(id), Node(op)]) == [op] && Writes([ClearEvent(id), Node(op)]) == [op]
    ensures Writes([AckEvent(id, ok), ClearEvent(id), Node(op)]) == [op]
  {
    assert [] + [Node(op)] == [Node(op)] && [] + [AckEvent(id, ok)] == [AckEvent(id, ok)];
    WritesSnoc([], Node(op));
    WritesSnoc([], AckEvent(id, ok));
    assert [Node(op)] + [AckEvent(id, ok)] == [Node(op), AckEvent(id, ok)];
    WritesSnoc([Node(op)], AckEvent(id, ok));
    assert [] + [RequestEvent(id)] == [RequestEvent(id)] && [] + [ClearEvent(id)] == [ClearEvent(id)];
    WritesSnoc([], RequestEvent(id));
    WritesSnoc([], ClearEvent(id));
    assert [RequestEvent(id)] + [Node(op)] == [RequestEvent(id), Node(op)];
    WritesSnoc([RequestEvent(id)], Node(op));
    assert [ClearEvent(id)] + [Node(op)] == [ClearEvent(id), Node(op)];
    WritesSnoc([ClearEvent(id)], Node(op));
    assert [AckEvent(id, ok)] + [ClearEvent(id), Node(op)] == [AckEvent(id, ok), ClearEvent(id), Node(op)];
    WritesJoin([AckEvent(id, ok)], [ClearEvent(id), Node(op)]);
  }

  // ---------------------------------------------------------------- every input

  lemma RequestStep(a: Agent, ops: seq<NodeOp>, id: string)
    requires NodesOk(a, ops) && PatchesFollowPuts(ops)
    ensures var (a1, items) := OnRequest(a, id);
            NodesOk(a1, ops + Writes(items)) && PatchesFollowPuts(ops + Writes(items))
  {
    if id in a.sos || id in a.closed {
      assert ops + Writes([]) == ops;
    } else {
      WritesOf(id, NodeOp(PutNode, id), true);
      WriteKeeps(a, ops, OnRequest(a, id).0, NodeOp(PutNode, id));
    }
  }

  lemma ItemsWrites(patch: bool, id: string)
    ensures Writes(Items(patch, id, [])) == if patch then [NodeOp(PatchNode, id)] else []
    ensures Writes(Items(patch, id, [AckEvent(id, false)])) == if patch then [NodeOp(PatchNode, id)] else []
  {
    var op := NodeOp(PatchNode, id);
    WritesOf(id, op, false);
    WritesJoin([Node(op)], [AckEvent(id, false)]);
    assert [Node(op)] + [] == [Node(op)];
  }

  /** An acknowledgement changes neither which alarms are open nor which of them are orphans. */
  lemma AckAgent(a: Agent, id: string, received: bool, dueAt: real)
    requires OrphansQuiet(a)
    ensures var a1 := OnAck(a, id, received, dueAt).0;
            OrphansQuiet(a1) && forall x :: Owned(a1, x) <==> Owned(a, x)
  {
  }

  lemma AckWrites(a: Agent, id: string, received: bool, dueAt: real)
    ensures var items := OnAck(a, id, received, dueAt).1;
            Writes(items) == [] || (Writes(items) == [NodeOp(PatchNode, id)] && Owned(a, id))
  {
    ItemsWrites(true, id);
    ItemsWrites(false, id);
  }

  lemma AckStep(a: Agent, ops: seq<NodeOp>, id: string, received: bool, dueAt: real)
    requires NodesOk(a, ops) && PatchesFollowPuts(ops)
    ensures var (a1, items) := OnAck(a, id, received, dueAt);
            NodesOk(a1, ops + Writes(items)) && PatchesFollowPuts(ops + Writes(items))
  {
    var (a1, items) := OnAck(a, id, received, dueAt);
    AckWrites(a, id, received, dueAt);
    AckAgent(a, id, received, dueAt);
    if Writes(items) == [] {
      assert ops + Writes(items) == ops;
      SameKeeps(a, ops, a1);
    } else {
      WriteKeeps(a, ops, a1, NodeOp(PatchNode, id));
    }
  }

  lemma LocationStep(a: Agent, ops: seq<NodeOp>, id: string, rank: nat)
    requires NodesOk(a, ops) && PatchesFollowPuts(ops)
    ensures var (a1, items) := OnLocation(a, id, rank);
            NodesOk(a1, ops + Writes(items)) && PatchesFollowPuts(ops + Writes(items))
  {
    var (a1, items) := OnLocation(a, id, rank);
    if items == [] {
      assert ops + Writes(items) == ops;
      SameKeeps(a, ops, a1);
    } else {
      WritesOf(id, NodeOp(PatchNode, id), true);
      WriteKeeps(a, ops, a1, NodeOp(PatchNode, id));
    }
  }

  lemma ClearStep(a: Agent, ops: seq<NodeOp>, id: string)
    requires NodesOk(a, ops) && PatchesFollowPuts(ops)
    ensures var (a1, items) := OnClear(a, id);
            NodesOk(a1, ops + Writes(items)) && PatchesFollowPuts(ops + Writes(items))
  {
    if id in a.closed {
      assert ops + Writes([]) == ops;
    } else {
      ClearWrites(a, id);
      WriteKeeps(a, ops, OnClear(a, id).0, NodeOp(DropNode, id));
    }
  }

  lemma ClearWrites(a: Agent, id: string)
    requires id !in a.closed
    ensures Writes(OnClear(a, id).1) == [NodeOp(DropNode, id)]
  {
    var op, ok := NodeOp(DropNode, id), id in a.sos && a.sos[id].received;
    WritesOf(id, op, ok);
    assert [] + [ClearEvent(id), Node(op)] == [ClearEvent(id), Node(op)];
    assert [AckEvent(id, ok)] + [ClearEvent(id), Node(op)] == [AckEvent(id, ok), ClearEvent(id), Node(op)];
  }

  lemma DueStep(a: Agent, ops: seq<NodeOp>, id: string, now: real)
    requires NodesOk(a, ops)
    ensures var (a1, items) := OnDue(a, id, now);
            Writes(items) == [] && NodesOk(a1, ops)
  {
    WritesOf(id, NodeOp(PutNode, id), id in a.sos && a.sos[id].received);
    SameKeeps(a, ops, OnDue(a, id, now).0);
  }

  /** A sweep drops exactly the nodes it does not know, none of which the agent holds. */
  lemma {:induction false} SweepSteps(a: Agent, ops: seq<NodeOp>, ids: seq<string>)
    requires NodesOk(a, ops) && PatchesFollowPuts(ops)
    ensures var (closed, items) := SweepAll(a.closed, Live(a), ids);
            NodesOk(a.(closed := closed), ops + Writes(items)) && PatchesFollowPuts(ops + Writes(items))
    decreases |ids|
  {
    if ids == [] {
      assert ops + Writes([]) == ops;
    } else {
      SweepSteps(a, ops, ids[..|ids| - 1]);
      var id := ids[|ids| - 1];
      var (closed, items) := SweepAll(a.closed, Live(a), ids[..|ids| - 1]);
      if id !in Live(a) {
        var op := NodeOp(DropNode, id);
        WritesJoin(items, [ClearEvent(id), Node(op)]);
        WritesOf(id, op, true);
        assert ops + (Writes(items) + [op]) == (ops + Writes(items)) + [op];
        WriteKeeps(a.(closed := closed), ops + Writes(items), a.(closed := Remember(closed, id)), op);
      }
    }
  }

  lemma StepKeeps(a: Agent, ops: seq<NodeOp>, i: Input)
    requires NodesOk(a, ops) && PatchesFollowPuts(ops)
    ensures var (a1, items) := React(a, i);
            NodesOk(a1, ops + Writes(items)) && PatchesFollowPuts(ops + Writes(items))
  {
    match i
    case Requested(id) => RequestStep(a, ops, id);
    case Acked(id, received, dueAt) => AckStep(a, ops, id, received, dueAt);
    case Located(id, rank) => LocationStep(a, ops, id, rank);
    case Cleared(id) => ClearStep(a, ops, id);
    case Due(id, now) =>
      DueStep(a, ops, id, now);
      assert ops + [] == ops;
    case Swept(ids) => SweepSteps(a, ops, ids);
  }

  /** Whatever arrives, in whatever order: the agent patches a node only if it put it before in this run
      and has not dropped it since, and the nodes it has put and not dropped are exactly those of the
      alarms it holds and saw the request of. */
  lemma {:induction false} PatchOnlyAfterPut(h: seq<Input>)
    ensures PatchesFollowPuts(Writes(Queued(h))) && NodesOk(After(h), Writes(Queued(h)))
    decreases |h|
  {
    if h != [] {
      var a, i := After(h[..|h| - 1]), h[|h| - 1];
      PatchOnlyAfterPut(h[..|h| - 1]);
      StepKeeps(a, Writes(Queued(h[..|h| - 1])), i);
      WritesJoin(Queued(h[..|h| - 1]), React(a, i).1);
    }
  }
}
