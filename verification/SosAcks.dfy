/** Acknowledgement events of alarms: a success is recorded at most once in the life of an alarm. */
module SosAcks {
  import opened Words
  import opened SosLog

  /** How many successes were recorded for `id` since it was last closed. */
  function Successes(items: seq<Item>, id: string): nat {
    if items == [] then 0
    else
      var before := Successes(items[..|items| - 1], id);
      match items[|items| - 1]
      case AckEvent(i, ok) => if i == id && ok then before + 1 else before
      case ClearEvent(i) => if i == id then 0 else before
      case _ => before
  }

  /** No success follows another one for the same alarm before it is closed. */
  predicate OnceEach(items: seq<Item>) {
    items == [] ||
    (var before, last := items[..|items| - 1], items[|items| - 1];
     OnceEach(before) && (last.AckEvent? && last.ok ==> Successes(before, last.id) == 0))
  }

  ghost predicate CountsOk(a: Agent, items: seq<Item>) {
    OnceEach(items) &&
    forall id :: Successes(items, id) == if id in a.sos && a.sos[id].ackEmitted then 1 else 0
  }

  lemma Snoc(items: seq<Item>, i: Item)
    ensures OnceEach(items + [i]) <==> OnceEach(items) && (i.AckEvent? && i.ok ==> Successes(items, i.id) == 0)
    ensures forall id ::
              Successes(items + [i], id) ==
                if i.AckEvent? && i.ok && i.id == id then Successes(items, id) + 1
                else if i.ClearEvent? && i.id == id then 0 else Successes(items, id)
  {
    assert (items + [i])[..|items|] == items;
  }

  /** Items that are neither successes nor closings count for nothing. */
  lemma Quiet(items: seq<Item>, i: Item)
    requires i.Node? || i.RequestEvent? || (i.AckEvent? && !i.ok)
    ensures OnceEach(items + [i]) <==> OnceEach(items)
    ensures forall id :: Successes(items + [i], id) == Successes(items, id)
  {
    Snoc(items, i);
  }

  lemma Split(out: seq<Item>, x: Item, y: Item)
    ensures out + [x, y] == (out + [x]) + [y]
  {
  }

  lemma RequestStep(a: Agent, out: seq<Item>, id: string)
    requires CountsOk(a, out)
    ensures CountsOk(OnRequest(a, id).0, out + OnRequest(a, id).1)
  {
    if id in a.sos || id in a.closed {
      assert out + [] == out;
    } else {
      Split(out, RequestEvent(id), Node(NodeOp(PutNode, id)));
      Quiet(out, RequestEvent(id));
      Quiet(out + [RequestEvent(id)], Node(NodeOp(PutNode, id)));
    }
  }

  lemma ItemsQuiet(out: seq<Item>, patch: bool, id: string, fail: bool)
    ensures var items := Items(patch, id, if fail then [AckEvent(id, false)] else []);
            (OnceEach(out + items) <==> OnceEach(out)) && forall x :: Successes(out + items, x) == Successes(out, x)
  {
    var op := Node(NodeOp(PatchNode, id));
    assert out + [] == out && [op] + [] == [op] && [op] + [AckEvent(id, false)] == [op, AckEvent(id, false)];
    Quiet(out, op);
    Quiet(out, AckEvent(id, false));
    Quiet(out + [op], AckEvent(id, false));
    Split(out, op, AckEvent(id, false));
  }

  /** Hearing an acknowledgement records no success yet. */
  lemma AckStep(a: Agent, out: seq<Item>, id: string, received: bool, dueAt: real)
    requires CountsOk(a, out)
    ensures CountsOk(OnAck(a, id, received, dueAt).0, out + OnAck(a, id, received, dueAt).1)
  {
    if id in a.closed {
      assert out + [] == out;
    } else {
      var e := if id in a.sos then a.sos[id] else ORPHAN_ENTRY;
      ItemsQuiet(out, e.received != received && !e.orphan, id, !received && !e.failEmitted);
    }
  }

  lemma LocationStep(a: Agent, out: seq<Item>, id: string, rank: nat)
    requires CountsOk(a, out)
    ensures CountsOk(OnLocation(a, id, rank).0, out + OnLocation(a, id, rank).1)
  {
    Quiet(out, Node(NodeOp(PatchNode, id)));
    assert out + [] == out;
  }

  lemma ClosedStep(a: Agent, out: seq<Item>, id: string)
    requires CountsOk(a, out)
    ensures CountsOk(Agent(Drop(a.sos, id), Remember(a.closed, id)), out + [ClearEvent(id), Node(NodeOp(DropNode, id))])
  {
    Split(out, ClearEvent(id), Node(NodeOp(DropNode, id)));
    Snoc(out, ClearEvent(id));
    Quiet(out + [ClearEvent(id)], Node(NodeOp(DropNode, id)));
  }

  lemma ClearStep(a: Agent, out: seq<Item>, id: string)
    requires CountsOk(a, out)
    ensures CountsOk(OnClear(a, id).0, out + OnClear(a, id).1)
  {
    if id in a.closed {
      assert out + [] == out;
    } else if id in a.sos && a.sos[id].ackDue.Some? && !a.sos[id].ackEmitted {
      var ack, tail := AckEvent(id, a.sos[id].received), [ClearEvent(id), Node(NodeOp(DropNode, id))];
      var a1 := a.(sos := a.sos[id := Ack(a.sos[id])]);
      Snoc(out, ack);
      assert CountsOk(a1, out + [ack]);
      ClosedStep(a1, out + [ack], id);
      assert Drop(a1.sos, id) == Drop(a.sos, id);
      assert out + ([ack] + tail) == (out + [ack]) + tail;
    } else {
      ClosedStep(a, out, id);
      assert [] + [ClearEvent(id), Node(NodeOp(DropNode, id))] == [ClearEvent(id), Node(NodeOp(DropNode, id))];
    }
  }

  lemma DueStep(a: Agent, out: seq<Item>, id: string, now: real)
    requires CountsOk(a, out)
    ensures CountsOk(OnDue(a, id, now).0, out + OnDue(a, id, now).1)
  {
    if id in a.sos {
      Snoc(out, AckEvent(id, a.sos[id].received));
    }
    assert out + [] == out;
  }

  lemma {:induction false} SweepStep(a: Agent, out: seq<Item>, ids: seq<string>)
    requires CountsOk(a, out)
    ensures var (closed, items) := SweepAll(a.closed, Live(a), ids); CountsOk(a.(closed := closed), out + items)
    decreases |ids|
  {
    if ids == [] {
      assert out + [] == out;
    } else {
      var id := ids[|ids| - 1];
      var (closed, items) := SweepAll(a.closed, Live(a), ids[..|ids| - 1]);
      SweepStep(a, out, ids[..|ids| - 1]);
      if id !in Live(a) {
        ClosedStep(a.(closed := closed), out + items, id);
        assert Drop(a.sos, id) == a.sos;
        assert out + (items + [ClearEvent(id), Node(NodeOp(DropNode, id))]) ==
               (out + items) + [ClearEvent(id), Node(NodeOp(DropNode, id))];
      }
    }
  }

  /** Whatever arrives, an alarm is recorded as answered at most once between its opening and its
      closing, and exactly if the agent remembers having done so. */
  lemma {:induction false} AnsweredOnce(h: seq<Input>)
    ensures CountsOk(After(h), Queued(h))
    decreases |h|
  {
    if h != [] {
      var a, out, i := After(h[..|h| - 1]), Queued(h[..|h| - 1]), h[|h| - 1];
      AnsweredOnce(h[..|h| - 1]);
      match i
      case Requested(id) => RequestStep(a, out, id);
      case Acked(id, received, dueAt) => AckStep(a, out, id, received, dueAt);
      case Located(id, rank) => LocationStep(a, out, id, rank);
      case Cleared(id) => ClearStep(a, out, id);
      case Due(id, now) => DueStep(a, out, id, now);
      case Swept(ids) => SweepStep(a, out, ids);
    }
  }
}
