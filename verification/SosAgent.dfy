/** The alarm part of the telemetry agent as the object the callbacks change, against SosLog. */
module SosAgent {
  import opened Words
  import opened SosLog

  class TelemetryAgent {
    var sos: map<string, Entry>
    var closed: seq<string>
    /** what was handed to the outbox, in order */
    var outbox: seq<Item>

    ghost function Value(): Agent
      reads this
    {
      Agent(sos, closed)
    }

    constructor ()
      ensures Value() == FRESH && outbox == []
    {
      sos, closed, outbox := map[], [], [];
    }

    method Queue(i: Item)
      modifies this`outbox
      ensures outbox == old(outbox) + [i]
    {
      outbox := outbox + [i];
    }

    /** `sos_closed.append` */
    method Append(id: string)
      modifies this`closed
      ensures closed == Remember(old(closed), id)
    {
      closed := closed + [id];
      if |closed| > CLOSED_KEPT {
        closed := closed[|closed| - CLOSED_KEPT..];
      }
    }

    method OnSosRequest(id: string)
      modifies this
      ensures (Value(), outbox) == (OnRequest(old(Value()), id).0, old(outbox) + OnRequest(old(Value()), id).1)
    {
      if id in sos || id in closed {
        assert outbox + [] == outbox;
        return;
      }
      ghost var before := outbox;
      sos := sos[id := NEW_ENTRY];
      Queue(RequestEvent(id));
      Queue(Node(NodeOp(PutNode, id)));
      assert outbox == before + [RequestEvent(id), Node(NodeOp(PutNode, id))];
    }

    /** _emit_sos_ack, for an entry just looked up */
    method EmitAck(id: string, e: Entry)
      modifies this`sos, this`outbox
      ensures sos == old(sos)[id := Ack(e)] && outbox == old(outbox) + [AckEvent(id, e.received)]
    {
      Queue(AckEvent(id, e.received));
      var e1 := e;
      if e.received {
        e1 := e1.(ackEmitted := true);
      }
      sos := sos[id := e1.(ackDue := None)];
    }

    method OnSosAck(id: string, received: bool, dueAt: real)
      modifies this
      ensures (Value(), outbox) ==
              (OnAck(old(Value()), id, received, dueAt).0, old(outbox) + OnAck(old(Value()), id, received, dueAt).1)
    {
      if id in closed {
        assert outbox + [] == outbox;
        return;
      }
      var e := if id in sos then sos[id] else ORPHAN_ENTRY;
      var changed := e.received != received;
      e := e.(received := received);
      ghost var before := outbox;
      if changed && !e.orphan {
        Queue(Node(NodeOp(PatchNode, id)));
      }
      assert outbox == before + Items(changed && !e.orphan, id, []);
      if !received {
        if !e.failEmitted {
          EmitAck(id, e.(failEmitted := true));
          assert outbox == before + Items(changed && !e.orphan, id, [AckEvent(id, false)]);
          return;
        }
      } else if !e.ackEmitted && e.ackDue.None? {
        e := e.(ackDue := Some(dueAt));
      }
      sos := sos[id := e];
    }

    method OnSosLocation(id: string, rank: nat)
      modifies this
      ensures Value() == OnLocation(old(Value()), id, rank).0
      ensures outbox == old(outbox) + OnLocation(old(Value()), id, rank).1
    {
      assert outbox + [] == outbox;
      if rank == 0 || id !in sos || rank < sos[id].bestRank {
        return;
      }
      var e := sos[id].(bestRank := rank);
      if e.updates < MAX_LOCATION_UPDATES {
        e := e.(updates := e.updates + 1);
        Queue(Node(NodeOp(PatchNode, id)));
      }
      sos := sos[id := e];
    }

    method OnSosClear(id: string)
      modifies this
      ensures (Value(), outbox) == (OnClear(old(Value()), id).0, old(outbox) + OnClear(old(Value()), id).1)
    {
      if id in closed {
        assert outbox + [] == outbox;
        return;
      }
      ghost var before := outbox;
      var late := id in sos && sos[id].ackDue.Some? && !sos[id].ackEmitted;
      if late {
        Queue(AckEvent(id, sos[id].received));
      }
      sos := sos - {id};
      Append(id);
      Queue(ClearEvent(id));
      Queue(Node(NodeOp(DropNode, id)));
      assert outbox == before + OnClear(old(Value()), id).1;
    }

    /** What the timer does for one open alarm. */
    method OnSosDue(id: string, now: real)
      modifies this
      ensures (Value(), outbox) == (OnDue(old(Value()), id, now).0, old(outbox) + OnDue(old(Value()), id, now).1)
    {
      assert outbox + [] == outbox;
      if id in sos && sos[id].ackDue.Some? && now >= sos[id].ackDue.value && !sos[id].ackEmitted {
        EmitAck(id, sos[id]);
      }
    }

    /** _sweep_stale_sos, with the keys it read. */
    method SweepStaleSos(keys: seq<string>)
      modifies this
      ensures (Value(), outbox) == (OnSweep(old(Value()), keys).0, old(outbox) + OnSweep(old(Value()), keys).1)
    {
      var live := sos.Keys + set id | id in closed;
      ghost var a := Value();
      assert live == Live(a);
      for k := 0 to |keys|
        invariant sos == old(sos) && closed == SweepAll(a.closed, live, keys[..k]).0
        invariant outbox == old(outbox) + SweepAll(a.closed, live, keys[..k]).1
      {
        assert keys[..k + 1][..k] == keys[..k];
        if keys[k] !in live {
          Append(keys[k]);
          Queue(ClearEvent(keys[k]));
          Queue(Node(NodeOp(DropNode, keys[k])));
        }
      }
      assert keys[..|keys|] == keys;
    }
  }
}
