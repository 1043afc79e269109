/** What the agent makes of every message about an alarm, in the words of the history: when alarms are open,
    which answers are recorded and when, and which locations are written. */
module SosEvents {
  import opened Words
  import opened SosLog

  // ---------------------------------------------------------------- opening and closing

  /** Message k opened the alarm, and nobody has cleared it since. */
  predicate OpensAt(h: seq<Input>, id: string, k: nat)
    requires k < |h|
  {
    && ((h[k].Requested? && h[k].id == id) || (h[k].Acked? && h[k].id == id)) && id !in After(h[..k]).closed
    && forall j :: k < j < |h| ==> h[j] != Cleared(id)
  }

  ghost predicate Open(h: seq<Input>, id: string) { exists k: nat :: k < |h| && OpensAt(h, id, k) }

  /** The identifiers of the clear events among some items. */
  function ClearedIds(items: seq<Item>): seq<string> {
    if items == [] then []
    else
      var before := ClearedIds(items[..|items| - 1]);
      match items[|items| - 1]
      case ClearEvent(id) => before + [id]
      case _ => before
  }

  /** The last sixty-four. */
  function Latest(ids: seq<string>): seq<string> { if |ids| > 64 then ids[|ids| - 64..] else ids }

  lemma OpensSnoc(h: seq<Input>, x: Input, id: string, k: nat)
    requires k <= |h|
    ensures OpensAt(h + [x], id, k) <==>
            if k == |h| then (x.Requested? || x.Acked?) && x.id == id && id !in After(h).closed
            else OpensAt(h, id, k) && x != Cleared(id)
  {
    var h1 := h + [x];
    assert h1[|h|] == x && h1[..|h|] == h;
    assert forall j :: 0 <= j < |h| ==> h1[j] == h[j] && h1[..j] == h[..j];
  }

  /** No open alarm is among those remembered as closed. */
  ghost predicate Apart(a: Agent) { forall id :: id in a.sos ==> id !in a.closed }

  lemma {:induction false} SweptIds(closed: seq<string>, live: set<string>, ids: seq<string>, id: string)
    ensures id in SweepAll(closed, live, ids).0 ==> id in closed || id !in live
    ensures ClearEvent(id) in SweepAll(closed, live, ids).1 <==> id in ids && id !in live
    ensures forall i :: i in SweepAll(closed, live, ids).1 ==> i.ClearEvent? || (i.Node? && i.op.kind.DropNode?)
    decreases |ids|
  {
    if ids != [] {
      SweptIds(closed, live, ids[..|ids| - 1], id);
      assert ids == ids[..|ids| - 1] + [ids[|ids| - 1]];
    }
  }

  lemma ApartStep(a: Agent, x: Input)
    requires Apart(a)
    ensures Apart(React(a, x).0)
  {
    if x.Swept? {
      forall id | id in a.sos
        ensures id !in React(a, x).0.closed
      {
        SweptIds(a.closed, Live(a), x.ids, id);
      }
    }
  }

  lemma {:induction false} ApartAlways(h: seq<Input>)
    ensures Apart(After(h))
    decreases |h|
  {
    if h != [] {
      ApartAlways(h[..|h| - 1]);
      ApartStep(After(h[..|h| - 1]), h[|h| - 1]);
    }
  }

  lemma OpenStep(a: Agent, x: Input, id: string)
    requires Apart(a)
    ensures id in React(a, x).0.sos <==>
            (id in a.sos && x != Cleared(id)) || ((x.Requested? || x.Acked?) && x.id == id && id !in a.closed)
  {
  }

  /** An alarm is open exactly from a request or an answer for it, unless it is remembered as closed, until
      it is cleared. */
  lemma {:induction false} OpenExactly(h: seq<Input>, id: string)
    ensures id in After(h).sos <==> Open(h, id)
    decreases |h|
  {
    if h != [] {
      var h0, x := h[..|h| - 1], h[|h| - 1];
      assert h == h0 + [x];
      OpenExactly(h0, id);
      ApartAlways(h0);
      OpenStep(After(h0), x, id);
      OpensSnoc(h0, x, id, |h0|);
      if Open(h0, id) {
        var k: nat :| k < |h0| && OpensAt(h0, id, k);
        OpensSnoc(h0, x, id, k);
      }
      if Open(h, id) {
        var k: nat :| k < |h| && OpensAt(h, id, k);
        OpensSnoc(h0, x, id, k);
      }
    }
  }

  lemma {:induction false} ClearedIdsJoin(x: seq<Item>, y: seq<Item>)
    ensures ClearedIds(x + y) == ClearedIds(x) + ClearedIds(y)
    decreases |y|
  {
    if y == [] {
      assert x + y == x;
    } else {
      assert (x + y)[..|x + y| - 1] == x + y[..|y| - 1];
      ClearedIdsJoin(x, y[..|y| - 1]);
    }
  }

  lemma LatestJoin(ids: seq<string>, id: string)
    ensures Remember(Latest(ids), id) == Latest(ids + [id])
  {
  }

  /** Items none of which closes an alarm. */
  lemma {:induction false} NoClears(items: seq<Item>)
    requires forall i :: i in items ==> !i.ClearEvent?
    ensures ClearedIds(items) == []
    decreases |items|
  {
    if items != [] {
      assert forall i :: i in items[..|items| - 1] ==> i in items;
      NoClears(items[..|items| - 1]);
    }
  }

  lemma OneClear(before: seq<Item>, id: string)
    requires forall i :: i in before ==> !i.ClearEvent?
    ensures ClearedIds(before + [ClearEvent(id), Node(NodeOp(DropNode, id))]) == [id]
  {
    var items := before + [ClearEvent(id), Node(NodeOp(DropNode, id))];
    NoClears(before);
    assert items[..|before| + 1] == before + [ClearEvent(id)];
    assert (before + [ClearEvent(id)])[..|before|] == before;
    assert items[..|items| - 1] == before + [ClearEvent(id)];
  }

  lemma {:induction false} SweepClears(out: seq<string>, live: set<string>, ids: seq<string>)
    ensures SweepAll(Latest(out), live, ids).0 == Latest(out + ClearedIds(SweepAll(Latest(out), live, ids).1))
    decreases |ids|
  {
    if ids == [] {
      assert out + [] == out;
    } else {
      var id, items := ids[|ids| - 1], SweepAll(Latest(out), live, ids[..|ids| - 1]).1;
      SweepClears(out, live, ids[..|ids| - 1]);
      if id !in live {
        var tail := [ClearEvent(id), Node(NodeOp(DropNode, id))];
        ClearedIdsJoin(items, tail);
        OneClear([], id);
        assert [] + tail == tail;
        LatestJoin(out + ClearedIds(items), id);
        assert out + ClearedIds(items) + [id] == out + (ClearedIds(items) + [id]);
      }
    }
  }

  lemma ClosedStep(a: Agent, out: seq<string>, x: Input)
    requires a.closed == Latest(out)
    ensures React(a, x).0.closed == Latest(out + ClearedIds(React(a, x).1))
  {
    var items := React(a, x).1;
    if x.Swept? {
      SweepClears(out, Live(a), x.ids);
    } else if x.Cleared? && x.id !in a.closed {
      var late := items[..|items| - 2];
      assert items == late + [ClearEvent(x.id), Node(NodeOp(DropNode, x.id))];
      OneClear(late, x.id);
      LatestJoin(out, x.id);
    } else {
      NoClears(items);
      assert out + [] == out;
    }
  }

  /** The alarms remembered as closed are the last sixty-four for which a clear event was queued. */
  lemma {:induction false} ClosedExactly(h: seq<Input>)
    ensures After(h).closed == Latest(ClearedIds(Queued(h)))
    decreases |h|
  {
    if h != [] {
      var h0 := h[..|h| - 1];
      ClosedExactly(h0);
      ClosedStep(After(h0), ClearedIds(Queued(h0)), h[|h| - 1]);
      ClearedIdsJoin(Queued(h0), React(After(h0), h[|h| - 1]).1);
    }
  }

  /** A node is put, behind the event of the request, by exactly those requests whose alarm is neither open
      nor remembered as closed. */
  lemma PutExactly(h: seq<Input>, x: Input, id: string)
    ensures var items := React(After(h), x).1;
            && (Node(NodeOp(PutNode, id)) in items <==>
                  x == Requested(id) && !Open(h, id) && id !in Latest(ClearedIds(Queued(h))))
            && (Node(NodeOp(PutNode, id)) in items ==> items == [RequestEvent(id), Node(NodeOp(PutNode, id))])
  {
    OpenExactly(h, id);
    ClosedExactly(h);
    PutItems(After(h), x, id);
  }

  lemma PutItems(a: Agent, x: Input, id: string)
    ensures var items := React(a, x).1;
            && (Node(NodeOp(PutNode, id)) in items <==> x == Requested(id) && id !in a.sos && id !in a.closed)
            && (Node(NodeOp(PutNode, id)) in items ==> items == [RequestEvent(id), Node(NodeOp(PutNode, id))])
  {
    if x.Swept? {
      SweptIds(a.closed, Live(a), x.ids, id);
    } else if x.Acked? {
      AckItems(a, x.id, x.received, x.dueAt, id);
    }
  }

  /** A clear event is queued by exactly those messages that clear an alarm not remembered as closed, and by
      a sweep that finds a node of an alarm neither open nor so remembered. */
  lemma ClearExactly(h: seq<Input>, x: Input, id: string)
    ensures ClearEvent(id) in React(After(h), x).1 <==>
            && id !in Latest(ClearedIds(Queued(h)))
            && (x == Cleared(id) || (x.Swept? && id in x.ids && !Open(h, id)))
  {
    OpenExactly(h, id);
    ClosedExactly(h);
    ClearItems(After(h), x, id);
  }

  lemma ClearItems(a: Agent, x: Input, id: string)
    ensures ClearEvent(id) in React(a, x).1 <==>
            id !in a.closed && (x == Cleared(id) || (x.Swept? && id in x.ids && id !in a.sos))
  {
    if x.Swept? {
      SweptIds(a.closed, Live(a), x.ids, id);
    } else if x.Acked? {
      AckItems(a, x.id, x.received, x.dueAt, id);
    }
  }

  lemma AckItems(a: Agent, x: string, received: bool, dueAt: real, id: string)
    ensures ClearEvent(id) !in OnAck(a, x, received, dueAt).1
    ensures Node(NodeOp(PutNode, id)) !in OnAck(a, x, received, dueAt).1
  {
  }

  // ---------------------------------------------------------------- answers

  /** Whether an answer of this kind was recorded for the alarm since it was last closed. */
  predicate Recorded(items: seq<Item>, id: string, ok: bool) {
    items != [] &&
    var before := Recorded(items[..|items| - 1], id, ok);
    match items[|items| - 1]
    case AckEvent(i, o) => before || (i == id && o == ok)
    case ClearEvent(i) => before && i != id
    case _ => before
  }

  /** The last answer heard for the alarm since it was last cleared; no answer is a negative one. */
  predicate Heard(h: seq<Input>, id: string) {
    h != [] &&
    var before := Heard(h[..|h| - 1], id);
    match h[|h| - 1]
    case Acked(x, received, _) => if x == id && id !in After(h[..|h| - 1]).closed then received else before
    case Cleared(x) => before && x != id
    case _ => before
  }

  /** When an answer is to be recorded: set by the first positive answer with none recorded yet, taken back
      by a negative one that is recorded itself, and done with once the time has come or the alarm is cleared. */
  function Promised(h: seq<Input>, id: string): Option<real> {
    if h == [] then None
    else
      var h0 := h[..|h| - 1];
      var p := Promised(h0, id);
      match h[|h| - 1]
      case Acked(x, received, dueAt) =>
        if x != id || id in After(h0).closed then p
        else if !received then if Recorded(Queued(h0), id, false) then p else None
        else if p.None? && !Recorded(Queued(h0), id, true) then Some(dueAt) else p
      case Due(x, now) => if x == id && p.Some? && now >= p.value then None else p
      case Cleared(x) => if x == id then None else p
      case _ => p
  }

  lemma RecordedSnoc(items: seq<Item>, i: Item, id: string, ok: bool)
    ensures Recorded(items + [i], id, ok) <==>
            (Recorded(items, id, ok) && i != ClearEvent(id)) || i == AckEvent(id, ok)
  {
    assert (items + [i])[..|items|] == items;
  }

  predicate Quiet(items: seq<Item>, id: string) {
    forall i :: i in items ==> i != AckEvent(id, true) && i != AckEvent(id, false) && i != ClearEvent(id)
  }

  lemma {:induction false} QuietRecords(out: seq<Item>, items: seq<Item>, id: string, ok: bool)
    requires forall i :: i in items ==> i != AckEvent(id, ok)
    ensures Recorded(out + items, id, ok) ==> Recorded(out, id, ok)
    ensures Quiet(items, id) ==> Recorded(out + items, id, ok) == Recorded(out, id, ok)
    decreases |items|
  {
    if items == [] {
      assert out + items == out;
    } else {
      var before, last := items[..|items| - 1], items[|items| - 1];
      assert items == before + [last] && out + items == (out + before) + [last];
      assert last in items && forall i :: i in before ==> i in items;
      QuietRecords(out, before, id, ok);
      RecordedSnoc(out + before, last, id, ok);
    }
  }

  /** What the agent remembers of the answers for an alarm is what was heard, promised and recorded. */
  ghost predicate AnswersOk(a: Agent, out: seq<Item>, heard: bool, promised: Option<real>, id: string) {
    if id in a.sos then
      var e := a.sos[id];
      && e.received == heard && e.ackDue == promised && (promised.Some? ==> !e.ackEmitted)
      && (e.ackEmitted <==> Recorded(out, id, true)) && (e.failEmitted <==> Recorded(out, id, false))
    else !heard && promised.None? && !Recorded(out, id, true) && !Recorded(out, id, false)
  }

  lemma OtherItems(a: Agent, id: string, x: Input)
    requires x.Requested? || x.Located? || x.Swept? || x.id != id
    ensures var (a1, items) := React(a, x);
            && AckEvent(id, true) !in items && AckEvent(id, false) !in items
            && (id in a.sos || !x.Swept? ==> Quiet(items, id))
            && (id !in a.sos && id in a1.sos ==> a1.sos[id] == NEW_ENTRY)
            && (id in a.sos ==> id in a1.sos && var e, e1 := a.sos[id], a1.sos[id];
                  e1 == e.(bestRank := e1.bestRank, updates := e1.updates))
  {
    if x.Swept? {
      SweptIds(a.closed, Live(a), x.ids, id);
    }
  }

  /** Messages about other alarms, and those that are no answers, leave all that alone. */
  lemma OtherStep(a: Agent, out: seq<Item>, heard: bool, promised: Option<real>, id: string, x: Input)
    requires AnswersOk(a, out, heard, promised, id) && Apart(a)
    requires x.Requested? || x.Located? || x.Swept? || x.id != id
    ensures var (a1, items) := React(a, x); AnswersOk(a1, out + items, heard, promised, id)
  {
    var items := React(a, x).1;
    OtherItems(a, id, x);
    QuietRecords(out, items, id, true);
    QuietRecords(out, items, id, false);
  }

  lemma AckStep(a: Agent, out: seq<Item>, heard: bool, promised: Option<real>, id: string, received: bool, dueAt: real)
    requires AnswersOk(a, out, heard, promised, id) && id !in a.closed
    ensures var (a1, items) := OnAck(a, id, received, dueAt);
            var p1 := if !received then if Recorded(out, id, false) then promised else None
                      else if promised.None? && !Recorded(out, id, true) then Some(dueAt) else promised;
            AnswersOk(a1, out + items, received, p1, id)
  {
    var e := if id in a.sos then a.sos[id] else ORPHAN_ENTRY;
    var patch := Items(e.received != received && !e.orphan, id, []);
    QuietRecords(out, patch, id, true);
    QuietRecords(out, patch, id, false);
    RecordedSnoc(out + patch, AckEvent(id, false), id, true);
    RecordedSnoc(out + patch, AckEvent(id, false), id, false);
    if !received && !e.failEmitted {
      assert out + OnAck(a, id, received, dueAt).1 == (out + patch) + [AckEvent(id, false)];
    }
  }

  lemma ClearStep(a: Agent, out: seq<Item>, heard: bool, promised: Option<real>, id: string)
    requires AnswersOk(a, out, heard, promised, id) && Apart(a)
    ensures var (a1, items) := OnClear(a, id); AnswersOk(a1, out + items, false, None, id)
  {
    var items := OnClear(a, id).1;
    if id in a.closed {
      assert out + items == out;
    } else {
      var n := |items| - 2;
      assert out + items == ((out + items[..n]) + [ClearEvent(id)]) + [Node(NodeOp(DropNode, id))];
      forall ok: bool
        ensures !Recorded(out + items, id, ok)
      {
        RecordedSnoc(out + items[..n], ClearEvent(id), id, ok);
        RecordedSnoc((out + items[..n]) + [ClearEvent(id)], Node(NodeOp(DropNode, id)), id, ok);
      }
    }
  }

  lemma DueStep(a: Agent, out: seq<Item>, heard: bool, promised: Option<real>, id: string, now: real)
    requires AnswersOk(a, out, heard, promised, id)
    requires id in a.sos && !a.sos[id].received && a.sos[id].ackDue.Some? ==> a.sos[id].failEmitted
    ensures var (a1, items) := OnDue(a, id, now);
            AnswersOk(a1, out + items, heard, if promised.Some? && now >= promised.value then None else promised, id)
  {
    RecordedSnoc(out, AckEvent(id, heard), id, true);
    RecordedSnoc(out, AckEvent(id, heard), id, false);
    assert out + [] == out;
  }

  predicate PromisesFailed(a: Agent) {
    forall id :: id in a.sos && !a.sos[id].received && a.sos[id].ackDue.Some? ==> a.sos[id].failEmitted
  }

  lemma PromiseFailedStep(a: Agent, x: Input)
    requires PromisesFailed(a)
    ensures PromisesFailed(React(a, x).0)
  {
  }

  /** A promise that survives a negative answer means that one was recorded. */
  lemma {:induction false} PromiseFailed(h: seq<Input>)
    ensures PromisesFailed(After(h))
    decreases |h|
  {
    if h != [] {
      PromiseFailed(h[..|h| - 1]);
      PromiseFailedStep(After(h[..|h| - 1]), h[|h| - 1]);
    }
  }

  lemma {:induction false} AnswersAlways(h: seq<Input>, id: string)
    ensures AnswersOk(After(h), Queued(h), Heard(h, id), Promised(h, id), id)
    decreases |h|
  {
    if h != [] {
      var h0, x := h[..|h| - 1], h[|h| - 1];
      var a, out, heard, p := After(h0), Queued(h0), Heard(h0, id), Promised(h0, id);
      AnswersAlways(h0, id);
      ApartAlways(h0);
      if x.Acked? && x.id == id {
        if id in a.closed {
          assert out + [] == out;
        } else {
          AckStep(a, out, heard, p, id, x.received, x.dueAt);
        }
      } else if x == Cleared(id) {
        ClearStep(a, out, heard, p, id);
      } else if x.Due? && x.id == id {
        PromiseFailed(h0);
        DueStep(a, out, heard, p, id, x.now);
      } else {
        OtherStep(a, out, heard, p, id, x);
      }
    }
  }

  /** The time of a promised answer has come, or the alarm is cleared before. */
  predicate Redeems(promised: Option<real>, x: Input, id: string) {
    promised.Some? && ((x.Due? && x.id == id && x.now >= promised.value) || x == Cleared(id))
  }

  /** Exactly which answers are recorded. A success is by exactly those messages that redeem a promise when
      the last answer heard is positive, alone or ahead of the clear event; a failure is by the first negative
      answer since the alarm was last closed, and by those that redeem a promise when the last answer heard is
      negative. */
  lemma AnswersExactly(h: seq<Input>, x: Input, id: string)
    ensures var items, redeems := React(After(h), x).1, Redeems(Promised(h, id), x, id);
            && (AckEvent(id, true) in items <==> redeems && Heard(h, id))
            && (AckEvent(id, false) in items <==>
                  || (redeems && !Heard(h, id))
                  || (x.Acked? && x.id == id && !x.received && id !in After(h).closed &&
                      !Recorded(Queued(h), id, false)))
            && (redeems ==> items == [AckEvent(id, Heard(h, id))] +
                                     if x.Cleared? then [ClearEvent(id), Node(NodeOp(DropNode, id))] else [])
  {
    AnswersAlways(h, id);
    ApartAlways(h);
    AnswerItems(After(h), Queued(h), Heard(h, id), Promised(h, id), id, x);
  }

  lemma AnswerItems(a: Agent, out: seq<Item>, heard: bool, promised: Option<real>, id: string, x: Input)
    requires AnswersOk(a, out, heard, promised, id) && Apart(a)
    ensures var items, redeems := React(a, x).1, Redeems(promised, x, id);
            && (AckEvent(id, true) in items <==> redeems && heard)
            && (AckEvent(id, false) in items <==>
                  || (redeems && !heard)
                  || (x.Acked? && x.id == id && !x.received && id !in a.closed && !Recorded(out, id, false)))
            && (redeems ==> items == [AckEvent(id, heard)] +
                                     if x.Cleared? then [ClearEvent(id), Node(NodeOp(DropNode, id))] else [])
  {
    if x.Requested? || x.Located? || x.Swept? || x.id != id {
      OtherItems(a, id, x);
    }
  }

  /** An answer changes the node exactly when it is not the answer the node shows. */
  lemma AckPatchExactly(h: seq<Input>, id: string, received: bool, dueAt: real)
    ensures Node(NodeOp(PatchNode, id)) in React(After(h), Acked(id, received, dueAt)).1 <==>
            Owned(After(h), id) && Heard(h, id) != received
  {
    AnswersAlways(h, id);
    ApartAlways(h);
  }

  /** Messages that leave a promise for time `due` standing, and the answer positive. */
  predicate Spares(x: Input, id: string, due: real) {
    !(x.Acked? && x.id == id && !x.received) && x != Cleared(id) && !(x.Due? && x.id == id && x.now >= due)
  }

  lemma {:induction false} PromiseStands(h: seq<Input>, id: string, due: real, mid: seq<Input>)
    requires Promised(h, id) == Some(due) && Heard(h, id) && forall x :: x in mid ==> Spares(x, id, due)
    ensures Promised(h + mid, id) == Some(due) && Heard(h + mid, id)
    decreases |mid|
  {
    if mid == [] {
      assert h + mid == h;
    } else {
      var before, x := mid[..|mid| - 1], mid[|mid| - 1];
      assert mid == before + [x] && (h + mid)[..|h + mid| - 1] == h + before;
      PromiseStands(h, id, due, before);
      assert x in mid;
    }
  }

  /** Every success is recorded, once: after a positive answer for an alarm that is not remembered as closed
      and has no success recorded, whatever else comes, the first look at the clock from the time promised on,
      or the clearing of the alarm if it comes first, queues exactly one success, ahead of any clear event;
      unless a negative answer comes before. The time is that of the first positive answer still waiting. */
  lemma SuccessFollows(h: seq<Input>, id: string, d: real, mid: seq<Input>, x: Input)
    requires id !in After(h).closed && !Recorded(Queued(h), id, true)
    requires var due := if Promised(h, id).Some? then Promised(h, id).value else d;
             (forall y :: y in mid ==> Spares(y, id, due)) &&
             (x == Cleared(id) || (x.Due? && x.id == id && x.now >= due))
    ensures React(After(h + [Acked(id, true, d)] + mid), x).1 ==
            [AckEvent(id, true)] + if x.Cleared? then [ClearEvent(id), Node(NodeOp(DropNode, id))] else []
  {
    var h1 := h + [Acked(id, true, d)];
    assert h1[..|h|] == h;
    PromiseStands(h1, id, if Promised(h, id).Some? then Promised(h, id).value else d, mid);
    AnswersExactly(h1 + mid, x, id);
  }

  // ---------------------------------------------------------------- locations

  /** The ranks of the locations received for the alarm while it has been open. */
  function Ranks(h: seq<Input>, id: string): seq<nat> {
    if h == [] || id !in After(h).sos then []
    else
      var before, x := Ranks(h[..|h| - 1], id), h[|h| - 1];
      if x.Located? && x.id == id && x.rank > 0 then before + [x.rank] else before
  }

  predicate AtLeast(rank: nat, ranks: seq<nat>) { forall r :: r in ranks ==> r <= rank }

  /** How many of the ranks were at least all before them. */
  function Improvements(ranks: seq<nat>): nat {
    if ranks == [] then 0
    else
      var before, last := ranks[..|ranks| - 1], ranks[|ranks| - 1];
      Improvements(before) + if AtLeast(last, before) then 1 else 0
  }

  ghost predicate LocationsOk(a: Agent, ranks: seq<nat>, id: string) {
    if id in a.sos then
      var e := a.sos[id];
      && AtLeast(e.bestRank, ranks) && (if ranks == [] then e.bestRank == 0 else e.bestRank in ranks)
      && e.updates == if e.orphan || Improvements(ranks) > MAX_LOCATION_UPDATES then MAX_LOCATION_UPDATES
                      else Improvements(ranks)
    else ranks == []
  }

  lemma RanksSnoc(ranks: seq<nat>, rank: nat)
    ensures Improvements(ranks + [rank]) == Improvements(ranks) + if AtLeast(rank, ranks) then 1 else 0
  {
    assert (ranks + [rank])[..|ranks|] == ranks;
  }

  lemma LocatedStep(a: Agent, ranks: seq<nat>, id: string, rank: nat)
    requires LocationsOk(a, ranks, id) && id in a.sos && rank > 0
    ensures LocationsOk(OnLocation(a, id, rank).0, ranks + [rank], id)
  {
    RanksSnoc(ranks, rank);
  }

  lemma {:induction false} LocationsAlways(h: seq<Input>, id: string)
    ensures LocationsOk(After(h), Ranks(h, id), id)
    decreases |h|
  {
    if h != [] {
      var h0, x := h[..|h| - 1], h[|h| - 1];
      LocationsAlways(h0, id);
      if x.Located? && x.id == id && x.rank > 0 && id in After(h0).sos {
        LocatedStep(After(h0), Ranks(h0, id), id, x.rank);
      }
    }
  }

  /** A location is written at exactly those messages whose alarm is open and was requested, with a source
      of some rank and of no lower rank than any before for that alarm, and only the first three such. */
  lemma LocationExactly(h: seq<Input>, id: string, rank: nat)
    ensures React(After(h), Located(id, rank)).1 ==
            if rank > 0 && Owned(After(h), id) && AtLeast(rank, Ranks(h, id)) &&
               Improvements(Ranks(h, id)) < 3
            then [Node(NodeOp(PatchNode, id))] else []
  {
    LocationsAlways(h, id);
  }
}
