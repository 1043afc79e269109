/** The persistent queue of writes to the database: requests in order, the head retried until the
    database has answered, and what the database holds in the end. */
module Outbox {
  import opened Words

  datatype Verb = Put | Patch | Delete

  /** A record as the database keeps it: fields with values; a null field is no field. */
  type Fields = map<string, string>

  type Db = map<string, Fields>

  datatype Op = Op(id: nat, verb: Verb, path: string, body: map<string, Option<string>>, attempts: nat)

  function Overlay(f: Fields, body: map<string, Option<string>>): Fields {
    map k | k in f.Keys + body.Keys && (k in body ==> body[k].Some?) :: if k in body then body[k].value else f[k]
  }

  function At(db: Db, path: string): Fields { if path in db then db[path] else map[] }

  /** A record without fields does not exist. */
  function Store(db: Db, path: string, f: Fields): Db { if f == map[] then db - {path} else db[path := f] }

  function Write(db: Db, op: Op): Db {
    match op.verb
    case Put => Store(db, op.path, Overlay(map[], op.body))
    case Patch => Store(db, op.path, Overlay(At(db, op.path), op.body))
    case Delete => db - {op.path}
  }

  lemma OverlayTwice(f: Fields, body: map<string, Option<string>>)
    ensures Overlay(Overlay(f, body), body) == Overlay(f, body)
  {
  }

  lemma StoreTwice(db: Db, path: string, f: Fields)
    ensures Store(Store(db, path, f), path, f) == Store(db, path, f)
    ensures At(Store(db, path, f), path) == f
  {
  }

  /** Sending a request again changes nothing. */
  lemma WriteTwice(db: Db, op: Op)
    ensures Write(Write(db, op), op) == Write(db, op)
  {
    if op.verb.Patch? {
      var f := Overlay(At(db, op.path), op.body);
      StoreTwice(db, op.path, f);
      OverlayTwice(At(db, op.path), op.body);
    } else if op.verb.Put? {
      StoreTwice(db, op.path, Overlay(map[], op.body));
    }
  }

  /** The value of a field in a record, if it has one. */
  function Value(db: Db, path: string, key: string): Option<string> {
    if path in db && key in db[path] then Some(db[path][key]) else None
  }

  /** What each verb does to every field there is: a put leaves just the fields it gives, a patch changes just
      those, a drop leaves none; null takes a field away, and other records are not touched. */
  lemma WriteMeans(db: Db, op: Op, path: string, key: string)
    ensures Value(Write(db, op), path, key) ==
            if path != op.path then Value(db, path, key)
            else if op.verb.Delete? then None
            else if key in op.body then op.body[key]
            else if op.verb.Put? then None else Value(db, path, key)
    ensures path in Write(db, op) ==> path in db || (path == op.path && !op.verb.Delete?)
    ensures op.path in Write(db, op) ==> Write(db, op)[op.path] != map[]
    ensures path != op.path && path in db ==> path in Write(db, op) && Write(db, op)[path] == db[path]
  {
    var f := Overlay(if op.verb.Put? then map[] else At(db, op.path), op.body);
    assert key in f <==> (key in op.body && op.body[key].Some?) ||
                         (key !in op.body && op.verb != Put && key in At(db, op.path));
  }

  // ---------------------------------------------------------------- every pattern of failures

  /** What becomes of an attempt: written and answered, refused for good, or lost on the way there or on the
      way back. A request refused once may have been written by an attempt before. */
  datatype Outcome = Answered | Refused | RequestLost | AnswerLost

  predicate Stores(o: Outcome) { o.Answered? || o.AnswerLost? }

  predicate Final(o: Outcome) { o.Answered? || o.Refused? }

  /** A request that has left the queue: whether it was written at least once, and whether it was answered. */
  datatype Fate = Fate(op: Op, stored: bool, answered: bool)

  /** `stored` is whether the head has been written already; `gone` records the requests that have left the
      queue, and `puts` everything ever queued. */
  datatype Line = Line(queue: seq<Op>, db: Db, stored: bool, gone: seq<Fate>, puts: seq<Op>)

  function Boot(left: seq<Op>, db: Db): Line { Line(left, db, false, [], left) }

  datatype Step = Enqueue(op: Op) | Attempt(outcome: Outcome)

  predicate Enabled(l: Line, s: Step) { s.Attempt? ==> l.queue != [] }

  function Again(op: Op): Op { op.(attempts := op.attempts + 1) }

  function Next(l: Line, s: Step): Line
    requires Enabled(l, s)
  {
    match s
    case Enqueue(op) => l.(queue := l.queue + [op], puts := l.puts + [op])
    case Attempt(o) =>
      var h := l.queue[0];
      var stored := l.stored || Stores(o);
      var l1 := if Stores(o) then l.(db := Write(l.db, h)) else l;
      if Final(o) then l1.(queue := l.queue[1..], stored := false, gone := l.gone + [Fate(h, stored, o.Answered?)])
      else l1.(queue := l.queue[0 := Again(h)], stored := stored)
  }

  /** Where some steps lead, if each is possible in its turn. */
  function Reach(l: Line, steps: seq<Step>): Option<Line> {
    if steps == [] then Some(l)
    else
      match Reach(l, steps[..|steps| - 1])
      case Some(m) => if Enabled(m, steps[|steps| - 1]) then Some(Next(m, steps[|steps| - 1])) else None
      case None => None
  }

  /** The database after the requests written at least once, each applied once, in order. */
  function Effect(db: Db, gone: seq<Fate>): Db {
    if gone == [] then db
    else
      var before := Effect(db, gone[..|gone| - 1]);
      if gone[|gone| - 1].stored then Write(before, gone[|gone| - 1].op) else before
  }

  /** The same request, tried any number of times. */
  predicate Same(a: Op, b: Op) { a == b.(attempts := a.attempts) }

  /** The requests that have left and those that wait are those put, in order. */
  ghost predicate InOrder(l: Line) {
    && |l.puts| == |l.gone| + |l.queue|
    && (forall k :: 0 <= k < |l.gone| ==> Same(l.gone[k].op, l.puts[k]))
    && (forall k :: 0 <= k < |l.queue| ==> Same(l.queue[k], l.puts[|l.gone| + k]))
  }

  /** The database holds the effect of what has left, and of the head if that was written already. */
  ghost predicate OnCourse(l: Line, db0: Db) {
    && (l.stored ==> l.queue != [])
    && l.db == (if l.stored then Write(Effect(db0, l.gone), l.queue[0]) else Effect(db0, l.gone))
    && forall f :: f in l.gone && f.answered ==> f.stored
  }

  lemma EffectSnoc(db: Db, gone: seq<Fate>, f: Fate)
    ensures Effect(db, gone + [f]) == if f.stored then Write(Effect(db, gone), f.op) else Effect(db, gone)
  {
    assert (gone + [f])[..|gone|] == gone;
  }

  lemma SameWrite(db: Db, a: Op, b: Op)
    requires Same(a, b)
    ensures Write(db, a) == Write(db, b)
  {
  }

  lemma StepOrder(l: Line, s: Step)
    requires InOrder(l) && Enabled(l, s)
    ensures InOrder(Next(l, s))
  {
    match s
    case Enqueue(op) => PutOrder(l, op);
    case Attempt(o) => if Final(o) { LeaveOrder(l, s); } else { AgainOrder(l, s); }
  }

  lemma PutOrder(l: Line, op: Op)
    requires InOrder(l)
    ensures InOrder(Next(l, Enqueue(op)))
  {
  }

  lemma LeaveOrder(l: Line, s: Step)
    requires InOrder(l) && Enabled(l, s) && s.Attempt? && Final(s.outcome)
    ensures InOrder(Next(l, s))
  {
    assert Same(l.queue[0], l.puts[|l.gone|]);
  }

  lemma AgainOrder(l: Line, s: Step)
    requires InOrder(l) && Enabled(l, s) && s.Attempt? && !Final(s.outcome)
    ensures InOrder(Next(l, s))
  {
  }

  lemma StepKeeps(l: Line, s: Step, db0: Db)
    requires OnCourse(l, db0) && Enabled(l, s)
    ensures OnCourse(Next(l, s), db0)
  {
    if s.Attempt? {
      var h, before := l.queue[0], Effect(db0, l.gone);
      WriteTwice(before, h);
      SameWrite(before, Again(h), h);
      if Final(s.outcome) {
        EffectSnoc(db0, l.gone, Fate(h, l.stored || Stores(s.outcome), s.outcome.Answered?));
      }
    }
  }

  lemma {:induction false} RunKeeps(l: Line, db0: Db, steps: seq<Step>)
    requires InOrder(l) && OnCourse(l, db0) && Reach(l, steps).Some?
    ensures InOrder(Reach(l, steps).value) && OnCourse(Reach(l, steps).value, db0)
    ensures l.puts <= Reach(l, steps).value.puts
    decreases |steps|
  {
    if steps != [] {
      var before, s := steps[..|steps| - 1], steps[|steps| - 1];
      RunKeeps(l, db0, before);
      StepOrder(Reach(l, before).value, s);
      StepKeeps(Reach(l, before).value, s, db0);
    }
  }

  /** Step j of a run wrote the request that was k-th in the order of puts. */
  predicate StoresAt(l: Line, steps: seq<Step>, j: nat, k: nat)
    requires j < |steps|
  {
    && steps[j].Attempt? && Stores(steps[j].outcome)
    && Reach(l, steps[..j]).Some? && |Reach(l, steps[..j]).value.gone| == k
  }

  ghost predicate Stored(l: Line, steps: seq<Step>, k: nat) { exists j: nat :: j < |steps| && StoresAt(l, steps, j, k) }

  lemma StoredStep(l: Line, steps: seq<Step>, k: nat)
    requires steps != []
    ensures Stored(l, steps, k) <==>
            Stored(l, steps[..|steps| - 1], k) || StoresAt(l, steps, |steps| - 1, k)
  {
    var last := |steps| - 1;
    forall j: nat | j < last
      ensures StoresAt(l, steps[..last], j, k) == StoresAt(l, steps, j, k)
    {
      assert steps[..last][..j] == steps[..j];
    }
    if Stored(l, steps[..last], k) {
      var j: nat :| j < last && StoresAt(l, steps[..last], j, k);
      assert StoresAt(l, steps, j, k);
    }
  }

  /** The records of what was written are what the steps of the run did. */
  lemma {:induction false} RecordsAreTrue(left: seq<Op>, db0: Db, steps: seq<Step>)
    requires Reach(Boot(left, db0), steps).Some?
    ensures var l := Reach(Boot(left, db0), steps).value;
            && (forall k :: 0 <= k < |l.gone| ==> (l.gone[k].stored <==> Stored(Boot(left, db0), steps, k)))
            && (l.stored <==> Stored(Boot(left, db0), steps, |l.gone|))
            && (forall k :: k > |l.gone| ==> !Stored(Boot(left, db0), steps, k))
    decreases |steps|
  {
    if steps != [] {
      var l0, before, last := Boot(left, db0), steps[..|steps| - 1], |steps| - 1;
      RecordsAreTrue(left, db0, before);
      var m := Reach(l0, before).value;
      forall k: nat
        ensures Stored(l0, steps, k) <==>
                Stored(l0, before, k) || (steps[last].Attempt? && Stores(steps[last].outcome) && |m.gone| == k)
      {
        StoredStep(l0, steps, k);
      }
    }
  }

  /** Exactly once in effect: whatever was lost, refused and repeated in between, when the queue is empty
      each request, those left from earlier and those queued since, has left it in its turn, and the database
      holds what those that some attempt wrote give when each is applied once in the order they were queued;
      all that were answered are among them. */
  lemma DrainedIsOnce(db0: Db, left: seq<Op>, steps: seq<Step>)
    requires Reach(Boot(left, db0), steps).Some?
    requires Reach(Boot(left, db0), steps).value.queue == []
    ensures var l := Reach(Boot(left, db0), steps).value;
            && left <= l.puts && |l.gone| == |l.puts| && l.db == Effect(db0, l.gone)
            && forall k :: 0 <= k < |l.gone| ==>
                 && Same(l.gone[k].op, l.puts[k])
                 && (l.gone[k].stored <==> Stored(Boot(left, db0), steps, k))
                 && (l.gone[k].answered ==> l.gone[k].stored)
  {
    RunKeeps(Boot(left, db0), db0, steps);
    RecordsAreTrue(left, db0, steps);
  }

  // ---------------------------------------------------------------- one drain

  /** A drain sends heads until the queue is empty or a request is lost; net[k] is the fate of the k-th
      request it sends. */
  function Drained(l: Line, net: seq<Outcome>): Line
    requires |net| >= |l.queue|
    decreases |l.queue|
  {
    if l.queue == [] then l
    else
      var l1 := Next(l, Attempt(net[0]));
      if Final(net[0]) then Drained(l1, net[1..]) else l1
  }

  lemma {:induction false} ReachFirst(l: Line, s: Step, steps: seq<Step>)
    requires Enabled(l, s)
    ensures Reach(l, [s] + steps) == Reach(Next(l, s), steps)
    decreases |steps|
  {
    if steps == [] {
      assert [s] + steps == [s] && [s][..0] == [];
      assert Reach(l, [s][..0]) == Some(l);
    } else {
      assert ([s] + steps)[..|steps|] == [s] + steps[..|steps| - 1];
      ReachFirst(l, s, steps[..|steps| - 1]);
    }
  }

  /** A drain is a run of attempts at the head, so all that holds of runs holds of it. */
  lemma {:induction false} DrainIsRun(l: Line, net: seq<Outcome>) returns (steps: seq<Step>)
    requires |net| >= |l.queue|
    ensures Reach(l, steps) == Some(Drained(l, net)) && forall s :: s in steps ==> s.Attempt?
    decreases |l.queue|
  {
    steps := [];
    if l.queue != [] {
      var l1 := Next(l, Attempt(net[0]));
      if Final(net[0]) {
        steps := DrainIsRun(l1, net[1..]);
      }
      ReachFirst(l, Attempt(net[0]), steps);
      steps := [Attempt(net[0])] + steps;
    }
  }

  class Database {
    var nodes: Db

    constructor ()
      ensures nodes == map[]
    {
      nodes := map[];
    }

    /** One request with its fate; `ok` is that the client need not send it again. */
    method Request(op: Op, o: Outcome) returns (ok: bool)
      modifies this
      ensures nodes == if Stores(o) then Write(old(nodes), op) else old(nodes)
      ensures ok == Final(o)
    {
      if Stores(o) {
        nodes := Write(nodes, op);
      }
      ok := Final(o);
    }
  }

  /** The table of waiting requests, in the order of their ids. */
  class Queue {
    const maxOps: nat
    var ops: seq<Op>
    var nextId: nat

    ghost predicate Valid()
      reads this
    {
      && (forall i :: 0 <= i < |ops| ==> ops[i].id < nextId)
      && (forall i, j :: 0 <= i < j < |ops| ==> ops[i].id < ops[j].id)
    }

    constructor (max: nat)
      ensures Valid() && maxOps == max && ops == []
    {
      maxOps, ops, nextId := max, [], 0;
    }

    /** Outbox.put: appends, and drops the oldest while there are too many. */
    method Insert(m: Verb, path: string, body: map<string, Option<string>>) returns (id: nat)
      requires Valid()
      modifies this
      ensures Valid() && id == old(nextId)
      ensures var all := old(ops) + [Op(id, m, path, body, 0)];
              ops == if |all| > maxOps then all[|all| - maxOps..] else all
    {
      id := nextId;
      ops := ops + [Op(id, m, path, body, 0)];
      nextId := nextId + 1;
      if |ops| > maxOps {
        ops := ops[|ops| - maxOps..];
      }
    }

    /** Outbox.peek */
    method Peek(limit: nat) returns (batch: seq<Op>)
      ensures batch == ops[..if |ops| < limit then |ops| else limit]
    {
      batch := ops[..if |ops| < limit then |ops| else limit];
    }

    /** Outbox.done: the request with this id leaves, if there is one. */
    method Done(id: nat)
      requires Valid()
      modifies this`ops
      ensures Valid()
      ensures forall k :: 0 <= k < |old(ops)| && old(ops)[k].id == id ==> ops == old(ops)[..k] + old(ops)[k + 1..]
      ensures (forall k :: 0 <= k < |old(ops)| ==> old(ops)[k].id != id) ==> ops == old(ops)
    {
      var i := Find(id);
      if i < |ops| {
        ops := ops[..i] + ops[i + 1..];
      }
    }

    /** Outbox.failed: the request with this id counts an attempt, if there is one. */
    method Failed(id: nat)
      requires Valid()
      modifies this`ops
      ensures Valid()
      ensures forall k :: 0 <= k < |old(ops)| && old(ops)[k].id == id ==> ops == old(ops)[k := Again(old(ops)[k])]
      ensures (forall k :: 0 <= k < |old(ops)| ==> old(ops)[k].id != id) ==> ops == old(ops)
    {
      var i := Find(id);
      if i < |ops| {
        ops := ops[i := ops[i].(attempts := ops[i].attempts + 1)];
      }
    }

    /** The place of the request with this id, or the end. */
    method Find(id: nat) returns (i: nat)
      requires Valid()
      ensures i <= |ops| && (i < |ops| ==> ops[i].id == id)
      ensures forall k :: 0 <= k < |ops| && ops[k].id == id ==> k == i
    {
      i := 0;
      while i < |ops| && ops[i].id != id
        invariant i <= |ops| && forall k :: 0 <= k < i ==> ops[k].id != id
        decreases |ops| - i
      {
        i := i + 1;
      }
    }
  }

  /** One turn of the drain: the head is sent, and leaves or counts an attempt. */
  method SendHead(q: Queue, db: Database, head: Op, o: Outcome, ghost l: Line) returns (ok: bool)
    requires q.Valid() && q.ops != [] && head == q.ops[0] && l.queue == q.ops && l.db == db.nodes
    modifies q`ops, db
    ensures q.Valid() && ok == Final(o)
    ensures var l1 := Next(l, Attempt(o)); q.ops == l1.queue && db.nodes == l1.db
  {
    ok := db.Request(head, o);
    if ok {
      q.Done(head.id);
    } else {
      q.Failed(head.id);
    }
  }

  /** TelemetryAgent._drain: takes the queue in batches of twenty, but what it does is what sending one
      head after the other does. */
  method Drain(q: Queue, db: Database, net: seq<Outcome>, ghost l: Line)
    requires q.Valid() && |net| >= |q.ops| && l.queue == q.ops && l.db == db.nodes
    modifies q`ops, db
    ensures q.Valid() && q.ops == Drained(l, net).queue && db.nodes == Drained(l, net).db
  {
    var sent := 0;
    ghost var at := l;
    while true
      invariant q.Valid() && at.queue == q.ops && at.db == db.nodes
      invariant sent <= |net| && |net| - sent >= |q.ops|
      invariant Drained(at, net[sent..]) == Drained(l, net)
      decreases |q.ops|
    {
      var batch := q.Peek(20);
      if batch == [] {
        return;
      }
      var k := 0;
      ghost var waiting := |q.ops|;
      while k < |batch|
        invariant k <= |batch| && q.Valid() && at.queue == q.ops && at.db == db.nodes
        invariant batch[k..] <= q.ops && |q.ops| == waiting - k
        invariant sent <= |net| && |net| - sent >= |q.ops|
        invariant Drained(at, net[sent..]) == Drained(l, net)
      {
        assert q.ops[0] == batch[k];
        var ok := SendHead(q, db, batch[k], net[sent], at);
        at := Next(at, Attempt(net[sent]));
        if !ok {
          return;
        }
        assert net[sent..][1..] == net[sent + 1..];
        sent, k := sent + 1, k + 1;
      }
    }
  }
}
