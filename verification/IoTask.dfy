/** The IO task's side of the command path as the object that owns the receive ring, the line assembler
    and the reply line: interrupt entry points, fault synchronisation, and the polling loop, against the
    receive state of MotorPath. */
module IoTask {
  import opened Words
  import opened MotorPath
  import R = RxRing
  import G = AsciiGrammar
  import P = ProtocolAscii
  import C = ControlTask
  import S = ControlSpec

  /** How many lines end in the text s, pushed into the assembler. */
  function Ended(p: P.Proto, s: string): nat {
    if s == "" then 0
    else
      var n := |s| - 1;
      Ended(p, s[..n]) + if P.Push(P.PushAll(p, s[..n]), s[n]).1.Nothing? then 0 else 1
  }

  lemma OneMore(p: P.Proto, s: string, k: nat)
    requires k < |s|
    ensures P.PushAll(p, s[..k + 1]) == P.Push(P.PushAll(p, s[..k]), s[k]).0
    ensures Ended(p, s[..k + 1]) == Ended(p, s[..k]) + if P.Push(P.PushAll(p, s[..k]), s[k]).1.Nothing? then 0 else 1
  {
    assert s[..k + 1][..k] == s[..k] && s[..k + 1][k] == s[k];
  }

  /** The reply to command `awaited`: its own result, with the values applied, if it was applied. */
  function ReplyTo(waited: Option<S.Result>, awaited: u32): Reply {
    if waited.Some? && waited.value.seq_ == awaited && waited.value.kind.Applied? then
      Ok(waited.value.appliedMs, waited.value.left, waited.value.right)
    else Err
  }

  class Io {
    const ring: R.Buffer
    const parser: P.Assembler
    const control: C.Task
    var epoch: u32
    var seen: u32
    var cmdSeq: u32
    var spdOn: bool
    var sent: seq<Reply>
    ghost var rx: Rx
    ghost var posted: seq<Post>

    ghost predicate Apart() {
      ring.buf != parser.buf
    }

    /** The objects hold what the receive state says. */
    ghost predicate Valid()
      reads this, ring, ring.buf, parser, parser.buf
    {
      && Apart() && ring.Ok() && parser.Ok()
      && rx.ring == R.Contents(ring.Value()) && rx.proto == parser.State() && rx.epoch == epoch && rx.seen == seen
    }

    /** Everything posted so far came from an exact line. */
    ghost predicate Exact()
      reads this
    {
      RxOk(rx) && forall p :: p in posted ==> ExactLine(rx.history, p.a, p.b, p.line)
    }

    constructor (task: C.Task)
      ensures Valid() && Exact() && fresh(ring) && fresh(ring.buf) && fresh(parser) && fresh(parser.buf)
      ensures control == task && sent == [] && cmdSeq == 0 && posted == []
    {
      ring := new R.Buffer();
      parser := new P.Assembler();
      control := task;
      epoch, seen, cmdSeq, spdOn, sent := 0, 0, 0, false, [];
      rx := Rx("", 0, 0, P.FRESH, [], 0, 0, 0);
      posted := [];
      new;
      assert Clean([], 0, "");
    }

    /** app_on_uart_error */
    method OnUartError()
      requires Valid()
      modifies this`epoch, this`rx, control`bits, control`pending
      ensures Valid() && rx == Faulted(old(rx)) && control.bits.fault
    {
      epoch := Next(epoch);
      control.CallStop({});
      rx := Faulted(rx);
    }

    /** app_on_rx_byte for a byte that arrived intact: kept if there is room, else the line is doomed and
        the motors are stopped. */
    method OnRxByte(c: char)
      requires Valid()
      modifies this`epoch, this`rx, ring, ring.buf, control`bits, control`pending
      ensures Valid() && rx == OnByte(old(rx), c, false)
      ensures |old(rx).ring| >= RING_ROOM ==> control.bits.fault
    {
      var ok := ring.PushByte(c);
      if !ok {
        epoch := Next(epoch);
        control.CallStop({});
      }
      rx := OnByte(rx, c, false);
    }

    /** sync_rx_faults */
    method SyncRxFaults() returns (synced: bool)
      requires Valid()
      modifies this`seen, this`rx, ring`tail, parser, control`bits, control`pending
      ensures Valid() && synced == FaultPending(old(rx))
      ensures rx == if synced then Resync(old(rx)) else old(rx)
      ensures synced ==> control.bits.fault
    {
      if epoch == seen {
        return false;
      }
      ring.DiscardAll();
      seen := epoch;
      parser.Spoil();
      control.CallStop({});
      rx := Resync(rx);
      synced := true;
    }

    method SendReply(r: Reply)
      modifies this`sent
      ensures sent == old(sent) + [r]
    {
      sent := sent + [r];
    }

    /** command_accept, with what the wait for the control task gives. The line stands at arrivals a..b. A
        receive fault that came in since the line was taken is synchronised and answered with err: nothing
        is posted and no setting changes. */
    method Accept(line: G.Line, now: u32, waited: Option<S.Result>, ghost a: nat, ghost b: nat)
      requires Valid()
      modifies this`seen, this`cmdSeq, this`spdOn, this`sent, this`posted, this`rx, ring`tail, parser
      modifies control`cmdBox, control`bits, control`pending
      ensures Valid()
      ensures rx == if FaultPending(old(rx)) then Resync(old(rx)) else old(rx)
      ensures if FaultPending(old(rx)) then
                && sent == old(sent) + [Err] && control.bits.fault
                && cmdSeq == old(cmdSeq) && spdOn == old(spdOn) && posted == old(posted)
                && control.cmdBox == old(control.cmdBox)
              else if line.Spd? then
                && sent == old(sent) + [Ok(now, line.on, line.on)] && spdOn == (line.on != 0)
                && cmdSeq == old(cmdSeq) && posted == old(posted) && control.cmdBox == old(control.cmdBox)
              else
                && cmdSeq == Next(old(cmdSeq)) && spdOn == old(spdOn)
                && control.cmdBox == Some(CommandOf(line, cmdSeq, now)) && control.bits.cmd
                && posted == old(posted) + [Post(CommandOf(line, cmdSeq, now), now, line, a, b)]
                && sent == old(sent) + [ReplyTo(waited, cmdSeq)]
    {
      var synced := SyncRxFaults();
      if synced {
        SendReply(Err);
        return;
      }
      if line.Spd? {
        spdOn := line.on != 0;
        SendReply(Ok(now, line.on, line.on));
        return;
      }
      PostMotion(line, now, a, b);
      Acknowledge(waited);
    }

    /** The command goes to the control task under the next sequence number. */
    method PostMotion(line: G.Line, now: u32, ghost a: nat, ghost b: nat)
      modifies this`cmdSeq, this`posted, control`cmdBox, control`bits
      ensures cmdSeq == Next(old(cmdSeq)) && control.cmdBox == Some(CommandOf(line, cmdSeq, now))
      ensures control.bits == old(control.bits).(cmd := true)
      ensures posted == old(posted) + [Post(CommandOf(line, cmdSeq, now), now, line, a, b)]
    {
      cmdSeq := Next(cmdSeq);
      var cmd := CommandOf(line, cmdSeq, now);
      control.PostCommand(cmd);
      posted := posted + [Post(cmd, now, line, a, b)];
    }

    /** The reply, by what the wait gave and the faults seen meanwhile. */
    method Acknowledge(waited: Option<S.Result>)
      modifies this`sent
      ensures sent == old(sent) + [if epoch == seen then ReplyTo(waited, cmdSeq) else Err]
    {
      var result := if waited.Some? then waited.value else NO_RESULT;
      var ack := Decide(waited.Some?, cmdSeq, result, epoch != seen);
      if ack.AckOk? {
        SendReply(Ok(result.appliedMs, result.left, result.right));
      } else {
        SendReply(Err);
      }
    }

    /** One byte from the ring through the parser. */
    method TakeByte() returns (e: P.Event)
      requires Valid() && rx.ring != ""
      modifies this`rx, ring`tail, parser, parser.buf
      ensures Valid() && (rx, e) == Take(old(rx))
    {
      var c, ok := ring.PopByte();
      e := parser.PushChar(c);
      rx := Take(rx).0;
    }

    /** Synchronises with the receive faults; is there a byte to go on with? */
    method Ready() returns (go: bool)
      requires Valid() && Exact()
      modifies this`seen, this`rx, ring`tail, parser, control`bits, control`pending
      ensures Valid() && Exact()
      ensures go <==> !FaultPending(old(rx)) && old(rx).ring != ""
      ensures rx == if FaultPending(old(rx)) then Resync(old(rx)) else old(rx)
    {
      ResyncOk(rx);
      var synced := SyncRxFaults();
      if synced {
        return false;
      }
      go := ring.head != ring.tail;
    }

    /** One byte, with no fault to synchronise; a command it completes is an exact line. */
    method TakeExact() returns (e: P.Event)
      requires Valid() && Exact() && rx.ring != "" && !FaultPending(rx)
      modifies this`rx, ring`tail, parser, parser.buf
      ensures Valid() && Exact() && (rx, e) == Take(old(rx)) && !FaultPending(rx)
      ensures e.Command? ==> ExactLine(rx.history, old(rx).from, rx.taken, e.cmd)
    {
      TakeOk(rx);
      PendingIsUnsynced(rx);
      e := TakeByte();
    }

    /** command_accept for an exact line. */
    method AcceptExact(line: G.Line, now: u32, waited: Option<S.Result>, ghost a: nat, ghost b: nat)
      requires Valid() && Exact() && !FaultPending(rx) && ExactLine(rx.history, a, b, line)
      modifies this`seen, this`cmdSeq, this`spdOn, this`sent, this`posted, this`rx, ring`tail, parser
      modifies control`cmdBox, control`bits, control`pending
      ensures Valid() && Exact() && rx == old(rx) && |sent| == |old(sent)| + 1
    {
      Accept(line, now, waited, a, b);
    }

    /** One byte, and what the line it may end calls for: a refusal or a command. */
    method Consume(now: u32, waited: Option<S.Result>) returns (ended: bool)
      requires Valid() && Exact() && rx.ring != "" && !FaultPending(rx)
      modifies this, ring`tail, parser, parser.buf, control`cmdBox, control`bits, control`pending
      ensures Valid() && Exact() && rx == Take(old(rx)).0
      ensures ended == !Take(old(rx)).1.Nothing?
      ensures |sent| == (|old(sent)| + if ended then 1 else 0) && (!ended ==> sent == old(sent))
    {
      ghost var from := rx.from;
      var e := TakeExact();
      match e {
        case Nothing =>
          ended := false;
        case Reject =>
          SendReply(Err);
          ended := true;
        case Command(line) =>
          AcceptExact(line, now, waited, from, rx.taken);
          ended := true;
      }
    }

    /** One turn of the polling loop; `go` is that there was a byte and no fault. */
    method Turn(now: u32, waited: Option<S.Result>) returns (go: bool, ended: bool)
      requires Valid() && Exact()
      modifies this, ring`tail, parser, parser.buf, control`cmdBox, control`bits, control`pending
      ensures Valid() && Exact() && (go <==> !FaultPending(old(rx)) && old(rx).ring != "")
      ensures rx == if go then Take(old(rx)).0 else if FaultPending(old(rx)) then Resync(old(rx)) else old(rx)
      ensures ended ==> go
      ensures go ==> ended == !Take(old(rx)).1.Nothing?
      ensures |sent| == (|old(sent)| + if ended then 1 else 0) && (!ended ==> sent == old(sent))
    {
      go := Ready();
      ended := false;
      if go {
        ended := Consume(now, waited);
      }
    }

    /** The same as a part of a poll that began at rx0. */
    method PollTurn(now: u32, waited: Option<S.Result>, ghost rx0: Rx, ghost bytes: nat, ghost lines: nat)
      returns (go: bool, ended: bool)
      requires Valid() && Exact() && Polling(rx0, rx, bytes, lines)
      modifies this, ring`tail, parser, parser.buf, control`cmdBox, control`bits, control`pending
      ensures Valid() && Exact() && (ended ==> go)
      ensures if go then Polling(rx0, rx, bytes + 1, lines + if ended then 1 else 0) else Polled(rx0, rx, bytes, lines)
      ensures |sent| == (|old(sent)| + if ended then 1 else 0) && (!ended ==> sent == old(sent))
    {
      ghost var before := rx;
      go, ended := Turn(now, waited);
      TurnPolled(rx0, before, rx, bytes, lines, go, ended);
    }

    /** command_poll, with its limits (CMD_POLL_MAX_BYTES and CMD_POLL_MAX_LINES) as parameters. With a
        receive fault to synchronise it does that alone. Otherwise it takes a stretch of the ring: all of
        it, or as much as the limits allow; the assembler has seen exactly that stretch, and each line
        that ended in it has got one reply. waits[k] is what waiting for the k-th line's command would
        give. */
    method Poll(now: u32, waits: seq<Option<S.Result>>, maxBytes: nat, maxLines: nat) returns (bytes: nat)
      requires Valid() && Exact() && |waits| >= maxLines > 0 && maxBytes > 0
      modifies this, ring`tail, parser, parser.buf, control`cmdBox, control`bits, control`pending
      ensures Valid() && Exact()
      ensures FaultPending(old(rx)) ==> rx == Resync(old(rx)) && sent == old(sent) && bytes == 0
      ensures !FaultPending(old(rx)) ==>
                var lines := |sent| - |old(sent)|;
                && 0 <= lines <= maxLines && bytes <= maxBytes && Part(old(rx), rx, bytes, lines)
                && (bytes == maxBytes || lines == maxLines || bytes == |old(rx).ring|)
    {
      ghost var rx0 := rx;
      bytes := 0;
      var lines := 0;
      while bytes < maxBytes && lines < maxLines
        invariant Valid() && Exact() && lines <= maxLines && bytes <= maxBytes
        invariant |sent| == |old(sent)| + lines && (lines == 0 ==> sent == old(sent))
        invariant Polling(rx0, rx, bytes, lines)
      {
        var go, ended := PollTurn(now, waits[lines], rx0, bytes, lines);
        if !go {
          return;
        }
        bytes := bytes + 1;
        if ended {
          lines := lines + 1;
        }
      }
    }
  }

  /** A poll under way: nothing done with a fault to synchronise, else some of the ring taken. */
  predicate Polling(rx0: Rx, rx: Rx, bytes: nat, lines: nat) {
    if FaultPending(rx0) then rx == rx0 && bytes == 0 && lines == 0
    else !FaultPending(rx) && Part(rx0, rx, bytes, lines)
  }

  /** A poll that ended for want of a byte, or for the fault. */
  predicate Polled(rx0: Rx, rx1: Rx, bytes: nat, lines: nat) {
    if FaultPending(rx0) then rx1 == Resync(rx0) && bytes == 0 && lines == 0
    else Part(rx0, rx1, bytes, lines) && bytes == |rx0.ring|
  }

  /** One turn takes a poll a byte further, or ends it. */
  lemma TurnPolled(rx0: Rx, rx: Rx, rx1: Rx, bytes: nat, lines: nat, go: bool, ended: bool)
    requires Polling(rx0, rx, bytes, lines) && (go <==> !FaultPending(rx) && rx.ring != "")
    requires rx1 == if go then Take(rx).0 else if FaultPending(rx) then Resync(rx) else rx
    requires go ==> ended == !Take(rx).1.Nothing?
    ensures go ==> Polling(rx0, rx1, bytes + 1, lines + if ended then 1 else 0)
    ensures !go ==> Polled(rx0, rx1, bytes, lines)
  {
    if go {
      PartMore(rx0, rx, rx1, bytes, lines, ended);
    }
  }

  lemma PartMore(rx0: Rx, rx: Rx, rx1: Rx, bytes: nat, lines: nat, ended: bool)
    requires Part(rx0, rx, bytes, lines) && rx.ring != "" && rx1 == Take(rx).0 && ended == !Take(rx).1.Nothing?
    ensures Part(rx0, rx1, bytes + 1, lines + if ended then 1 else 0) && FaultPending(rx1) == FaultPending(rx)
  {
    OneMore(rx0.proto, rx0.ring, bytes);
  }

  /** rx1 has taken the first `bytes` characters of the ring of rx, and `lines` lines ended in them. */
  predicate Part(rx: Rx, rx1: Rx, bytes: nat, lines: nat) {
    && bytes <= |rx.ring| && rx1.ring == rx.ring[bytes..]
    && rx1.proto == P.PushAll(rx.proto, rx.ring[..bytes]) && lines == Ended(rx.proto, rx.ring[..bytes])
  }
}
