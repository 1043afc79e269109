/** What whole histories of the trip state machine keep: how a stop ends, what a confirmed stop rests
    on, and that nothing starts moving again by itself. */
module MissionRuns {
  import opened Words
  import opened MissionSpec

  // ---------------------------------------------------------------- one input

  /** Following is asked for only by a start, and leaving the moving states always asks for it to
      stop; nothing else changes what the follow node was last told while the robot may move. */
  lemma OrdersMatchMovement(c: Config, m: Machine, i: Input)
    ensures var (m1, orders) := React(c, m, i);
            && |orders| <= 1
            && (true in orders <==> i.StartTrip? && !OnTrip(m))
            && (true in orders ==> Moving(m1))
            && (Moving(m) && !Moving(m1) ==> orders == [false])
            && (!Moving(m) && Moving(m1) ==> i.StartTrip?)
  {
  }

  // ---------------------------------------------------------------- how a stop ends

  lemma {:induction false} AfterJoin(c: Config, m: Machine, h: seq<Input>, t: seq<Input>)
    ensures After(c, m, h + t) == After(c, After(c, m, h), t)
    decreases |t|
  {
    if t == [] {
      assert h + t == h;
    } else {
      assert (h + t)[..|h + t| - 1] == h + t[..|t| - 1];
      AfterJoin(c, m, h, t[..|t| - 1]);
    }
  }

  /** The machine is in state s after every prefix of h. */
  ghost predicate StaysIn(c: Config, m: Machine, h: seq<Input>, s: State) {
    forall n :: 0 <= n <= |h| ==> After(c, m, h[..n]).state == s
  }

  /** Which state a machine that is stopping may be in next: none but the two ends, and only a clock
      tick leads there. */
  lemma CancellingStep(c: Config, m: Machine, i: Input)
    requires m.state.Cancelling?
    ensures var m1 := React(c, m, i).0;
            && (m1.state.Cancelling? ==> m1.entered == m.entered)
            && (!m1.state.Cancelling? ==> i.Clock? && (m1.state.Cancelled? || m1.state.Failed?))
            && (i.Clock? && i.now - m.entered > c.stopTimeout ==> !m1.state.Cancelling?)
  {
  }

  /** A stop never hangs: while the machine is stopping, whatever else arrives, the time it began does
      not move, and no tick came later than the stop timeout after it. */
  lemma {:induction false} CancellingEnds(c: Config, m: Machine, h: seq<Input>)
    requires m.state.Cancelling? && StaysIn(c, m, h, Cancelling)
    ensures After(c, m, h).entered == m.entered
    ensures forall i :: i in h && i.Clock? ==> i.now - m.entered <= c.stopTimeout
    decreases |h|
  {
    if h != [] {
      var n := |h| - 1;
      assert forall k :: 0 <= k <= n ==> h[..n][..k] == h[..k];
      assert h[..n + 1] == h;
      CancellingEnds(c, m, h[..n]);
      CancellingStep(c, After(c, m, h[..n]), h[n]);
      assert h == h[..n] + [h[n]];
    }
  }

  /** The same for a start that never gets an answer. */
  lemma {:induction false} StartingEnds(c: Config, m: Machine, h: seq<Input>)
    requires m.state.Starting? && StaysIn(c, m, h, Starting)
    ensures After(c, m, h).entered == m.entered
    ensures forall i :: i in h && i.Clock? ==> i.now - m.entered <= c.enableTimeout
    decreases |h|
  {
    if h != [] {
      var n := |h| - 1;
      assert forall k :: 0 <= k <= n ==> h[..n][..k] == h[..k];
      assert h[..n + 1] == h;
      StartingEnds(c, m, h[..n]);
      assert h == h[..n] + [h[n]];
    }
  }

  /** A disable that failed during a stop is ordered again at the first tick after the retry time, unless
      the stop has timed out by then, and not twice. */
  lemma FailedDisableIsRetried(c: Config, m: Machine, t: real, now: real, later: real)
    requires m.state.Cancelling? && m.disableOkAt.None? && now - m.entered <= c.stopTimeout
    ensures var m1 := EnableResult(c, m, t, false, false).0;
            var (m2, orders) := Tick(c, m1, now);
            && (orders == [false] <==> now >= t + c.disableRetry) && (orders != [false] ==> orders == [] && m2 == m1)
            && (orders == [false] ==> m2.state.Cancelling? && Tick(c, m2, later).1 == [])
  {
  }

  // ---------------------------------------------------------------- no way back by itself

  /** Once the robot is stopping or stopped, no input but a new start sets it moving: not a late
      answer, not the marker, not the end of an alarm. */
  lemma {:induction false} NoAutomaticResume(c: Config, m: Machine, h: seq<Input>)
    requires !Moving(m) && forall i :: i in h ==> !i.StartTrip?
    ensures !Moving(After(c, m, h))
    decreases |h|
  {
    if h != [] {
      assert forall i :: i in h[..|h| - 1] ==> i in h;
      NoAutomaticResume(c, m, h[..|h| - 1]);
      OrdersMatchMovement(c, After(c, m, h[..|h| - 1]), h[|h| - 1]);
      assert h[|h| - 1] in h;
    }
  }

  /** A safety stop ends as an error that carries its message, or the one for an unconfirmed stop, and
      never as an ordinary cancellation, unless the user cancels or starts anew. */
  lemma {:induction false} AbortEndsInError(c: Config, m: Machine, now: real, message: string, h: seq<Input>)
    requires Moving(m) && forall i :: i in h ==> !i.StartTrip? && !i.CancelTrip?
    ensures var m1 := After(c, Abort(m, now, message).0, h);
            || (m1.state.Cancelling? && m1.abortMsg == Some(message))
            || (m1.state.Failed? && (m1.lastError == Some(message) || m1.lastError == Some(MSG_STOP_UNCONFIRMED)))
    decreases |h|
  {
    if h != [] {
      assert forall i :: i in h[..|h| - 1] ==> i in h;
      AbortEndsInError(c, m, now, message, h[..|h| - 1]);
      assert h[|h| - 1] in h;
    }
  }

  // ---------------------------------------------------------------- what a confirmed stop rests on

  /** Input b began the stop that is still going on at the end of h. */
  ghost predicate Begins(c: Config, h: seq<Input>, b: nat) {
    && b < |h| && (h[b].CancelTrip? || h[b].AbortTrip?) && !After(c, FRESH, h[..b]).state.Cancelling?
    && forall n :: b < n <= |h| ==> After(c, FRESH, h[..n]).state.Cancelling?
  }

  predicate IsDisabled(i: Input) { i.Outcome? && !i.want && i.ok }

  /** Input k is the first since b to report that a disable went through. */
  ghost predicate FirstDisable(h: seq<Input>, b: nat, k: nat) {
    b < k < |h| && IsDisabled(h[k]) && forall j :: b < j < k ==> !IsDisabled(h[j])
  }

  /** Odometry below both thresholds. */
  predicate AtRest(c: Config, i: Input)
    requires i.Odometry?
  {
    -c.linearEps < i.v < c.linearEps && -c.angularEps < i.w < c.angularEps
  }

  /** From input i on, and after b, all odometry stood still. */
  ghost predicate StillFrom(c: Config, h: seq<Input>, b: nat, i: nat) {
    && b < i < |h| && h[i].Odometry?
    && forall j :: i <= j < |h| && h[j].Odometry? ==> AtRest(c, h[j])
  }

  /** Input i is the first since b of which that is true. */
  ghost predicate StillSince(c: Config, h: seq<Input>, b: nat, i: nat) {
    StillFrom(c, h, b, i) && forall j: nat :: b < j < i ==> !StillFrom(c, h, b, j)
  }

  ghost predicate LastOdomIs(h: seq<Input>, i: nat, t: real) {
    i < |h| && h[i].Odometry? && h[i].now == t && forall j :: i < j < |h| ==> !h[j].Odometry?
  }

  /** The last odometry of the history came at time t. */
  ghost predicate LastOdomAt(h: seq<Input>, t: real) {
    exists i :: LastOdomIs(h, i, t)
  }

  lemma OdomAtStep(c: Config, m: Machine, i: Input)
    ensures React(c, m, i).0.odomAt == if i.Odometry? then Some(i.now) else m.odomAt
  {
  }

  lemma LastOdomOn(h: seq<Input>, t: real)
    requires h != [] && LastOdomAt(h[..|h| - 1], t) && !h[|h| - 1].Odometry?
    ensures LastOdomAt(h, t)
  {
    var i :| LastOdomIs(h[..|h| - 1], i, t);
    assert forall j :: 0 <= j < |h| - 1 ==> h[..|h| - 1][j] == h[j];
    assert LastOdomIs(h, i, t);
  }

  lemma {:induction false} OdomAtIsLast(c: Config, h: seq<Input>)
    ensures match After(c, FRESH, h).odomAt
            case Some(t) => LastOdomAt(h, t)
            case None => forall i :: i in h ==> !i.Odometry?
    decreases |h|
  {
    if h != [] {
      var n := |h| - 1;
      var m := After(c, FRESH, h[..n]);
      OdomAtIsLast(c, h[..n]);
      OdomAtStep(c, m, h[n]);
      if h[n].Odometry? {
        assert LastOdomIs(h, n, h[n].now);
      } else if m.odomAt.Some? {
        LastOdomOn(h, m.odomAt.value);
      } else {
        assert h == h[..n] + [h[n]];
      }
    }
  }

  lemma LastOdomUnique(h: seq<Input>, t: real, u: real)
    requires LastOdomAt(h, t) && LastOdomAt(h, u)
    ensures t == u
  {
    var i :| LastOdomIs(h, i, t);
    var k :| LastOdomIs(h, k, u);
  }

  lemma BeginsOn(c: Config, h: seq<Input>, b: nat)
    requires h != [] && Begins(c, h[..|h| - 1], b) && After(c, FRESH, h).state.Cancelling?
    ensures Begins(c, h, b)
  {
    assert h[..|h|] == h;
    assert forall p :: 0 <= p < |h| ==> h[..|h| - 1][..p] == h[..p];
  }

  /** Exactly what begins a stop: a cancel of a trip, or after an error, and a safety stop of a trip. */
  lemma StopBeginsExactly(c: Config, m: Machine, i: Input)
    requires !m.state.Cancelling?
    ensures React(c, m, i).0.state.Cancelling? <==>
            (i.CancelTrip? && (Moving(m) || m.state.Failed?)) || (i.AbortTrip? && Moving(m))
  {
  }

  /** A stop begins with a cancel or an abort, and with no evidence. */
  lemma StopBegins(c: Config, m: Machine, i: Input)
    requires !m.state.Cancelling? && React(c, m, i).0.state.Cancelling?
    ensures i.CancelTrip? || i.AbortTrip?
    ensures var m1 := React(c, m, i).0; m1.entered == i.now && m1.disableOkAt.None? && m1.stillSince.None?
  {
  }

  lemma BeginsNow(c: Config, h: seq<Input>)
    requires h != [] && !After(c, FRESH, h[..|h| - 1]).state.Cancelling? && After(c, FRESH, h).state.Cancelling?
    ensures Begins(c, h, |h| - 1)
  {
    StopBegins(c, After(c, FRESH, h[..|h| - 1]), h[|h| - 1]);
    forall n | |h| - 1 < n <= |h|
      ensures After(c, FRESH, h[..n]).state.Cancelling?
    {
      assert h[..n] == h;
    }
  }

  /** The message a stop is to end with: that of the safety stop that began it, unless the user cancelled
      since. */
  ghost function AbortOf(h: seq<Input>, b: nat): Option<string>
    requires b < |h|
  {
    if h[b].AbortTrip? && forall j :: b < j < |h| ==> !h[j].CancelTrip? then Some(h[b].message) else None
  }

  ghost predicate FreshOdom(c: Config, h: seq<Input>, now: real) {
    exists t :: LastOdomAt(h, t) && now - t <= c.odomStale
  }

  /** The stop that input b began is confirmed at time `now`: a disable has gone through since, and the
      robot has stood still for the hold time by fresh odometry or, without fresh odometry, the fallback
      time has passed since that disable. */
  ghost predicate Confirmed(c: Config, h: seq<Input>, b: nat, now: real) {
    exists k: nat :: FirstDisable(h, b, k) &&
      if FreshOdom(c, h, now) then exists i: nat :: StillSince(c, h, b, i) && now - h[i].now >= c.stopHold
      else now - h[k].now >= c.stopFallback
  }

  // What the machine remembers of the stop that input b began, in the words of the history.

  ghost predicate DisableOk(h: seq<Input>, b: nat, at: Option<real>) {
    match at
    case Some(t) => exists k: nat :: FirstDisable(h, b, k) && h[k].now == t
    case None => forall k :: b < k < |h| ==> !IsDisabled(h[k])
  }

  ghost predicate StillOk(c: Config, h: seq<Input>, b: nat, since: Option<real>) {
    match since
    case Some(t) => exists i: nat :: StillSince(c, h, b, i) && h[i].now == t
    case None => forall i: nat :: !StillFrom(c, h, b, i)
  }

  lemma DisableSnoc(h: seq<Input>, b: nat, at: Option<real>, x: Input)
    requires DisableOk(h, b, at) && b < |h|
    ensures DisableOk(h + [x], b, if at.None? && IsDisabled(x) then Some(x.now) else at)
  {
    var h1 := h + [x];
    if at.Some? {
      var k: nat :| FirstDisable(h, b, k) && h[k].now == at.value;
      assert FirstDisable(h1, b, k) && h1[k].now == at.value;
    } else if IsDisabled(x) {
      assert FirstDisable(h1, b, |h|) && h1[|h|].now == x.now;
    }
  }

  lemma StillFromSnoc(c: Config, h: seq<Input>, b: nat, x: Input, i: nat)
    requires b < |h|
    ensures StillFrom(c, h + [x], b, i) <==>
            (x.Odometry? ==> AtRest(c, x)) && if i == |h| then x.Odometry? else StillFrom(c, h, b, i)
  {
    var h1 := h + [x];
    assert h1[|h|] == x && forall j :: 0 <= j < |h| ==> h1[j] == h[j];
  }

  lemma StillSnoc(c: Config, h: seq<Input>, b: nat, since: Option<real>, x: Input)
    requires StillOk(c, h, b, since) && b < |h|
    ensures var since1 := if !x.Odometry? then since else if !Still(c, x.v, x.w) then None
                          else if since.None? then Some(x.now) else since;
            StillOk(c, h + [x], b, since1)
  {
    var h1 := h + [x];
    forall i: nat
      ensures StillFrom(c, h1, b, i) <==>
              (x.Odometry? ==> AtRest(c, x)) && if i == |h| then x.Odometry? else StillFrom(c, h, b, i)
    {
      StillFromSnoc(c, h, b, x, i);
    }
    if x.Odometry? && !Still(c, x.v, x.w) {
    } else if since.Some? {
      var i: nat :| StillSince(c, h, b, i) && h[i].now == since.value;
      assert StillSince(c, h1, b, i) && h1[i].now == since.value;
    } else if x.Odometry? {
      assert StillSince(c, h1, b, |h|) && h1[|h|].now == x.now;
    }
  }

  /** What an input does to the evidence of a stop that goes on. */
  lemma EvidenceStep(c: Config, m: Machine, x: Input)
    requires m.state.Cancelling? && React(c, m, x).0.state.Cancelling?
    ensures var m1 := React(c, m, x).0;
            && m1.disableOkAt == (if m.disableOkAt.None? && IsDisabled(x) then Some(x.now) else m.disableOkAt)
            && m1.stillSince == (if !x.Odometry? then m.stillSince else if !Still(c, x.v, x.w) then None
                                 else if m.stillSince.None? then Some(x.now) else m.stillSince)
            && m1.abortMsg == (if x.CancelTrip? then None else m.abortMsg)
  {
  }

  /** While the machine is stopping, what it remembers is what happened since input b began the stop. */
  lemma {:induction false} Evidence(c: Config, h: seq<Input>) returns (b: nat)
    requires After(c, FRESH, h).state.Cancelling?
    ensures Begins(c, h, b)
    ensures var m := After(c, FRESH, h);
            && m.entered == h[b].now && m.abortMsg == AbortOf(h, b)
            && DisableOk(h, b, m.disableOkAt) && StillOk(c, h, b, m.stillSince)
    decreases |h|
  {
    var n := |h| - 1;
    var m := After(c, FRESH, h[..n]);
    assert h == h[..n] + [h[n]];
    if m.state.Cancelling? {
      b := Evidence(c, h[..n]);
      BeginsOn(c, h, b);
      CancellingStep(c, m, h[n]);
      EvidenceStep(c, m, h[n]);
      DisableSnoc(h[..n], b, m.disableOkAt, h[n]);
      StillSnoc(c, h[..n], b, m.stillSince, h[n]);
    } else {
      b := n;
      BeginsNow(c, h);
      StopBegins(c, m, h[n]);
    }
  }

  lemma OnlyFirst(c: Config, h: seq<Input>, b: nat, k: nat, l: nat)
    ensures FirstDisable(h, b, k) && FirstDisable(h, b, l) ==> k == l
    ensures StillSince(c, h, b, k) && StillSince(c, h, b, l) ==> k == l
  {
  }

  lemma FreshIff(c: Config, h: seq<Input>, now: real)
    ensures var at := After(c, FRESH, h).odomAt;
            FreshOdom(c, h, now) <==> at.Some? && now - at.value <= c.odomStale
  {
    OdomAtIsLast(c, h);
    forall t | LastOdomAt(h, t)
      ensures After(c, FRESH, h).odomAt == Some(t)
    {
      if After(c, FRESH, h).odomAt.Some? {
        LastOdomUnique(h, t, After(c, FRESH, h).odomAt.value);
      }
    }
  }

  lemma ConfirmedIff(c: Config, h: seq<Input>, b: nat, m: Machine, now: real)
    requires DisableOk(h, b, m.disableOkAt) && StillOk(c, h, b, m.stillSince)
    requires FreshOdom(c, h, now) <==> m.odomAt.Some? && now - m.odomAt.value <= c.odomStale
    ensures Confirmed(c, h, b, now) <==> m.disableOkAt.Some? && Stopped(c, m, now)
  {
    forall k: nat, l: nat
      ensures FirstDisable(h, b, k) && FirstDisable(h, b, l) ==> k == l
      ensures StillSince(c, h, b, k) && StillSince(c, h, b, l) ==> k == l
    {
      OnlyFirst(c, h, b, k, l);
    }
  }

  /** Exactly how a stop ends. A tick of the clock reports it cancelled if and only if it is confirmed and no
      safety stop; reports the error of the safety stop if and only if it is confirmed and one; and otherwise
      reports it as unconfirmed if and only if the stop timeout has passed since it began. */
  lemma StopEndsExactly(c: Config, h: seq<Input>, now: real) returns (b: nat)
    requires After(c, FRESH, h).state.Cancelling?
    ensures Begins(c, h, b)
    ensures var m := Tick(c, After(c, FRESH, h), now).0;
            && (m.state.Cancelled? <==> Confirmed(c, h, b, now) && AbortOf(h, b).None?)
            && (m.state.Failed? <==>
                  if Confirmed(c, h, b, now) then AbortOf(h, b).Some? else now - h[b].now > c.stopTimeout)
            && (m.state.Failed? ==>
                  m.lastError == if Confirmed(c, h, b, now) then AbortOf(h, b) else Some(MSG_STOP_UNCONFIRMED))
            && (m.state.Cancelled? || m.state.Failed? || m.state.Cancelling?)
  {
    b := Evidence(c, h);
    FreshIff(c, h, now);
    ConfirmedIff(c, h, b, After(c, FRESH, h), now);
  }

  // ---------------------------------------------------------------- which state a history leads to

  /** Input k started the trip that is still waiting for the follow node. */
  ghost predicate StartsAt(c: Config, h: seq<Input>, k: nat) {
    && k < |h| && h[k].StartTrip? && !OnTrip(After(c, FRESH, h[..k]))
    && forall j :: k < j < |h| ==> !EndsStart(c, h[j], h[k].now)
  }

  /** The start is over: stopped, answered, or out of time. */
  predicate EndsStart(c: Config, i: Input, began: real) {
    i.CancelTrip? || i.AbortTrip? || (i.Outcome? && i.want) || (i.Clock? && i.now - began > c.enableTimeout)
  }

  /** Input k reported the follow node enabled for a trip nobody has stopped since. */
  ghost predicate RunsSince(c: Config, h: seq<Input>, k: nat) {
    && k < |h| && h[k].Outcome? && h[k].want && h[k].ok && After(c, FRESH, h[..k]).state.Starting?
    && forall j :: k < j < |h| ==> !h[j].CancelTrip? && !h[j].AbortTrip?
  }

  lemma StartsSnoc(c: Config, h: seq<Input>, x: Input, k: nat)
    ensures StartsAt(c, h + [x], k) <==>
            if k == |h| then x.StartTrip? && !OnTrip(After(c, FRESH, h))
            else StartsAt(c, h, k) && !EndsStart(c, x, h[k].now)
    ensures RunsSince(c, h + [x], k) <==>
            if k == |h| then x.Outcome? && x.want && x.ok && After(c, FRESH, h).state.Starting?
            else RunsSince(c, h, k) && !x.CancelTrip? && !x.AbortTrip?
  {
    var h1 := h + [x];
    assert h1[|h|] == x && h1[..|h|] == h;
    assert forall j :: 0 <= j < |h| ==> h1[j] == h[j] && h1[..j] == h[..j];
  }

  /** What an input makes of a trip that is starting or active, or of none. */
  lemma UnderwayStep(c: Config, m: Machine, x: Input)
    ensures var m1 := React(c, m, x).0;
            && (m1.state.Starting? <==>
                  (x.StartTrip? && !OnTrip(m)) || (m.state.Starting? && !EndsStart(c, x, m.entered)))
            && (m1.state.Starting? ==> m1.entered == if m.state.Starting? then m.entered else x.now)
            && (m1.state.Active? <==>
                  (m.state.Starting? && x.Outcome? && x.want && x.ok) ||
                  (m.state.Active? && !x.CancelTrip? && !x.AbortTrip?))
            && (m.state.Starting? ==> m1.state.Starting? || m1.state.Active? || m1.state.Cancelling? ||
                                      (m1.state.Failed? && m1.lastError == Some(MSG_ENABLE_FAILED)))
            && m1.trip == (if x.StartTrip? && !OnTrip(m) then Some(x.trip)
                           else if m.state.Cancelled? && m1.state.Idle? then None else m.trip)
            && (x.StartTrip? && !OnTrip(m) ==> m1.lastError.None? && m1.abortMsg.None?)
            && (m1.lastError != m.lastError ==> m1.state.Failed? || (x.StartTrip? && !OnTrip(m)))
  {
  }

  lemma {:induction false} StartingExactly(c: Config, h: seq<Input>)
    ensures After(c, FRESH, h).state.Starting? <==> exists k: nat :: StartsAt(c, h, k)
    ensures forall k: nat :: StartsAt(c, h, k) ==> After(c, FRESH, h).entered == h[k].now
    decreases |h|
  {
    if h != [] {
      var h0, x := h[..|h| - 1], h[|h| - 1];
      var m := After(c, FRESH, h0);
      assert h == h0 + [x];
      StartingExactly(c, h0);
      UnderwayStep(c, m, x);
      forall k: nat | StartsAt(c, h, k)
        ensures After(c, FRESH, h).state.Starting? && After(c, FRESH, h).entered == h[k].now
      {
        StartsSnoc(c, h0, x, k);
      }
      StartsSnoc(c, h0, x, |h0|);
      if m.state.Starting? && !EndsStart(c, x, m.entered) {
        var k: nat :| StartsAt(c, h0, k);
        StartsSnoc(c, h0, x, k);
      }
    }
  }

  lemma {:induction false} ActiveExactly(c: Config, h: seq<Input>)
    ensures After(c, FRESH, h).state.Active? <==> exists k: nat :: RunsSince(c, h, k)
    decreases |h|
  {
    if h != [] {
      var h0, x := h[..|h| - 1], h[|h| - 1];
      var m := After(c, FRESH, h0);
      assert h == h0 + [x];
      ActiveExactly(c, h0);
      UnderwayStep(c, m, x);
      forall k: nat | RunsSince(c, h, k)
        ensures After(c, FRESH, h).state.Active?
      {
        StartsSnoc(c, h0, x, k);
      }
      StartsSnoc(c, h0, x, |h0|);
      if m.state.Active? && !x.CancelTrip? && !x.AbortTrip? {
        var k: nat :| RunsSince(c, h0, k);
        StartsSnoc(c, h0, x, k);
      }
    }
  }

  /** A trip is starting exactly from an accepted start until it is stopped, answered or out of time, and
      active exactly from a success of its enable until somebody stops it. */
  lemma UnderwayExactly(c: Config, h: seq<Input>)
    ensures After(c, FRESH, h).state.Starting? <==> exists k: nat :: StartsAt(c, h, k)
    ensures After(c, FRESH, h).state.Active? <==> exists k: nat :: RunsSince(c, h, k)
  {
    StartingExactly(c, h);
    ActiveExactly(c, h);
  }

  /** A stop is never refused, and following is never left to chance: exactly what orders a disable. A
      cancel always does, unless the stop is under way already; a safety stop does during a trip; so does an
      enable that failed for the start in progress, and one that succeeded for no start in progress; and the
      clock, for a start out of time and for a retry that is due. */
  lemma DisablesExactly(c: Config, m: Machine, i: Input)
    ensures React(c, m, i).1 == [false] <==>
              || (i.CancelTrip? && !m.state.Cancelling?)
              || (i.AbortTrip? && Moving(m))
              || (i.Outcome? && i.want && i.ok != m.state.Starting?)
              || (i.Clock? && m.state.Starting? && i.now - m.entered > c.enableTimeout)
              || (i.Clock? && m.state.Cancelling? && m.disableOkAt.None? && !m.disablePending &&
                  i.now - m.entered <= c.stopTimeout && m.nextDisableAt.Some? && i.now >= m.nextDisableAt.value)
  {
  }

  /** A cancelled trip is shown for the hold time: until a new start, the machine is idle again, with no
      trip, exactly if a tick came later than that. */
  lemma {:induction false} IdleExactly(c: Config, m: Machine, h: seq<Input>)
    requires m.state.Cancelled? && forall i :: i in h ==> !i.StartTrip?
    ensures var m1 := After(c, m, h);
            && (m1.state.Idle? <==> exists i :: i in h && i.Clock? && i.now - m.entered > c.terminalHold)
            && (m1.state.Idle? ==> m1.trip.None?)
            && (!m1.state.Idle? ==> m1.state.Cancelled? && m1.trip == m.trip && m1.entered == m.entered)
    decreases |h|
  {
    if h != [] {
      var h0, x := h[..|h| - 1], h[|h| - 1];
      assert h == h0 + [x];
      IdleExactly(c, m, h0);
      assert x in h;
    }
  }
}
