/** Speed loop of one wheel: feed-forward, proportional term, and an integrator with conditional
    integration. The C floats are reals here. */
module SpeedControl {
  import opened MotorOutput

  datatype Gains = Gains(kff: real, runIntercept: real, kp: real, kiCycle: real, iMax: real, dutyMax: int)

  ghost predicate Sane(g: Gains) {
    g.kp >= 0.0 && g.kiCycle >= 0.0 && g.iMax > 0.0 && g.dutyMax > 0
  }

  datatype Speed = Speed(integrator: real, target: int, duty: int, saturated: bool)

  const REST: Speed := Speed(0.0, 0, 0, false)

  function ClampF(v: real, limit: real): real {
    if v > limit then limit else if v < -limit then -limit else v
  }

  /** Conversion of a float to an integer truncates toward zero. */
  function Trunc(v: real): int {
    if v >= 0.0 then v.Floor else -((-v).Floor)
  }

  function ToPm(duty: real, limit: int): int
    requires limit >= 0
  {
    Clamp(Trunc(if duty >= 0.0 then duty + 0.5 else duty - 0.5), limit)
  }

  function Reset(s: Speed): Speed { s.(integrator := 0.0, duty := 0, saturated := false) }

  function SetTarget(s: Speed, target: int): Speed {
    var flipped := (s.target > 0 && target < 0) || (s.target < 0 && target > 0);
    (if flipped then Reset(s) else s).(target := target)
  }

  function FeedForward(g: Gains, target: int): real {
    if target == 0 then 0.0
    else if target > 0 then g.runIntercept + g.kff * target as real
    else -g.runIntercept + g.kff * target as real
  }

  /** Whether the candidate output is already beyond its limit in the direction of the error. */
  predicate WindsUp(limit: int, candidate: real, error: real) {
    || (candidate > limit as real && error > 0.0)
    || (candidate < -(limit as real) && error < 0.0)
  }

  /** The integrator after one cycle: `step` is its gain times the error. */
  function Integrated(i: real, g: Gains, drive: real, step: real, error: real): real {
    if WindsUp(g.dutyMax, drive + (i + step), error) then i else ClampF(i + step, g.iMax)
  }

  /** What one sample makes of the wheel: `drive` is feed-forward plus proportional term. */
  function Driven(s: Speed, g: Gains, drive: real, step: real, error: real, advance: bool): Speed
    requires g.dutyMax >= 0
  {
    var integrator := if advance then Integrated(s.integrator, g, drive, step, error) else s.integrator;
    var raw := drive + integrator;
    Speed(integrator, s.target, ToPm(raw, g.dutyMax), raw > g.dutyMax as real || raw < -(g.dutyMax as real))
  }

  function Update(s: Speed, g: Gains, measured: real, advance: bool): Speed
    requires g.dutyMax >= 0
  {
    var error := s.target as real - measured;
    if s.target == 0 then Reset(s)
    else Driven(s, g, FeedForward(g, s.target) + Times(g.kp, error), Times(g.kiCycle, error), error, advance)
  }

  function Times(a: real, b: real): real { a * b }

  ghost predicate Bounded(s: Speed, g: Gains) {
    -g.iMax <= s.integrator <= g.iMax && -g.dutyMax <= s.duty <= g.dutyMax
  }

  /** The integrator and the duty stay within their limits whatever is measured. */
  lemma UpdateBounded(s: Speed, g: Gains, measured: real, advance: bool)
    requires Sane(g) && Bounded(s, g)
    ensures Bounded(Update(s, g, measured, advance), g)
  {
  }

  /** Anti-windup: an error that already saturates the output never pushes the integrator further
      in its own direction, while one that leads out of saturation is always integrated. */
  lemma ConditionalIntegration(i: real, g: Gains, drive: real, error: real)
    requires Sane(g) && -g.iMax <= i <= g.iMax
    ensures var step := g.kiCycle * error;
            var after := Integrated(i, g, drive, step, error);
            && (drive + (i + step) > g.dutyMax as real && error > 0.0 ==> after == i)
            && (drive + (i + step) < -(g.dutyMax as real) && error < 0.0 ==> after == i)
            && (drive + (i + step) > g.dutyMax as real && error < 0.0 ==> after == ClampF(i + step, g.iMax) <= i)
            && (drive + (i + step) < -(g.dutyMax as real) && error > 0.0 ==> after == ClampF(i + step, g.iMax) >= i)
  {
    StepSign(g.kiCycle, error);
    IntegratedCases(i, g, drive, g.kiCycle * error, error);
  }

  lemma IntegratedCases(i: real, g: Gains, drive: real, step: real, error: real)
    requires Sane(g) && -g.iMax <= i <= g.iMax
    requires (error > 0.0 ==> step >= 0.0) && (error < 0.0 ==> step <= 0.0)
    ensures var after := Integrated(i, g, drive, step, error);
            && (drive + (i + step) > g.dutyMax as real && error > 0.0 ==> after == i)
            && (drive + (i + step) < -(g.dutyMax as real) && error < 0.0 ==> after == i)
            && (drive + (i + step) > g.dutyMax as real && error < 0.0 ==> after == ClampF(i + step, g.iMax) <= i)
            && (drive + (i + step) < -(g.dutyMax as real) && error > 0.0 ==> after == ClampF(i + step, g.iMax) >= i)
  {
  }

  lemma StepSign(k: real, error: real)
    requires k >= 0.0
    ensures error > 0.0 ==> k * error >= 0.0
    ensures error < 0.0 ==> k * error <= 0.0
  {
  }

  /** The duty is the nearest integer to the clamped output: off by at most one half. */
  lemma DutyIsNearest(duty: real, limit: int)
    requires limit >= 0
    ensures var c := ClampF(duty, limit as real);
            -0.5 <= ToPm(duty, limit) as real - c <= 0.5
  {
  }

  /** The output before it is rounded and limited: feed-forward with the run intercept in the direction of
      the target, proportional term on target minus measurement, and the integrator. */
  function Law(g: Gains, target: int, measured: real, integrator: real): real {
    (if target > 0 then g.runIntercept else -g.runIntercept) + g.kff * target as real
    + Times(g.kp, target as real - measured) + integrator
  }

  lemma LawIsDrive(g: Gains, target: int, measured: real, integrator: real)
    requires target != 0
    ensures Law(g, target, measured, integrator) ==
            FeedForward(g, target) + Times(g.kp, target as real - measured) + integrator
  {
  }

  /** The duty stands for the output v: the nearest permille, or the limit if v is beyond it. */
  predicate Stands(duty: int, saturated: bool, v: real, limit: int) {
    && (saturated <==> v > limit as real || v < -(limit as real))
    && (v > limit as real ==> duty == limit) && (v < -(limit as real) ==> duty == -limit)
    && (!saturated ==> -0.5 <= duty as real - v <= 0.5)
  }

  /** What the controller computes: the duty is the control law to the nearest permille, or the limit where
      the law is beyond it, and that is what the saturation flag says. A wheel aimed at nothing rests. */
  lemma DutyIsLaw(s: Speed, g: Gains, measured: real, advance: bool)
    requires g.dutyMax >= 0
    ensures var s1 := Update(s, g, measured, advance);
            && s1.target == s.target
            && (s.target == 0 ==> s1.duty == 0 && s1.integrator == 0.0 && !s1.saturated)
            && (s.target != 0 ==>
                  Stands(s1.duty, s1.saturated, Law(g, s.target, measured, s1.integrator), g.dutyMax))
  {
    if s.target != 0 {
      var error := s.target as real - measured;
      LawIsDrive(g, s.target, measured, Update(s, g, measured, advance).integrator);
      DrivenStands(s, g, FeedForward(g, s.target) + Times(g.kp, error), Times(g.kiCycle, error), error, advance);
    }
  }

  lemma DrivenStands(s: Speed, g: Gains, drive: real, step: real, error: real, advance: bool)
    requires g.dutyMax >= 0
    ensures var s1 := Driven(s, g, drive, step, error, advance);
            s1.target == s.target && Stands(s1.duty, s1.saturated, drive + s1.integrator, g.dutyMax)
  {
    RoundedDuty(drive + Driven(s, g, drive, step, error, advance).integrator, g.dutyMax);
  }

  lemma RoundedDuty(v: real, limit: int)
    requires limit >= 0
    ensures Stands(ToPm(v, limit), v > limit as real || v < -(limit as real), v, limit)
  {
    DutyIsNearest(v, limit);
  }

  lemma DutyMonotone(v: real, w: real, limit: int)
    requires limit >= 0 && v <= w
    ensures ToPm(v, limit) <= ToPm(w, limit)
  {
  }

  lemma TimesMonotone(k: real, x: real, y: real)
    requires k >= 0.0 && x <= y
    ensures Times(k, x) <= Times(k, y)
  {
    StepSign(k, y - x);
    assert k * y - k * x == k * (y - x);
  }

  /** The feedback is negative: between integrations a wheel measured faster never gets more duty. */
  lemma FasterGetsNoMore(s: Speed, g: Gains, slow: real, fast: real)
    requires g.dutyMax >= 0 && g.kp >= 0.0 && slow <= fast
    ensures Update(s, g, fast, false).duty <= Update(s, g, slow, false).duty
  {
    if s.target != 0 {
      var target := s.target as real;
      TimesMonotone(g.kp, target - fast, target - slow);
      DutyMonotone(FeedForward(g, s.target) + Times(g.kp, target - fast) + s.integrator,
                   FeedForward(g, s.target) + Times(g.kp, target - slow) + s.integrator, g.dutyMax);
    }
  }

  /** The integrator follows the error of the wheel: it rises only when that is slower than its target and
      falls only when it is faster; and by the gain times the error exactly when neither limit is in the way.
      Without `advance` it stays. */
  lemma IntegratorFollowsError(s: Speed, g: Gains, measured: real)
    requires Sane(g) && -g.iMax <= s.integrator <= g.iMax && s.target != 0
    ensures var i1 := Update(s, g, measured, true).integrator;
            var next := s.integrator + Times(g.kiCycle, s.target as real - measured);
            var law := Law(g, s.target, measured, next);
            && (i1 > s.integrator ==> measured < s.target as real)
            && (i1 < s.integrator ==> measured > s.target as real)
            && (-g.iMax <= next <= g.iMax && -(g.dutyMax as real) <= law <= g.dutyMax as real ==> i1 == next)
    ensures Update(s, g, measured, false).integrator == s.integrator
  {
    var error := s.target as real - measured;
    TimesSign(g.kiCycle, error);
    LawIsDrive(g, s.target, measured, s.integrator + Times(g.kiCycle, error));
    IntegratedMoves(s, g, FeedForward(g, s.target) + Times(g.kp, error), Times(g.kiCycle, error), error);
  }

  /** Without `advance` the integrator is kept, for a wheel that has a target. */
  lemma Holds(s: Speed, g: Gains, measured: real)
    requires g.dutyMax >= 0
    ensures Update(s, g, measured, false).integrator == if s.target == 0 then 0.0 else s.integrator
  {
  }

  lemma TimesSign(k: real, error: real)
    requires k >= 0.0
    ensures error >= 0.0 ==> Times(k, error) >= 0.0
    ensures error <= 0.0 ==> Times(k, error) <= 0.0
  {
    StepSign(k, error);
  }

  lemma IntegratedMoves(s: Speed, g: Gains, drive: real, step: real, error: real)
    requires Sane(g) && -g.iMax <= s.integrator <= g.iMax
    requires (error >= 0.0 ==> step >= 0.0) && (error <= 0.0 ==> step <= 0.0)
    ensures var i, i1 := s.integrator, Driven(s, g, drive, step, error, true).integrator;
            && (i1 > i ==> error > 0.0) && (i1 < i ==> error < 0.0)
            && (-g.iMax <= i + step <= g.iMax && -(g.dutyMax as real) <= drive + (i + step) <= g.dutyMax as real ==>
                  i1 == i + step)
    ensures Driven(s, g, drive, step, error, false).integrator == s.integrator
  {
  }

  /** A reversal starts from a clean integrator. */
  lemma ReversalClearsIntegrator(s: Speed, target: int)
    ensures s.target * target < 0 ==> SetTarget(s, target).integrator == 0.0
    ensures s.target * target >= 0 ==> SetTarget(s, target).integrator == s.integrator
    ensures SetTarget(s, target).target == target
  {
    if s.target > 0 && target < 0 {
      assert s.target * -target > 0;
    } else if s.target < 0 && target > 0 {
      assert -s.target * target > 0;
    } else if s.target > 0 && target > 0 {
      assert s.target * target > 0;
    } else if s.target < 0 && target < 0 {
      assert -s.target * -target > 0;
    }
  }

  /** speed_control_t */
  class Wheel {
    var integrator: real
    var target: int
    var duty: int
    var saturated: bool

    function Value(): Speed
      reads this
    {
      Speed(integrator, target, duty, saturated)
    }

    constructor ()
      ensures Value() == REST
    {
      integrator, target, duty, saturated := 0.0, 0, 0, false;
    }

    method Clear()
      modifies this
      ensures Value() == Reset(old(Value()))
    {
      integrator, duty, saturated := 0.0, 0, false;
    }

    method Aim(t: int)
      modifies this
      ensures Value() == SetTarget(old(Value()), t)
    {
      if (target > 0 && t < 0) || (target < 0 && t > 0) {
        Clear();
      }
      target := t;
    }

    /** speed_control_update */
    method Step(g: Gains, measured: real, advance: bool) returns (pm: int)
      requires g.dutyMax >= 0
      modifies this
      ensures Value() == Update(old(Value()), g, measured, advance)
      ensures pm == Value().duty
    {
      if target == 0 {
        Clear();
        return 0;
      }
      var error := target as real - measured;
      var drive := FeedForward(g, target) + Times(g.kp, error);
      pm := Drive(g, drive, Times(g.kiCycle, error), error, advance);
    }

    /** The part of the update behind the products with the gains. */
    method Drive(g: Gains, drive: real, step: real, error: real, advance: bool) returns (pm: int)
      requires g.dutyMax >= 0
      modifies this
      ensures Value() == Driven(old(Value()), g, drive, step, error, advance)
      ensures pm == Value().duty
    {
      if advance {
        var next := integrator + step;
        var candidate := drive + next;
        if candidate > g.dutyMax as real && error > 0.0 {
          // already saturated upward: hold
        } else if candidate < -(g.dutyMax as real) && error < 0.0 {
          // already saturated downward: hold
        } else {
          integrator := ClampF(next, g.iMax);
        }
      }
      var raw := drive + integrator;
      saturated := raw > g.dutyMax as real || raw < -(g.dutyMax as real);
      duty := ToPm(raw, g.dutyMax);
      pm := duty;
    }
  }
}
