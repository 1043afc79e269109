/** Duty commands (per mille) to the four compare values of the motor bridge. */
module MotorOutput {

  const DUTY_MAX: int := 1000
  const PWM_ARR: int := 4666
  const SIGN_LEFT: int := -1
  const SIGN_RIGHT: int := 1

  datatype Ccr = Ccr(leftA: int, leftB: int, rightA: int, rightB: int)

  const ZERO: Ccr := Ccr(0, 0, 0, 0)

  function Clamp(value: int, limit: int): (r: int)
    requires limit >= 0
    ensures -limit <= r <= limit
    ensures r == 0 <==> value == 0 || limit == 0
  {
    if value > limit then limit else if value < -limit then -limit else value
  }

  function ClampPm(duty: int): int { Clamp(duty, DUTY_MAX) }

  function Pulse(duty: int): int {
    var c := ClampPm(duty);
    (if c < 0 then -c else c) * (PWM_ARR + 1) / DUTY_MAX
  }

  function Pair(duty: int): (int, int) {
    if duty >= 0 then (Pulse(duty), 0) else (0, Pulse(duty))
  }

  function CcrOf(left: int, right: int): Ccr {
    var l := Pair(SIGN_LEFT * ClampPm(left));
    var r := Pair(SIGN_RIGHT * ClampPm(right));
    Ccr(l.0, l.1, r.0, r.1)
  }

  /** No bridge ever sees both inputs on, no compare value exceeds full scale, and the bridge is
      at rest exactly for duty zero on both sides. */
  lemma CcrSound(left: int, right: int)
    ensures var c := CcrOf(left, right);
            && (c.leftA == 0 || c.leftB == 0) && (c.rightA == 0 || c.rightB == 0)
            && 0 <= c.leftA <= PWM_ARR + 1 && 0 <= c.leftB <= PWM_ARR + 1
            && 0 <= c.rightA <= PWM_ARR + 1 && 0 <= c.rightB <= PWM_ARR + 1
    ensures CcrOf(left, right) == ZERO <==> left == 0 && right == 0
  {
    PulseSound(SIGN_LEFT * ClampPm(left));
    PulseSound(SIGN_RIGHT * ClampPm(right));
  }

  lemma PulseSound(duty: int)
    ensures 0 <= Pulse(duty) <= PWM_ARR + 1
    ensures Pulse(duty) == 0 <==> duty == 0
  {
  }

  /** How much of the full duty is asked for, in either direction. */
  function Size(duty: int): nat {
    var size := if duty < 0 then -duty else duty;
    if size > DUTY_MAX then DUTY_MAX else size
  }

  /** How wide the pulses are: the share of the period asked for, in whole counts, on the one leg driven. */
  lemma CcrProportional(left: int, right: int)
    ensures var c := CcrOf(left, right);
            && 0 <= Size(left) * 4667 - (c.leftA + c.leftB) * 1000 < 1000
            && 0 <= Size(right) * 4667 - (c.rightA + c.rightB) * 1000 < 1000
  {
    CcrSound(left, right);
    PulseSize(SIGN_LEFT * ClampPm(left));
    PulseSize(SIGN_RIGHT * ClampPm(right));
  }

  lemma PulseSize(duty: int)
    ensures 0 <= Size(duty) * (PWM_ARR + 1) - Pulse(duty) * DUTY_MAX < DUTY_MAX
  {
    var n: int := Size(duty) * (PWM_ARR + 1);
    assert n == n / DUTY_MAX * DUTY_MAX + n % DUTY_MAX;
  }

  /** More duty never gives narrower pulses. */
  lemma CcrMonotone(left: int, more: int, right: int)
    requires Size(left) <= Size(more)
    ensures var c, c1 := CcrOf(left, right), CcrOf(more, right); c.leftA + c.leftB <= c1.leftA + c1.leftB
    ensures var c, c1 := CcrOf(right, left), CcrOf(right, more); c.rightA + c.rightB <= c1.rightA + c1.rightB
  {
    CcrProportional(left, right);
    CcrProportional(more, right);
    CcrProportional(right, left);
    CcrProportional(right, more);
  }

  /** The sign of a duty decides the leg, and the two wheels are mirrored. */
  lemma CcrDirection(left: int, right: int)
    ensures left > 0 <==> CcrOf(left, right).leftB > 0
    ensures left < 0 <==> CcrOf(left, right).leftA > 0
    ensures right > 0 <==> CcrOf(left, right).rightA > 0
    ensures right < 0 <==> CcrOf(left, right).rightB > 0
  {
    PulseSound(SIGN_LEFT * ClampPm(left));
    PulseSound(SIGN_RIGHT * ClampPm(right));
  }
}
