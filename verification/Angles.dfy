/**
  Angle and wrap arithmetic of the utility syscall, over exact reals
  (src/sandbox_syscalls.cpp:280-316, 417-436).
 */
module Angles {

  const PI: real := 3.1415926535897932384626433833
  const TAU: real := 6.2831853071795864769252867666
  const CMP_EPSILON: real := 0.00001

  // ----- Definitions

  function Abs(x: real): real { if x < 0.0 then -x else x }

  /** Rounding toward zero. */
  function Trunc(x: real): int { if x >= 0.0 then x.Floor else -((-x).Floor) }

  /** `std::fmod`: the remainder has the sign of `x`. */
  function Fmod(x: real, y: real): real
    requires y != 0.0
  {
    x - Trunc(x / y) as real * y
  }

  function AngleDifference(from: real, to: real): real {
    var difference := Fmod(to - from, TAU);
    Fmod(2.0 * difference, TAU) - difference
  }

  function Part(difference: real, weight: real): real { difference * weight }

  function LerpAngle(a: real, b: real, weight: real): real { a + Part(AngleDifference(a, b), weight) }

  /** The step `delta` after clamping: no further than the target, no further back than the opposite direction. */
  function ClampedStep(distance: real, delta: real): real {
    var lower := distance - PI;
    if delta < lower then lower else if delta > distance then distance else delta
  }

  function RotateToward(a: real, b: real, delta: real): real {
    var difference := AngleDifference(a, b);
    a + ClampedStep(Abs(difference), delta) * (if difference >= 0.0 then 1.0 else -1.0)
  }

  predicate IsZeroApprox(x: real) { Abs(x) < CMP_EPSILON }

  function Tolerance(a: real): real {
    if CMP_EPSILON * Abs(a) < CMP_EPSILON then CMP_EPSILON else CMP_EPSILON * Abs(a)
  }

  predicate IsEqualApprox(a: real, b: real) { a == b || Abs(a - b) < Tolerance(a) }

  /** The value before the last comparison, for a range that is not approximately empty. */
  function Unsnapped(a: real, b: real, c: real): real
    requires !IsZeroApprox(c - b)
  {
    a - ((a - b) / (c - b)).Floor as real * (c - b)
  }

  function Wrap(a: real, b: real, c: real): real {
    if IsZeroApprox(c - b) then b
    else if IsEqualApprox(Unsnapped(a, b, c), c) then b
    else Unsnapped(a, b, c)
  }

  // ----- Congruence

  /** `a` and `b` differ by `k` whole turns of length `t`. */
  predicate Turns(a: real, b: real, t: real, k: int) { a - b == k as real * t }

  ghost predicate Congruent(a: real, b: real, t: real) { exists k: int :: Turns(a, b, t, k) }

  lemma CongruentSum(a: real, b: real, c: real, d: real, t: real)
    requires Congruent(a, b, t) && Congruent(c, d, t)
    ensures Congruent(a + c, b + d, t)
  {
    var k: int :| Turns(a, b, t, k);
    var l: int :| Turns(c, d, t, l);
    Distribute(k, l, t);
    assert Turns(a + c, b + d, t, k + l);
  }

  lemma CongruentNegated(a: real, b: real, t: real)
    requires Congruent(a, b, t)
    ensures Congruent(-a, -b, t)
  {
    var k: int :| Turns(a, b, t, k);
    assert (-k) as real * t == -(k as real * t);
    assert Turns(-a, -b, t, -k);
  }

  lemma CongruentSame(a: real, t: real)
    ensures Congruent(a, a, t)
  {
    assert Turns(a, a, t, 0);
  }

  lemma Distribute(k: int, l: int, t: real)
    ensures (k + l) as real * t == k as real * t + l as real * t
  {
  }

  lemma MulLess(x: real, y: real, t: real)
    requires t > 0.0 && x < y
    ensures x * t < y * t
  {
    assert (y - x) * t > 0.0;
    assert (y - x) * t == y * t - x * t;
  }

  lemma MulAtMost(x: real, y: real, t: real)
    requires t > 0.0 && x <= y
    ensures x * t <= y * t
  {
    if x < y {
      MulLess(x, y, t);
    }
  }

  /** A whole number of turns that is shorter than two turns is none or one, either way. */
  lemma FewTurns(k: int, t: real, whole: real)
    requires t > 0.0 && whole == k as real * t && -2.0 * t < whole < 2.0 * t
    ensures k == 0 || k == 1 || k == -1
    ensures whole == 0.0 || whole == t || whole == -t
  {
    if k >= 2 {
      MulAtMost(2.0, k as real, t);
    } else if k <= -2 {
      MulAtMost(k as real, -2.0, t);
    } else {
      assert k == 0 || k == 1 || k == -1;
    }
  }

  /** Two congruent angles of at most half a turn are equally far from zero. */
  lemma HalfTurnUnique(x: real, y: real, t: real)
    requires t > 0.0 && Congruent(x, y, t) && Abs(x) <= t / 2.0 && Abs(y) <= t / 2.0
    ensures Abs(x) == Abs(y)
  {
    var k: int :| Turns(x, y, t, k);
    FewTurns(k, t, x - y);
  }

  // ----- Remainders

  /** The whole part of a quotient, from the multiples of the divisor on either side. */
  lemma QuotientFloor(x: real, t: real, n: int)
    requires t > 0.0 && n as real * t <= x < (n as real + 1.0) * t
    ensures n as real <= x / t < n as real + 1.0
    ensures (x / t).Floor == n
  {
    var q, low, high := x / t, n as real, n as real + 1.0;
    assert q * t == x;
    if q < low {
      MulLess(q, low, t);
      assert false;
    }
    if q >= high {
      MulAtMost(high, q, t);
      assert false;
    }
  }

  /** The other way around: the multiples of the divisor around a number, from the whole part of the quotient `q`. */
  lemma FloorMultiples(x: real, t: real, q: real)
    requires t > 0.0 && q * t == x
    ensures q.Floor as real * t <= x < q.Floor as real * t + t
  {
    var low := q.Floor as real;
    var high := low + 1.0;
    MulAtMost(low, q, t);
    assert low * t <= x;
    MulLess(q, high, t);
    assert x < high * t;
    OneMore(low, t);
    assert x < low * t + t;
  }

  lemma OneMore(x: real, t: real)
    ensures (x + 1.0) * t == x * t + t
  {
  }

  lemma NegatedQuotient(x: real, t: real)
    requires t != 0.0
    ensures (-x) / t == -(x / t) && x / (-t) == -(x / t)
  {
    var q := x / t;
    assert q * t == x;
    assert (-q) * t == -x;
    assert (-q) * (-t) == x;
  }

  lemma NonNegativeQuotient(x: real, t: real)
    requires t > 0.0
    ensures x >= 0.0 <==> x / t >= 0.0
  {
    var q := x / t;
    assert q * t == x;
    if q < 0.0 {
      MulLess(q, 0.0, t);
    } else {
      MulAtMost(0.0, q, t);
    }
  }

  /** Rounding `x / t` toward zero leaves less than one turn, on the side of zero that `x` is on. */
  lemma FmodBounds(x: real, t: real)
    requires t > 0.0
    ensures Abs(Fmod(x, t)) < t
    ensures x >= 0.0 ==> Fmod(x, t) >= 0.0
    ensures x <= 0.0 ==> Fmod(x, t) <= 0.0
    ensures Congruent(x, Fmod(x, t), t)
  {
    var n := Trunc(x / t);
    NonNegativeQuotient(x, t);
    if x >= 0.0 {
      assert x / t * t == x;
      FloorMultiples(x, t, x / t);
    } else {
      NegatedQuotient(x, t);
      assert (-x) / t * t == -x;
      FloorMultiples(-x, t, (-x) / t);
      assert n == -((-x) / t).Floor;
      assert n as real * t == -(((-x) / t).Floor as real * t);
    }
    assert Turns(x, Fmod(x, t), t, n);
  }

  /** Doubling a remainder and taking it again turns it once, if it is half a turn or more. */
  lemma DoubledFmod(d: real, t: real)
    requires t > 0.0 && Abs(d) < t
    ensures Fmod(2.0 * d, t) - d
         == if Abs(d) < t / 2.0 then d else if d > 0.0 then d - t else d + t
  {
    var x := 2.0 * d;
    NonNegativeQuotient(x, t);
    var n := if Abs(d) < t / 2.0 then 0 else 1;
    assert n as real * t == (if n == 0 then 0.0 else t) && (n as real + 1.0) * t == (if n == 0 then t else 2.0 * t);
    if d >= 0.0 {
      QuotientFloor(x, t, n);
      assert Trunc(x / t) == n;
    } else {
      NegatedQuotient(x, t);
      QuotientFloor(-x, t, n);
      assert Trunc(x / t) == -n;
      assert (-n) as real * t == -(n as real * t);
    }
  }

  // ----- Angles

  /** The angle difference is at most half a turn, and is `to - from` up to whole turns. */
  lemma AngleDifferenceCorrect(from: real, to: real)
    ensures Abs(AngleDifference(from, to)) <= PI
    ensures Congruent(AngleDifference(from, to), to - from, TAU)
  {
    var x := to - from;
    var d := Fmod(x, TAU);
    FmodBounds(x, TAU);
    DoubledFmod(d, TAU);
    var r := AngleDifference(from, to);
    var k: int :| Turns(x, d, TAU, k);
    var turned := if Abs(d) < PI then 0 else if d > 0.0 then -1 else 1;
    assert r - d == turned as real * TAU;
    Distribute(turned, -k, TAU);
    assert (-k) as real * TAU == -(k as real * TAU);
    assert Turns(r, x, TAU, turned - k);
  }

  /** Of the two differences of half a turn, it is the one against the direction of `to - from`. */
  lemma AngleDifferenceSide(from: real, to: real)
    ensures to >= from ==> -PI <= AngleDifference(from, to) < PI
    ensures to <= from ==> -PI < AngleDifference(from, to) <= PI
  {
    FmodBounds(to - from, TAU);
    DoubledFmod(Fmod(to - from, TAU), TAU);
  }

  /** How far an angle is from another, whichever way is shorter. */
  function Distance(a: real, b: real): real { Abs(AngleDifference(a, b)) }

  /** Moving by `step` from `a` leaves the rest of the difference to go, up to whole turns. */
  lemma LeftCongruent(a: real, b: real, step: real)
    ensures Congruent(AngleDifference(a + step, b), AngleDifference(a, b) - step, TAU)
  {
    var d := AngleDifference(a, b);
    var e := AngleDifference(a + step, b);
    AngleDifferenceCorrect(a, b);
    AngleDifferenceCorrect(a + step, b);
    CongruentNegated(d, b - a, TAU);
    CongruentSame(step, TAU);
    CongruentSum(-d, -(b - a), step, step, TAU);
    CongruentSum(e, b - (a + step), step - d, step - (b - a), TAU);
    SumZeroCongruent(e, step - d, (b - (a + step)) + (-(b - a) + step));
  }

  lemma StillToGo(a: real, b: real, step: real)
    requires Abs(AngleDifference(a, b) - step) <= PI
    ensures Distance(a + step, b) == Abs(AngleDifference(a, b) - step)
  {
    AngleDifferenceCorrect(a + step, b);
    LeftCongruent(a, b, step);
    HalfTurnUnique(AngleDifference(a + step, b), AngleDifference(a, b) - step, TAU);
  }

  lemma SumZeroCongruent(e: real, x: real, zero: real)
    requires zero == 0.0 && Congruent(e + x, zero, TAU)
    ensures Congruent(e, -x, TAU)
  {
    var k: int :| Turns(e + x, zero, TAU, k);
    assert Turns(e, -x, TAU, k);
  }

  /**
    `rotate_toward` with a step that is not negative brings the angle nearer by the step, and onto the
    target once the step is long enough; a negative one takes it away, as far as the opposite direction.
   */
  lemma RotateTowardApproaches(a: real, b: real, delta: real)
    ensures Distance(RotateToward(a, b, delta), b) == Distance(a, b) - ClampedStep(Distance(a, b), delta)
    ensures delta >= 0.0 ==>
              Distance(RotateToward(a, b, delta), b) == if delta > Distance(a, b) then 0.0 else Distance(a, b) - delta
    ensures delta < 0.0 ==>
              Distance(RotateToward(a, b, delta), b) == if Distance(a, b) - delta > PI then PI else Distance(a, b) - delta
  {
    AngleDifferenceCorrect(a, b);
    var d := AngleDifference(a, b);
    var step := ClampedStep(Abs(d), delta) * (if d >= 0.0 then 1.0 else -1.0);
    assert Abs(d - step) == Abs(d) - ClampedStep(Abs(d), delta);
    StillToGo(a, b, step);
  }

  /**
    `lerp_angle` goes the shorter way, for every weight: the angle still to go is the part `1 - weight` of
    the difference, up to whole turns, and so far away the target is, as long as that is at most half a turn.
   */
  lemma LerpAngleApproaches(a: real, b: real, weight: real)
    ensures Congruent(AngleDifference(LerpAngle(a, b, weight), b), Part(AngleDifference(a, b), 1.0 - weight), TAU)
    ensures Part(Distance(a, b), Abs(1.0 - weight)) <= PI ==>
      Distance(LerpAngle(a, b, weight), b) == Part(Distance(a, b), Abs(1.0 - weight))
    ensures 0.0 <= weight <= 2.0 ==> Part(Distance(a, b), Abs(1.0 - weight)) <= Distance(a, b) <= PI
  {
    LerpAngleFrom(a, b, weight, AngleDifference(a, b));
  }

  /** It stays on that way, in proportion: no whole turn is added to the result. */
  lemma LerpAngleExactly(a: real, b: real, weight: real)
    ensures var whole := LerpAngle(a, b, 1.0) - a;
      && -PI <= whole <= PI && Congruent(a + whole, b, TAU)
      && LerpAngle(a, b, weight) == a + weight * whole
  {
    var d := AngleDifference(a, b);
    AngleDifferenceCorrect(a, b);
    assert Part(d, 1.0) == d;
    assert Part(d, weight) == weight * d;
    CongruentSame(a, TAU);
    CongruentSum(d, b - a, a, a, TAU);
  }

  /** `rotate_toward` moves by the step it was given, in the direction of the difference, or by as much of it as it may. */
  lemma RotateTowardMoves(a: real, b: real, delta: real)
    ensures var d := AngleDifference(a, b); var moved := RotateToward(a, b, delta) - a;
      && (delta >= Abs(d) ==> moved == d)
      && (Abs(d) - PI <= delta <= Abs(d) ==> moved == if d >= 0.0 then delta else -delta)
      && (delta <= Abs(d) - PI ==> moved == if d >= 0.0 then d - PI else d + PI)
  {
    AngleDifferenceCorrect(a, b);
  }

  lemma LerpAngleFrom(a: real, b: real, weight: real, d: real)
    requires d == AngleDifference(a, b)
    ensures Congruent(AngleDifference(a + Part(d, weight), b), Part(d, 1.0 - weight), TAU)
    ensures Part(Abs(d), Abs(1.0 - weight)) <= PI ==>
      Distance(a + Part(d, weight), b) == Part(Abs(d), Abs(1.0 - weight))
    ensures 0.0 <= weight <= 2.0 ==> Part(Abs(d), Abs(1.0 - weight)) <= Abs(d) <= PI
  {
    AngleDifferenceCorrect(a, b);
    var step := Part(d, weight);
    PartLeft(d, weight, step);
    LeftCongruent(a, b, step);
    if Abs(d - step) <= PI {
      StillToGo(a, b, step);
    }
    if 0.0 <= weight <= 2.0 {
      PartAtMost(Abs(d), Abs(1.0 - weight));
    }
  }

  /** What is left of a difference after a part of it. */
  lemma PartLeft(d: real, w: real, step: real)
    requires step == Part(d, w)
    ensures d - step == Part(d, 1.0 - w)
    ensures Abs(d - step) == Part(Abs(d), Abs(1.0 - w))
  {
    var left := 1.0 - w;
    assert d - d * w == d * left;
    AbsProduct(d, left);
  }

  lemma AbsProduct(x: real, y: real)
    ensures Abs(x * y) == Abs(x) * Abs(y)
  {
    NegatedProduct(x, y);
    NegatedProduct(y, x);
    if x >= 0.0 && y >= 0.0 {
      ProductSign(x, y);
    } else if x >= 0.0 {
      ProductSign(x, -y);
    } else if y >= 0.0 {
      ProductSign(-x, y);
    } else {
      ProductSign(-x, -y);
      NegatedProduct(-x, y);
    }
  }

  lemma ProductSign(x: real, y: real)
    requires x >= 0.0 && y >= 0.0
    ensures x * y >= 0.0
  {
  }

  lemma PartAtMost(d: real, w: real)
    requires d >= 0.0 && 0.0 <= w <= 1.0
    ensures Part(d, w) <= d
  {
    if d > 0.0 {
      MulAtMost(w, 1.0, d);
    }
  }

  // ----- Wrapping

  /** From `b` toward `c`, `b` included and `c` not. */
  predicate InRange(x: real, b: real, c: real) { if b < c then b <= x < c else c < x <= b }

  lemma UnsnappedInRange(a: real, b: real, c: real)
    requires !IsZeroApprox(c - b)
    ensures InRange(Unsnapped(a, b, c), b, c)
    ensures Congruent(a, Unsnapped(a, b, c), c - b)
  {
    var range := c - b;
    var q := (a - b) / range;
    assert q * range == a - b;
    var whole := q.Floor as real * range;
    assert Unsnapped(a, b, c) == a - whole;
    if range > 0.0 {
      FloorMultiples(a - b, range, q);
    } else {
      NegatedProduct(q, range);
      FloorMultiples(b - a, -range, q);
      NegatedProduct(q.Floor as real, range);
    }
    assert Turns(a, Unsnapped(a, b, c), range, q.Floor);
  }

  lemma NegatedProduct(x: real, y: real)
    ensures x * (-y) == -(x * y)
  {
  }

  lemma QuotientOfNegated(x: real, y: real)
    requires y != 0.0
    ensures (-x) / (-y) == x / y
  {
    var q := x / y;
    assert q * y == x;
    NegatedProduct(q, y);
  }

  /** What already lies in the range is not moved before the comparison. */
  lemma UnsnappedFixes(a: real, b: real, c: real)
    requires !IsZeroApprox(c - b) && InRange(a, b, c)
    ensures Unsnapped(a, b, c) == a
  {
    var range := c - b;
    if range > 0.0 {
      QuotientFloor(a - b, range, 0);
    } else {
      QuotientOfNegated(a - b, range);
      QuotientFloor(-(a - b), -range, 0);
    }
  }

  /** `x` is within `tolerance` of `a`, and is `y` up to whole ranges. */
  predicate NearlyTurns(a: real, x: real, y: real, range: real, tolerance: real, k: int) {
    Abs(x - a) < tolerance && Turns(x, y, range, k)
  }

  ghost predicate NearlyCongruent(a: real, y: real, range: real, tolerance: real) {
    exists k: int, x: real :: NearlyTurns(a, x, y, range, tolerance, k)
  }

  /**
    `wrap` gives `b` for a range that is approximately empty. For any other, the result lies in the half-open range from `b`
    toward `c`, and is the input up to whole ranges exactly when it was not moved by the comparison, or
    was on `b` already; a value approximately equal to `c` is moved onto `b`, which is within the
    comparison's tolerance of the input up to whole ranges.
   */
  lemma WrapCorrect(a: real, b: real, c: real)
    ensures -CMP_EPSILON < c - b < CMP_EPSILON ==> Wrap(a, b, c) == b
    ensures !IsZeroApprox(c - b) ==>
      && InRange(Wrap(a, b, c), b, c)
      && (Congruent(a, Wrap(a, b, c), c - b) <==> !IsEqualApprox(Unsnapped(a, b, c), c) || Unsnapped(a, b, c) == b)
      && (IsEqualApprox(Unsnapped(a, b, c), c) ==>
            NearlyCongruent(a, Wrap(a, b, c), c - b, Tolerance(Unsnapped(a, b, c))))
  {
    if !IsZeroApprox(c - b) {
      UnsnappedInRange(a, b, c);
      var u := Unsnapped(a, b, c);
      if IsEqualApprox(u, c) {
        SnappedNearly(a, b, c, u);
        SnappedOnto(a, b, c, u);
      }
    }
  }

  lemma SnappedNearly(a: real, b: real, c: real, u: real)
    requires InRange(u, b, c) && b != c && Congruent(a, u, c - b) && IsEqualApprox(u, c)
    ensures NearlyCongruent(a, b, c - b, Tolerance(u))
  {
    var x := a + (c - u);
    var k: int :| Turns(a, u, c - b, k);
    Distribute(k, 1, c - b);
    assert Turns(x, b, c - b, k + 1);
    assert u != c;
    assert NearlyTurns(a, x, b, c - b, Tolerance(u), k + 1);
  }

  lemma SnappedOnto(a: real, b: real, c: real, u: real)
    requires InRange(u, b, c) && b != c && Congruent(a, u, c - b)
    ensures Congruent(a, b, c - b) <==> u == b
  {
    var k: int :| Turns(a, u, c - b, k);
    if Congruent(a, b, c - b) {
      var l: int :| Turns(a, b, c - b, l);
      Distribute(l - k, k, c - b);
      OnlyOneInRange(u, b, c, l - k);
    }
  }

  /** The one number in the range that is `b` up to whole ranges is `b`. */
  lemma OnlyOneInRange(u: real, b: real, c: real, k: int)
    requires InRange(u, b, c) && b != c && u - b == k as real * (c - b)
    ensures u == b
  {
    var r := c - b;
    NegatedProduct(k as real, r);
    if b < c {
      FewTurns(k, r, u - b);
    } else {
      FewTurns(k, -r, b - u);
    }
  }

  /** Wrapping what has been wrapped changes nothing, for every range. */
  lemma WrapIdempotent(a: real, b: real, c: real)
    ensures Wrap(Wrap(a, b, c), b, c) == Wrap(a, b, c)
  {
    if !IsZeroApprox(c - b) {
      WrapCorrect(a, b, c);
      UnsnappedFixes(Wrap(a, b, c), b, c);
    }
  }
}
