/**
 * The two Unity vector operations the movement code relies on, Vector2.normalized and
 * Vector2.MoveTowards, over exact reals. The square root inside `magnitude` is an
 * engine primitive: it is passed in as a function `mag` that is known to return the
 * non-negative root of the squared length.
 */
module Vectors {

  datatype Vec = Vec(x: real, y: real)

  const Zero: Vec := Vec(0.0, 0.0)

  function Add(a: Vec, b: Vec): Vec { Vec(a.x + b.x, a.y + b.y) }

  function Sub(a: Vec, b: Vec): Vec { Vec(a.x - b.x, a.y - b.y) }

  function Scale(a: Vec, k: real): Vec { Vec(a.x * k, a.y * k) }

  function SqLen(v: Vec): (s: real)
    ensures s >= 0.0
  {
    v.x * v.x + v.y * v.y
  }

  /** `mag` behaves as Vector2.magnitude: the non-negative square root of the squared length. */
  ghost predicate IsMagnitude(mag: Vec -> real) {
    forall v :: mag(v) >= 0.0 && mag(v) * mag(v) == SqLen(v)
  }

  /** Vector2.kEpsilon, the threshold below which `normalized` gives the zero vector. */
  const Epsilon: real := 0.00001

  lemma SqLenScale(v: Vec, k: real)
    ensures SqLen(Scale(v, k)) == k * k * SqLen(v)
  {
    assert (v.x * k) * (v.x * k) == k * k * (v.x * v.x);
    assert (v.y * k) * (v.y * k) == k * k * (v.y * v.y);
  }

  /** Vector2.normalized: unit length for vectors longer than Epsilon, zero otherwise. */
  function Normalized(v: Vec, mag: Vec -> real): (n: Vec)
    requires IsMagnitude(mag)
    ensures mag(v) > Epsilon ==> n == Scale(v, 1.0 / mag(v)) && SqLen(n) == 1.0
    ensures mag(v) <= Epsilon ==> n == Zero
  {
    var m := mag(v);
    if m > Epsilon then
      SqLenScale(v, 1.0 / m);
      assert (1.0 / m) * (1.0 / m) * (m * m) == 1.0;
      Scale(v, 1.0 / m)
    else
      Zero
  }

  /** Between two non-negative numbers, the square order is the order. */
  lemma SquareOrder(a: real, b: real)
    requires b >= 0.0
    ensures a >= 0.0 && a * a < b * b ==> a < b
  {
  }

  /**
   * The fraction of the way from current to target that MoveTowards covers: all of it
   * when the target is within maxDelta (or the two coincide), else maxDelta / distance.
   */
  function MoveFraction(current: Vec, target: Vec, maxDelta: real, mag: Vec -> real): (t: real)
    requires IsMagnitude(mag)
    ensures maxDelta >= 0.0 ==> 0.0 <= t <= 1.0
    ensures t == 1.0 <==> SqLen(Sub(target, current)) == 0.0 ||
                          (maxDelta >= 0.0 && SqLen(Sub(target, current)) <= maxDelta * maxDelta) ||
                          maxDelta == mag(Sub(target, current))
  {
    var d := Sub(target, current);
    var sq := SqLen(d);
    if sq == 0.0 || (maxDelta >= 0.0 && sq <= maxDelta * maxDelta) then 1.0
    else
      var m := mag(d);
      assert m > 0.0;
      SquareOrder(maxDelta, m);
      assert maxDelta / m == 1.0 ==> maxDelta == m;
      maxDelta / m
  }

  /**
   * Vector2.MoveTowards: the target when it is within maxDelta, else the point
   * maxDelta along the segment towards it.
   */
  function MoveTowards(current: Vec, target: Vec, maxDelta: real, mag: Vec -> real): (r: Vec)
    requires IsMagnitude(mag)
    ensures var d := Sub(target, current);
      (SqLen(d) == 0.0 || (maxDelta >= 0.0 && SqLen(d) <= maxDelta * maxDelta)) ==> r == target
  {
    var d := Sub(target, current);
    var sq := SqLen(d);
    if sq == 0.0 || (maxDelta >= 0.0 && sq <= maxDelta * maxDelta) then target
    else
      StepAlong(current, d, mag(d), maxDelta)
  }

  /** current + d / m * maxDelta, the far branch of MoveTowards. */
  function StepAlong(current: Vec, d: Vec, m: real, maxDelta: real): Vec
    requires m != 0.0
  {
    Vec(current.x + d.x / m * maxDelta, current.y + d.y / m * maxDelta)
  }

  lemma StepAlongScale(current: Vec, d: Vec, m: real, maxDelta: real)
    requires m != 0.0
    ensures Sub(StepAlong(current, d, m, maxDelta), current) == Scale(d, maxDelta / m)
    ensures StepAlong(current, d, m, maxDelta) == Add(current, Scale(d, maxDelta / m))
  {
    DivMulSwap(d.x, m, maxDelta);
    DivMulSwap(d.y, m, maxDelta);
  }

  /** The point a fraction t of the way from a to b. */
  function Lerp(a: Vec, b: Vec, t: real): Vec {
    Add(a, Scale(Sub(b, a), t))
  }

  lemma DivMulSwap(a: real, m: real, k: real)
    requires m != 0.0
    ensures a / m * k == a * (k / m)
  {
  }

  lemma RatioSquare(k: real, m: real)
    requires m != 0.0
    ensures (k / m) * (k / m) * (m * m) == k * k
  {
    var t := k / m;
    assert t * m == k;
    assert t * t * (m * m) == (t * m) * (t * m);
  }

  lemma PositiveRoot(m: real, sq: real, bound: real)
    requires m >= 0.0 && m * m == sq && bound >= 0.0 && sq > bound
    ensures m > 0.0
  {
    assert m * m > 0.0;
  }

  /** The far case of MoveTowards: the step is Scale(d, maxDelta / |d|), of length maxDelta. */
  lemma MoveTowardsFar(current: Vec, target: Vec, maxDelta: real, mag: Vec -> real)
    requires IsMagnitude(mag) && maxDelta >= 0.0
    requires SqLen(Sub(target, current)) > maxDelta * maxDelta
    ensures var d := Sub(target, current);
      var t := maxDelta / mag(d);
      var r := MoveTowards(current, target, maxDelta, mag);
      mag(d) > 0.0 && Sub(r, current) == Scale(d, t) && r == Lerp(current, target, t) &&
      SqLen(Sub(r, current)) == maxDelta * maxDelta
  {
    var d := Sub(target, current);
    var m := mag(d);
    PositiveRoot(m, SqLen(d), maxDelta * maxDelta);
    var t := maxDelta / m;
    assert MoveTowards(current, target, maxDelta, mag) == StepAlong(current, d, m, maxDelta);
    StepAlongScale(current, d, m, maxDelta);
    SqLenScale(d, t);
    RatioSquare(maxDelta, m);
  }

  /**
   * MoveTowards never overshoots: the result lies on the segment from current to target,
   * a fraction in [0, 1] of the way along, and no further than maxDelta from current.
   */
  lemma MoveTowardsOnSegment(current: Vec, target: Vec, maxDelta: real, mag: Vec -> real)
    requires IsMagnitude(mag) && maxDelta >= 0.0
    ensures var t := MoveFraction(current, target, maxDelta, mag);
      MoveTowards(current, target, maxDelta, mag) == Lerp(current, target, t) && 0.0 <= t <= 1.0
    ensures SqLen(Sub(MoveTowards(current, target, maxDelta, mag), current)) <= maxDelta * maxDelta
  {
    var d := Sub(target, current);
    var r := MoveTowards(current, target, maxDelta, mag);
    if SqLen(d) <= maxDelta * maxDelta {
      assert Lerp(current, target, 1.0) == target;
      assert Sub(r, current) == d;
    } else {
      MoveTowardsFar(current, target, maxDelta, mag);
    }
  }
}
