/**
 * The geometry and timing of a swipe: how many steps it takes, when each MOVE
 * event happens and where the pointer is at each step.
 */
module Gestures {
  import opened JavaNumbers
  import opened Devices
  import opened Commands

  const IntModulus: int := 0x1_0000_0000

  /** Java `int` arithmetic: the value wrapped into [MinInt, MaxInt] modulo 2^32. */
  function Wrap32(v: int): (r: int)
    ensures InIntRange(r) && (r - v) % IntModulus == 0
    ensures InIntRange(v) ==> r == v
  {
    (v - MinInt) % IntModulus + MinInt
  }

  /** `Math.round` of the exact quotient n / d: the nearest integer, halves rounded up. */
  function RoundQuotient(n: int, d: int): (r: int)
    requires d > 0
    ensures 2 * d * r - d <= 2 * n < 2 * d * r + d
  {
    var q := (2 * n + d) / (2 * d);
    assert 2 * n + d == 2 * d * q + (2 * n + d) % (2 * d);
    q
  }

  /**
   * The number of steps of a swipe: none for a duration of 0 or less,
   * otherwise one step per full 16 ms, and at least one.
   */
  function SwipeSteps(duration: int): (steps: nat)
    ensures duration <= 0 <==> steps == 0
    ensures 0 < duration < 32 ==> steps == 1
    ensures duration >= 16 ==> steps == duration / 16
  {
    var safeDuration := if duration < 0 then 0 else duration;
    if safeDuration > 0 then (if safeDuration / 16 > 1 then safeDuration / 16 else 1) else 0
  }

  /** The time between two steps: the duration shared evenly between the steps. */
  function StepDuration(duration: int): (step: nat)
    requires duration > 0
  {
    duration / SwipeSteps(duration)
  }

  lemma DivPositive(n: int, s: int)
    requires 0 < s <= n
    ensures n / s >= 1 && s * (n / s) <= n
  {
  }

  /** Every step takes at least 1 ms, and all the steps together take no longer than the swipe. */
  lemma StepTiming(duration: int)
    requires duration > 0
    ensures StepDuration(duration) >= 1
    ensures SwipeSteps(duration) * StepDuration(duration) <= duration
  {
    DivPositive(duration, SwipeSteps(duration));
  }

  /** The pointer coordinate `i` steps into a move from `a` to `b` in `steps` steps. */
  function MoveCoordinate(a: int, b: int, i: int, steps: int): int
    requires steps > 0
  {
    Wrap32(a + RoundQuotient(Wrap32(b - a) * i, steps))
  }

  lemma FactorSign(s: int, x: int)
    requires s > 0
    ensures s * x > 0 <==> x > 0
  {
    if x <= 0 {
      var y := -x;
      assert s * x + s * y == s * (x + y) == 0;
    }
  }

  /** Rounding a quotient n / s that lies between two integers gives a value between them. */
  lemma RoundQuotientBetween(n: int, s: int, lo: int, hi: int)
    requires s > 0 && s * lo <= n <= s * hi
    ensures lo <= RoundQuotient(n, s) <= hi
  {
    var r := RoundQuotient(n, s);
    assert s * (2 * r + 1 - 2 * lo) == 2 * s * r + s - 2 * (s * lo);
    FactorSign(s, 2 * r + 1 - 2 * lo);
    assert s * (2 * hi - 2 * r + 1) == 2 * (s * hi) - 2 * s * r + s;
    FactorSign(s, 2 * hi - 2 * r + 1);
  }

  /** Rounding a fraction i / steps of a distance gives a value between 0 and the distance. */
  lemma RoundedFraction(dist: int, i: int, steps: int)
    requires 0 <= i <= steps && steps > 0
    ensures var r := RoundQuotient(dist * i, steps);
      (dist >= 0 ==> 0 <= r <= dist) && (dist < 0 ==> dist <= r <= 0)
    ensures i == 0 ==> RoundQuotient(dist * i, steps) == 0
    ensures i == steps ==> RoundQuotient(dist * i, steps) == dist
  {
    assert dist * steps - dist * i == dist * (steps - i);
    if dist >= 0 {
      assert dist * (steps - i) >= 0 && dist * i >= 0;
      RoundQuotientBetween(dist * i, steps, 0, dist);
    } else {
      assert dist * (steps - i) <= 0 && dist * i <= 0;
      RoundQuotientBetween(dist * i, steps, dist, 0);
    }
    if i == steps {
      RoundQuotientBetween(dist * i, steps, dist, dist);
    }
    if i == 0 {
      RoundQuotientBetween(dist * i, steps, 0, 0);
    }
  }

  /**
   * When the distance between the ends fits in an `int`, every step of a move
   * lies between its two ends, the first at the start and the last at the end.
   */
  lemma MoveCoordinateBetween(a: int, b: int, i: int, steps: int)
    requires InIntRange(a) && InIntRange(b) && InIntRange(b - a)
    requires 0 <= i <= steps && steps > 0
    ensures var m := MoveCoordinate(a, b, i, steps);
      (a <= b ==> a <= m <= b) && (b < a ==> b <= m <= a)
    ensures i == 0 ==> MoveCoordinate(a, b, i, steps) == a
    ensures i == steps ==> MoveCoordinate(a, b, i, steps) == b
  {
    RoundedFraction(b - a, i, steps);
  }

  /** The time of the i-th MOVE event. */
  function MoveTime(downTime: int, duration: int, i: int): int
    requires duration > 0
  {
    downTime + StepDuration(duration) * i
  }

  /** The i-th MOVE event of a swipe (1 <= i < steps). */
  function MoveEvent(s: Swipe, downTime: int, i: int): MotionEvent
    requires s.duration > 0
  {
    var steps := SwipeSteps(s.duration);
    MotionEvent(downTime, MoveTime(downTime, s.duration, i), MotionMove,
      MoveCoordinate(s.x1, s.x2, i, steps), MoveCoordinate(s.y1, s.y2, i, steps), FloatOne, 0)
  }

  /** The MOVE events of a swipe, in order: one for each step but the last. */
  function MoveEvents(s: Swipe, downTime: int): (ms: seq<MotionEvent>)
    ensures |ms| == if SwipeSteps(s.duration) == 0 then 0 else SwipeSteps(s.duration) - 1
  {
    if s.duration <= 0 then []
    else seq(SwipeSteps(s.duration) - 1, k requires 0 <= k => MoveEvent(s, downTime, k + 1))
  }

  /** Step i of a swipe (0 < i < steps) happens after its start and before start + duration. */
  lemma MoveTimeBounds(downTime: int, duration: int, i: int)
    requires duration > 0 && 0 < i < SwipeSteps(duration)
    ensures downTime < MoveTime(downTime, duration, i) < downTime + duration
  {
    var steps, step := SwipeSteps(duration), StepDuration(duration);
    StepTiming(duration);
    assert step * i >= i;
    assert step * steps - step * i == step * (steps - i) > 0;
  }

  /** Later steps happen strictly later. */
  lemma MoveTimeIncreasing(downTime: int, duration: int, i: int, j: int)
    requires duration > 0 && i < j
    ensures MoveTime(downTime, duration, i) < MoveTime(downTime, duration, j)
  {
    StepTiming(duration);
    var step := StepDuration(duration);
    assert step * j - step * i == step * (j - i) > 0;
  }

  /**
   * The MOVE events all belong to the gesture started at `downTime`, their
   * times strictly increase and stay after the start and before start +
   * duration.
   */
  lemma MoveEventsShape(s: Swipe, downTime: int)
    ensures var ms := MoveEvents(s, downTime);
      && (forall k :: 0 <= k < |ms| ==>
            ms[k].action == MotionMove && ms[k].downTime == downTime &&
            downTime < ms[k].eventTime < downTime + s.duration &&
            ms[k].pressure == FloatOne && ms[k].buttons == 0)
      && (forall j, k :: 0 <= j < k < |ms| ==> ms[j].eventTime < ms[k].eventTime)
  {
    var ms := MoveEvents(s, downTime);
    forall k | 0 <= k < |ms|
      ensures downTime < ms[k].eventTime < downTime + s.duration
    {
      MoveTimeBounds(downTime, s.duration, k + 1);
    }
    forall j, k | 0 <= j < k < |ms|
      ensures ms[j].eventTime < ms[k].eventTime
    {
      MoveTimeIncreasing(downTime, s.duration, j + 1, k + 1);
    }
  }

  /** With coordinates whose distances fit in an `int`, every MOVE point lies between the swipe's ends. */
  lemma MoveEventsBetween(s: Swipe, downTime: int)
    requires InIntRange(s.x1) && InIntRange(s.x2) && InIntRange(s.x2 - s.x1)
    requires InIntRange(s.y1) && InIntRange(s.y2) && InIntRange(s.y2 - s.y1)
    ensures var ms := MoveEvents(s, downTime);
      forall k :: 0 <= k < |ms| ==>
        (s.x1 <= s.x2 ==> s.x1 <= ms[k].x <= s.x2) && (s.x2 < s.x1 ==> s.x2 <= ms[k].x <= s.x1) &&
        (s.y1 <= s.y2 ==> s.y1 <= ms[k].y <= s.y2) && (s.y2 < s.y1 ==> s.y2 <= ms[k].y <= s.y1)
  {
    var ms := MoveEvents(s, downTime);
    forall k | 0 <= k < |ms|
      ensures (s.x1 <= s.x2 ==> s.x1 <= ms[k].x <= s.x2) && (s.x2 < s.x1 ==> s.x2 <= ms[k].x <= s.x1)
      ensures (s.y1 <= s.y2 ==> s.y1 <= ms[k].y <= s.y2) && (s.y2 < s.y1 ==> s.y2 <= ms[k].y <= s.y1)
    {
      var steps := SwipeSteps(s.duration);
      MoveCoordinateBetween(s.x1, s.x2, k + 1, steps);
      MoveCoordinateBetween(s.y1, s.y2, k + 1, steps);
    }
  }

  /** A 160 ms swipe takes 10 steps of 16 ms: 9 MOVE events, the first 16 ms after the start. */
  lemma SwipeOf160Ms(s: Swipe, downTime: int)
    requires s.duration == 160
    ensures SwipeSteps(s.duration) == 10 && StepDuration(s.duration) == 16
    ensures |MoveEvents(s, downTime)| == 9
    ensures MoveEvents(s, downTime)[0].eventTime == downTime + 16
  {
  }
}
