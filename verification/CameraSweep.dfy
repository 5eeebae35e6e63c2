/** The analytic rounded-lens sweep (platform/camera_obstruction.c): a convex lens of five corners, grown
    by a skin, moves in a straight line past a triangle. A swept separating-axis test gives a time window
    and a bounded interval search proves that window clear or finds a contact. Times are reals; a frame's
    move runs from 0 to 1. */
module CameraSweep {
  import opened CameraGeometry

  function TwoToMinus(n: nat): (r: real)
    ensures 0.0 < r <= 1.0
  {
    if n == 0 then 1.0 else TwoToMinus(n - 1) / 2.0
  }

  lemma {:induction false} HalvingShrinks(n: nat, m: nat)
    requires n <= m
    ensures TwoToMinus(m) <= TwoToMinus(n)
  {
    if n < m {
      HalvingShrinks(n, m - 1);
    }
  }

  lemma FourHalvings(n: nat)
    ensures TwoToMinus(n + 4) == TwoToMinus(n) / 16.0
  {
    assert TwoToMinus(n + 2) == TwoToMinus(n) / 4.0;
  }

  lemma SixteenHalvings(n: nat)
    ensures TwoToMinus(n + 16) == TwoToMinus(n) / 65536.0
  {
    FourHalvings(n);
    FourHalvings(n + 4);
    FourHalvings(n + 8);
    FourHalvings(n + 12);
  }

  /** The smallest normal double. */
  const DBL_MIN: real := TwoToMinus(1022)

  const SLACK: real := 0.000000000001
  const BOUNDED_INTERVAL_TESTS: nat := 96
  const BISECTION_ITERATIONS: nat := 16
  const CLEARANCE_UNCERTAINTY_RATIO: real := 0.000000001

  /** It is two to the minus 1022: fourteen halvings more than sixty-three sixteens of them. */
  lemma SmallestNormal()
    ensures DBL_MIN * 16384.0 == TwoToMinus(16 * 63)
    ensures TwoToMinus(0) == 1.0 && forall n: nat :: TwoToMinus(n + 16) * 65536.0 == TwoToMinus(n)
  {
    FourHalvings(1008);
    FourHalvings(1012);
    FourHalvings(1016);
    assert TwoToMinus(1022) == TwoToMinus(1020) / 4.0;
    forall n: nat ensures TwoToMinus(n + 16) * 65536.0 == TwoToMinus(n) {
      SixteenHalvings(n);
    }
  }

  lemma SmallestIsTiny()
    ensures 0.0 < DBL_MIN < SLACK
  {
    HalvingShrinks(40, 1022);
    SixteenHalvings(0);
    SixteenHalvings(16);
    FourHalvings(32);
    FourHalvings(36);
  }

  function Abs(a: real): (r: real)
    ensures r >= 0.0 && (r == a || r == -a)
  {
    if a < 0.0 then -a else a
  }

  datatype Guard = Guard(forward: Vec, right: Vec, up: Vec, near: real, halfWidth: real, halfHeight: real,
                         skin: real, radius: real)

  /** The eye at `start` moves by `delta`; `travel` is the length of `delta`. */
  datatype Scene = Scene(guard: Guard, start: Vec, delta: Vec, travel: real, a: Vec, b: Vec, c: Vec)

  ghost predicate WellFormed(s: Scene) {
    s.guard.skin >= 0.0 && s.travel >= 0.0 && Square(s.travel) == Len2(s.delta)
  }

  /** The four corners of the near plane, and the eye itself. */
  function Lens(g: Guard, eye: Vec): (corners: seq<Vec>)
    ensures |corners| == 5
  {
    var center := Add(eye, Scale(g.forward, g.near));
    var h := Scale(g.right, g.halfWidth);
    var v := Scale(g.up, g.halfHeight);
    [Sub(Sub(center, h), v), Add(Sub(center, v), h), Add(Add(center, h), v), Add(Sub(center, h), v), eye]
  }

  /** In the frame of the camera the eye sees four corners at the near distance, half the width to either side
      and half the height up and down, in order around the near plane; the fifth corner is the eye. */
  lemma NearPlane(g: Guard, eye: Vec, k: nat)
    requires k < 4
    requires Len2(g.forward) == Len2(g.right) == Len2(g.up) == 1.0
    requires Dot(g.forward, g.right) == Dot(g.forward, g.up) == Dot(g.right, g.up) == 0.0
    ensures var seen := Sub(Lens(g, eye)[k], eye);
            && Dot(seen, g.forward) == g.near
            && Dot(seen, g.right) == (if k == 1 || k == 2 then g.halfWidth else -g.halfWidth)
            && Dot(seen, g.up) == (if k >= 2 then g.halfHeight else -g.halfHeight)
    ensures Lens(g, eye)[4] == eye
  {
    var sideways := if k == 1 || k == 2 then g.halfWidth else -g.halfWidth;
    var upward := if k >= 2 then g.halfHeight else -g.halfHeight;
    hide Dot;
    assert Sub(Lens(g, eye)[k], eye) ==
           Add(Add(Scale(g.forward, g.near), Scale(g.right, sideways)), Scale(g.up, upward));
    SeenAlong(g, sideways, upward, g.forward);
    SeenAlong(g, sideways, upward, g.right);
    SeenAlong(g, sideways, upward, g.up);
    DotCommutes(g.forward, g.right);
    DotCommutes(g.forward, g.up);
    DotCommutes(g.right, g.up);
  }

  lemma SeenAlong(g: Guard, sideways: real, upward: real, axis: Vec)
    ensures Dot(Add(Add(Scale(g.forward, g.near), Scale(g.right, sideways)), Scale(g.up, upward)), axis) ==
            Dot(g.forward, axis) * g.near + Dot(g.right, axis) * sideways + Dot(g.up, axis) * upward
  {
    hide Dot;
    DotOfSum(Add(Scale(g.forward, g.near), Scale(g.right, sideways)), g.up, upward, axis);
    DotOfSum(Scale(g.forward, g.near), g.right, sideways, axis);
    DotOfScale(g.forward, g.near, axis);
  }

  lemma DotOfScale(a: Vec, s: real, axis: Vec)
    ensures Dot(Scale(a, s), axis) == Dot(a, axis) * s
  {}

  function Triangle(s: Scene): (corners: seq<Vec>)
    ensures |corners| == 3
  {
    [s.a, s.b, s.c]
  }

  function EyeAt(s: Scene, t: real): Vec {
    Add(s.start, Scale(s.delta, t))
  }

  function Tolerance(g: Guard): (r: real)
    ensures r > 0.0
  {
    0.000000001 * Max(1.0, g.near + g.halfWidth + g.halfHeight + g.skin)
  }

  // ---- distance between the moving lens and the triangle -----------------------------

  /** Weights of a point of the lens and of a point of the triangle. */
  ghost predicate Pair(w: seq<real>, u: seq<real>) {
    Convex(w, 5) && Convex(u, 3)
  }

  /** From a triangle point to a lens point, with the eye where it is at time t. */
  ghost function Gap(s: Scene, w: seq<real>, u: seq<real>, t: real): Vec
    requires |w| == 5 && |u| == 3
  {
    Sub(Blend(Lens(s.guard, EyeAt(s, t)), w), Blend(Triangle(s), u))
  }

  /** Lens and triangle are at least r apart at time t. */
  ghost predicate SeparatedBy(s: Scene, t: real, r: real) {
    forall w, u :: Pair(w, u) ==> Len2(Gap(s, w, u, t)) >= Square(r)
  }

  /** Lens and triangle come within r of each other at time t. */
  ghost predicate Touch(s: Scene, t: real, r: real) {
    exists w, u :: Pair(w, u) && Len2(Gap(s, w, u, t)) <= Square(r)
  }

  /** Positive clearance: further apart than the skin. */
  ghost predicate Clear(s: Scene, t: real) {
    exists r :: r > s.guard.skin && SeparatedBy(s, t, r)
  }

  ghost predicate Contact(s: Scene, t: real) {
    Touch(s, t, s.guard.skin + Tolerance(s.guard))
  }

  /** Contact is coming within the skin and a billionth: of one, or of the size of the lens if that is more. */
  lemma ContactWithin(s: Scene, t: real)
    ensures var size := s.guard.near + s.guard.halfWidth + s.guard.halfHeight + s.guard.skin;
            && (size <= 1.0 ==> (Contact(s, t) <==> Touch(s, t, s.guard.skin + 0.000000001)))
            && (size >= 1.0 ==> (Contact(s, t) <==> Touch(s, t, s.guard.skin + 0.000000001 * size)))
  {
    hide Touch;
  }

  lemma {:induction false} BlendShift(points: seq<Vec>, moved: seq<Vec>, w: seq<real>, d: Vec)
    requires |points| == |moved| == |w|
    requires forall i :: 0 <= i < |points| ==> moved[i] == Add(points[i], d)
    ensures Blend(moved, w) == Add(Blend(points, w), Scale(d, Sum(w)))
  {
    hide Add, Scale;
    if |w| == 0 {
      NoShift(d);
    } else {
      BlendShift(points[1..], moved[1..], w[1..], d);
      ShiftStep(points[0], d, w[0], Blend(points[1..], w[1..]), Sum(w[1..]), Sum(w));
    }
  }

  lemma NoShift(d: Vec)
    ensures Add(Vec(0.0, 0.0, 0.0), Scale(d, 0.0)) == Vec(0.0, 0.0, 0.0)
  {
    hide Dot, Cross, Sub, Square, Times, Sum, Blend, Mix;
    TimesZero(d.x);
    TimesZero(d.y);
    TimesZero(d.z);
  }

  lemma TimesZero(a: real)
    ensures a * 0.0 == 0.0
  {
    hide *;
  }

  lemma ShiftScalar(p: real, d: real, q: real, w: real, rest: real, sum: real, total: real)
    requires q == p + d && total == w + sum
    ensures q * w + (rest + d * sum) == (p * w + rest) + d * total
  {
    hide *;
    assert q * w == p * w + d * w;
    assert d * total == d * w + d * sum;
  }

  lemma ShiftStep(p: Vec, d: Vec, w: real, rest: Vec, sum: real, total: real)
    requires total == w + sum
    ensures Add(Scale(Add(p, d), w), Add(rest, Scale(d, sum))) == Add(Add(Scale(p, w), rest), Scale(d, total))
  {
    hide Dot, Cross, Sub, Square, Times, Sum, Blend, Mix;
    var q := Add(p, d);
    var l, r := Add(Scale(q, w), Add(rest, Scale(d, sum))), Add(Add(Scale(p, w), rest), Scale(d, total));
    assert l.x == r.x by { ShiftScalar(p.x, d.x, q.x, w, rest.x, sum, total); }
    assert l.y == r.y by { ShiftScalar(p.y, d.y, q.y, w, rest.y, sum, total); }
    assert l.z == r.z by { ShiftScalar(p.z, d.z, q.z, w, rest.z, sum, total); }
  }

  /** Moving the eye moves the whole lens with it. */
  lemma GapMoves(s: Scene, w: seq<real>, u: seq<real>, t0: real, t: real)
    requires Pair(w, u)
    ensures Gap(s, w, u, t) == Add(Gap(s, w, u, t0), Scale(s.delta, t - t0))
  {
    hide Sum, Blend, Dot, Cross, Square, Times, Mix;
    var d := Scale(s.delta, t - t0);
    var here, there := Lens(s.guard, EyeAt(s, t0)), Lens(s.guard, EyeAt(s, t));
    EyeMoves(s, t0, t);
    forall i | 0 <= i < 5 ensures there[i] == Add(here[i], d) {
      CornerMoves(s.guard, EyeAt(s, t0), EyeAt(s, t), d, i);
    }
    BlendShift(here, there, w, d);
    ScaleOne(d);
  }

  lemma ScaleOne(d: Vec)
    ensures Scale(d, 1.0) == d
  {}

  lemma EyeMoves(s: Scene, t0: real, t: real)
    ensures EyeAt(s, t) == Add(EyeAt(s, t0), Scale(s.delta, t - t0))
  {
    TimesDifference(s.delta.x, t, t0, t - t0);
    TimesDifference(s.delta.y, t, t0, t - t0);
    TimesDifference(s.delta.z, t, t0, t - t0);
  }

  lemma TimesDifference(x: real, t: real, t0: real, d: real)
    requires d == t - t0
    ensures x * t == x * t0 + x * d
  {
    hide *;
    assert x * t == x * (t0 + d);
  }

  lemma CornerMoves(g: Guard, eye: Vec, moved: Vec, d: Vec, i: nat)
    requires moved == Add(eye, d) && i < 5
    ensures Lens(g, moved)[i] == Add(Lens(g, eye)[i], d)
  {
    hide Scale;
  }

  /** Clearance changes no faster than the eye moves. */
  lemma Lipschitz(s: Scene, t0: real, t: real, r: real, m: real)
    requires WellFormed(s) && SeparatedBy(s, t0, r) && 0.0 <= m <= r && Abs(t - t0) * s.travel <= m
    ensures SeparatedBy(s, t, r - m)
  {
    hide Gap, Square, Dot, Scale, Add;
    var d := t - t0;
    forall w, u | Pair(w, u) ensures Len2(Gap(s, w, u, t)) >= Square(r - m) {
      GapMoves(s, w, u, t0, t);
      StepLength(s, d, m);
      SumAtLeast(Gap(s, w, u, t0), Scale(s.delta, d), r, m);
    }
  }

  lemma StepLength(s: Scene, d: real, m: real)
    requires WellFormed(s) && Abs(d) * s.travel <= m
    ensures Len2(Scale(s.delta, d)) <= Square(m)
  {
    hide Square;
    var far := Abs(d);
    ScaleAtMost(s.delta, s.travel, far);
    Commute(far, s.travel);
    SquareMonotone(s.travel * far, m);
    if d < 0.0 {
      ScaleMirror(s.delta, far);
    }
  }

  lemma ScaleMirror(a: Vec, s: real)
    ensures Len2(Scale(a, -s)) == Len2(Scale(a, s))
  {}

  lemma Commute(a: real, b: real)
    ensures a * b == b * a
  {}

  /** Contact times form an interval: lens and triangle are convex and the lens moves in a line. */
  lemma ContactConvex(s: Scene, t0: real, t1: real, t: real, r: real)
    requires r >= 0.0 && t0 <= t <= t1 && Touch(s, t0, r) && Touch(s, t1, r)
    ensures Touch(s, t, r)
  {
    if t0 < t1 {
      var w0, u0 :| Pair(w0, u0) && Len2(Gap(s, w0, u0, t0)) <= Square(r);
      var w1, u1 :| Pair(w1, u1) && Len2(Gap(s, w1, u1, t1)) <= Square(r);
      var share, mu := Between(t0, t1, t);
      var w, u := Mix(w0, w1, share), Mix(u0, u1, share);
      MixPair(w0, u0, w1, u1, share, mu);
      GapMix(s, w0, u0, t0, w1, u1, t1, share, mu, t);
      MixAtMost(Gap(s, w0, u0, t0), Gap(s, w1, u1, t1), r, share);
      assert Pair(w, u) && Len2(Gap(s, w, u, t)) <= Square(r);
    }
  }

  /** The weights that place t between t0 and t1. */
  lemma Between(t0: real, t1: real, t: real) returns (share: real, mu: real)
    requires t0 < t1 && t0 <= t <= t1
    ensures 0.0 <= share <= 1.0 && share + mu == 1.0
    ensures t == t0 * share + t1 * mu
  {
    hide *;
    var span := t1 - t0;
    share := (t1 - t) / span;
    mu := 1.0 - share;
    assert share * span == t1 - t;
    assert t0 * share + t1 * mu == t1 - share * span;
    if share < 0.0 {
      MulStrict(share, 0.0, span);
    } else if share > 1.0 {
      MulStrict(1.0, share, span);
    }
  }

  lemma OneMix(a: real, b: real, share: real, mu: real)
    requires a == 1.0 && b == 1.0 && share + mu == 1.0
    ensures a * share + b * mu == 1.0
  {}

  lemma MixPair(w0: seq<real>, u0: seq<real>, w1: seq<real>, u1: seq<real>, share: real, mu: real)
    requires Pair(w0, u0) && Pair(w1, u1) && 0.0 <= share <= 1.0 && share + mu == 1.0
    ensures Pair(Mix(w0, w1, share), Mix(u0, u1, share))
  {
    hide Sum, Mix, NonNegative;
    MixSum(w0, w1, share, mu);
    MixSum(u0, u1, share, mu);
    OneMix(Sum(w0), Sum(w1), share, mu);
    OneMix(Sum(u0), Sum(u1), share, mu);
    MixNonNegative(w0, w1, share);
    MixNonNegative(u0, u1, share);
  }

  /** The gap is linear in weights and time together. */
  lemma GapMix(s: Scene, w0: seq<real>, u0: seq<real>, t0: real, w1: seq<real>, u1: seq<real>, t1: real,
               share: real, mu: real, t: real)
    requires Pair(w0, u0) && Pair(w1, u1) && 0.0 <= share <= 1.0
    requires share + mu == 1.0 && t == t0 * share + t1 * mu
    ensures |Mix(w0, w1, share)| == 5 && |Mix(u0, u1, share)| == 3
    ensures Gap(s, Mix(w0, w1, share), Mix(u0, u1, share), t) ==
            Add(Scale(Gap(s, w0, u0, t0), share), Scale(Gap(s, w1, u1, t1), mu))
  {
    hide Gap, Add, Scale, Mix, Blend, Sum;
    var w, u := Mix(w0, w1, share), Mix(u0, u1, share);
    MixPair(w0, u0, w1, u1, share, mu);
    GapMoves(s, w, u, 0.0, t);
    GapMoves(s, w0, u0, 0.0, t0);
    GapMoves(s, w1, u1, 0.0, t1);
    StillMix(s, w0, u0, w1, u1, share);
    LineMix(Gap(s, w0, u0, 0.0), Gap(s, w1, u1, 0.0), s.delta, t0, t1, t, share, mu);
  }

  lemma StillMix(s: Scene, w0: seq<real>, u0: seq<real>, w1: seq<real>, u1: seq<real>, share: real)
    requires |w0| == |w1| == 5 && |u0| == |u1| == 3
    ensures Gap(s, Mix(w0, w1, share), Mix(u0, u1, share), 0.0) ==
            Add(Scale(Gap(s, w0, u0, 0.0), share), Scale(Gap(s, w1, u1, 0.0), 1.0 - share))
  {
    hide Lens, Add, Scale, Sub, Mix, Blend;
    var lens, triangle := Lens(s.guard, EyeAt(s, 0.0)), Triangle(s);
    BlendMix(lens, w0, w1, share);
    BlendMix(triangle, u0, u1, share);
    SubMix(Blend(lens, w0), Blend(lens, w1), Blend(triangle, u0), Blend(triangle, u1), share, 1.0 - share);
  }

  lemma SubMix(a: Vec, b: Vec, c: Vec, d: Vec, share: real, mu: real)
    ensures Sub(Add(Scale(a, share), Scale(b, mu)), Add(Scale(c, share), Scale(d, mu))) ==
            Add(Scale(Sub(a, c), share), Scale(Sub(b, d), mu))
  {
    hide Dot, Cross, Square, Times, Sum, Blend, Mix;
    var p, q := Sub(a, c), Sub(b, d);
    SubScalar(a.x, b.x, c.x, d.x, p.x, q.x, share, mu);
    SubScalar(a.y, b.y, c.y, d.y, p.y, q.y, share, mu);
    SubScalar(a.z, b.z, c.z, d.z, p.z, q.z, share, mu);
  }

  lemma SubScalar(a: real, b: real, c: real, d: real, p: real, q: real, share: real, mu: real)
    requires p == a - c && q == b - d
    ensures (a * share + b * mu) - (c * share + d * mu) == p * share + q * mu
  {
    hide *;
    assert p * share == (a - c) * share;
    assert q * mu == (b - d) * mu;
  }

  lemma LineMix(a: Vec, b: Vec, d: Vec, t0: real, t1: real, t: real, share: real, mu: real)
    requires t == t0 * share + t1 * mu
    ensures Add(Add(Scale(a, share), Scale(b, mu)), Scale(d, t - 0.0)) ==
            Add(Scale(Add(a, Scale(d, t0 - 0.0)), share), Scale(Add(b, Scale(d, t1 - 0.0)), mu))
  {
    hide Dot, Cross, Sub, Square, Times, Sum, Blend, Mix;
    var p, q := Add(a, Scale(d, t0 - 0.0)), Add(b, Scale(d, t1 - 0.0));
    LineScalar(a.x, b.x, d.x, t0, t1, t, p.x, q.x, share, mu);
    LineScalar(a.y, b.y, d.y, t0, t1, t, p.y, q.y, share, mu);
    LineScalar(a.z, b.z, d.z, t0, t1, t, p.z, q.z, share, mu);
  }

  lemma LineScalar(a: real, b: real, d: real, t0: real, t1: real, t: real, p: real, q: real, share: real, mu: real)
    requires t == t0 * share + t1 * mu && p == a + d * t0 && q == b + d * t1
    ensures (a * share + b * mu) + d * t == p * share + q * mu
  {
    hide *;
    assert p * share == a * share + d * t0 * share;
    assert q * mu == b * mu + d * t1 * mu;
    assert d * t == d * t0 * share + d * t1 * mu;
  }

  // ---- consequences the search relies on ---------------------------------------------

  lemma NotBoth(s: Scene, t: real, r: real, q: real)
    requires SeparatedBy(s, t, r) && Touch(s, t, q) && 0.0 <= q
    ensures r <= q
  {
    hide Gap, Len2, Square;
    if q < r {
      SquareStrict(q, r);
    }
  }

  lemma NoTouchSeparates(s: Scene, t: real, r: real)
    requires !Touch(s, t, r)
    ensures SeparatedBy(s, t, r)
  {
    hide Gap, Len2, Square;
  }

  /** Clear is further apart than the skin: no point of the lens comes within it. */
  lemma ClearMeans(s: Scene, t: real)
    requires WellFormed(s) && Clear(s, t)
    ensures !Touch(s, t, s.guard.skin)
  {
    hide SeparatedBy, Touch;
    var r :| r > s.guard.skin && SeparatedBy(s, t, r);
    if Touch(s, t, s.guard.skin) {
      NotBoth(s, t, r, s.guard.skin);
      assert false;
    }
  }

  /** No contact now but contact later: there was none before either. */
  lemma NoEarlierContact(s: Scene, low: real, high: real, r: real, t: real)
    requires WellFormed(s) && t <= low <= high
    requires SeparatedBy(s, low, r) && r > s.guard.skin + Tolerance(s.guard)
    requires Contact(s, high)
    ensures Clear(s, t)
  {
    hide Gap, SeparatedBy, Touch;
    var reach := s.guard.skin + Tolerance(s.guard);
    if Touch(s, t, reach) {
      ContactConvex(s, t, high, low, reach);
      NotBoth(s, low, r, reach);
    } else {
      NoTouchSeparates(s, t, reach);
    }
  }

  /** The endpoint clearances of an interval prove every time inside it clear, by half their sum less the
      travel between. */
  lemma IntervalClear(s: Scene, low: real, high: real, lowClearance: real, highClearance: real, t: real,
                      least: real)
    requires WellFormed(s) && low <= t <= high && lowClearance > 0.0 && highClearance > 0.0
    requires SeparatedBy(s, low, s.guard.skin + lowClearance)
    requires SeparatedBy(s, high, s.guard.skin + highClearance)
    requires lowClearance + highClearance - s.travel * (high - low) > 2.0 * least >= 0.0
    ensures SeparatedBy(s, t, s.guard.skin + least) && Clear(s, t)
  {
    hide SeparatedBy;
    var before, after := s.travel * (t - low), s.travel * (high - t);
    assert before + after == s.travel * (high - low);
    ProductNonNegative(s.travel, t - low);
    ProductNonNegative(s.travel, high - t);
    if lowClearance - before > least {
      Lipschitz(s, low, t, s.guard.skin + lowClearance, before);
      Closer(s, t, s.guard.skin + lowClearance - before, s.guard.skin + least);
    } else {
      Lipschitz(s, high, t, s.guard.skin + highClearance, after);
      Closer(s, t, s.guard.skin + highClearance - after, s.guard.skin + least);
    }
  }

  lemma Closer(s: Scene, t: real, r: real, q: real)
    requires SeparatedBy(s, t, r) && 0.0 <= q <= r
    ensures SeparatedBy(s, t, q)
  {
    hide Gap, Len2, Square;
    SquareMonotone(q, r);
  }

  // ---- swept separating axes -----------------------------------------------------------

  function Face(i: nat): (f: (nat, nat, nat))
    requires i < 6
    ensures f.0 < 5 && f.1 < 5 && f.2 < 5
  {
    [(4, 0, 1), (4, 1, 2), (4, 2, 3), (4, 3, 0), (0, 1, 2), (0, 2, 3)][i]
  }

  function LensEdge(i: nat): (e: (nat, nat))
    requires i < 8
    ensures e.0 < 5 && e.1 < 5
  {
    [(4, 0), (4, 1), (4, 2), (4, 3), (0, 1), (1, 2), (2, 3), (3, 0)][i]
  }

  function Along(points: seq<Vec>, i: nat, j: nat): Vec
    requires i < |points| && j < |points|
  {
    Sub(points[j], points[i])
  }

  /** The i-th candidate axis: six lens faces, the triangle, then every lens edge with every triangle edge. */
  function AxisAt(lens: seq<Vec>, triangle: seq<Vec>, i: nat): Vec
    requires |lens| == 5 && |triangle| == 3 && i < 31
  {
    if i < 6 then
      var f := Face(i);
      Cross(Along(lens, f.0, f.1), Along(lens, f.0, f.2))
    else if i == 6 then Cross(Along(triangle, 0, 1), Along(triangle, 0, 2))
    else
      var e, k := LensEdge((i - 7) / 3), (i - 7) % 3;
      Cross(Along(lens, e.0, e.1), Along(triangle, k, (k + 1) % 3))
  }

  /** The axes, spelled out: the faces through the eye and two neighbouring corners, both halves of the near
      plane, the triangle, and each edge from the eye or around the near plane with each edge of the triangle. */
  lemma AxesSpelled(e: Vec, p: seq<Vec>, q: seq<Vec>, k: nat, j: nat)
    requires |p| == 4 && |q| == 3 && k < 4 && j < 3
    ensures var next, side := p[if k == 3 then 0 else k + 1], Sub(q[if j == 2 then 0 else j + 1], q[j]);
            && AxisAt(p + [e], q, k) == Cross(Sub(p[k], e), Sub(next, e))
            && AxisAt(p + [e], q, 4) == Cross(Sub(p[1], p[0]), Sub(p[2], p[0]))
            && AxisAt(p + [e], q, 5) == Cross(Sub(p[2], p[0]), Sub(p[3], p[0]))
            && AxisAt(p + [e], q, 6) == Cross(Sub(q[1], q[0]), Sub(q[2], q[0]))
            && AxisAt(p + [e], q, 7 + 3 * k + j) == Cross(Sub(p[k], e), side)
            && AxisAt(p + [e], q, 19 + 3 * k + j) == Cross(Sub(next, p[k]), side)
  {
    hide Cross, Sub;
    var lens := p + [e];
    assert lens[4] == e && lens[0] == p[0] && lens[1] == p[1] && lens[2] == p[2] && lens[3] == p[3];
    EdgeNumber(k, j);
    EdgeNumber(4 + k, j);
  }

  lemma EdgeNumber(edge: nat, j: nat)
    requires j < 3
    ensures (3 * edge + j) / 3 == edge && (3 * edge + j) % 3 == j
  {}

  /** Each axis is square to the edges it was built from: a face of the lens, the triangle, or a pair of edges. */
  lemma AxesAreNormals(lens: seq<Vec>, triangle: seq<Vec>, i: nat)
    requires |lens| == 5 && |triangle| == 3 && i < 31
    ensures var axis := AxisAt(lens, triangle, i);
            if i < 6 then
              var f := Face(i);
              Dot(axis, Along(lens, f.0, f.1)) == 0.0 && Dot(axis, Along(lens, f.0, f.2)) == 0.0
            else if i == 6 then
              forall k, j :: 0 <= k < 3 && 0 <= j < 3 ==> Dot(axis, Along(triangle, k, j)) == 0.0
            else
              var e, k := LensEdge((i - 7) / 3), (i - 7) % 3;
              Dot(axis, Along(lens, e.0, e.1)) == 0.0 && Dot(axis, Along(triangle, k, (k + 1) % 3)) == 0.0
  {
    if i < 6 {
      var f := Face(i);
      CrossIsNormal(Along(lens, f.0, f.1), Along(lens, f.0, f.2));
    } else if i == 6 {
      var u, v := Along(triangle, 0, 1), Along(triangle, 0, 2);
      CrossIsNormal(u, v);
      forall k, j | 0 <= k < 3 && 0 <= j < 3 ensures Dot(Cross(u, v), Along(triangle, k, j)) == 0.0 {
        hide Dot, Cross;
        DotOfDifference(triangle[j], triangle[k], Cross(u, v));
        DotOfDifference(triangle[1], triangle[0], Cross(u, v));
        DotOfDifference(triangle[2], triangle[0], Cross(u, v));
        DotCommutes(Cross(u, v), u);
        DotCommutes(Cross(u, v), v);
        DotCommutes(Cross(u, v), Along(triangle, k, j));
      }
    } else {
      var e, k := LensEdge((i - 7) / 3), (i - 7) % 3;
      CrossIsNormal(Along(lens, e.0, e.1), Along(triangle, k, (k + 1) % 3));
    }
  }

  lemma CrossIsNormal(a: Vec, b: Vec)
    ensures Dot(Cross(a, b), a) == 0.0 && Dot(Cross(a, b), b) == 0.0
  {}

  lemma DotCommutes(a: Vec, b: Vec)
    ensures Dot(a, b) == Dot(b, a)
  {}

  method LensTriangleAxes(lens: seq<Vec>, triangle: seq<Vec>) returns (axes: array<Vec>)
    requires |lens| == 5 && |triangle| == 3
    ensures fresh(axes) && axes.Length == 31
    ensures forall i :: 0 <= i < 31 ==> axes[i] == AxisAt(lens, triangle, i)
  {
    hide Cross, Sub, Face, LensEdge;
    axes := new Vec[31];
    var count := 0;
    for face := 0 to 6
      invariant count == face
      invariant forall i :: 0 <= i < count ==> axes[i] == AxisAt(lens, triangle, i)
    {
      var f := Face(face);
      axes[count] := Cross(Along(lens, f.0, f.1), Along(lens, f.0, f.2));
      count := count + 1;
    }
    axes[count] := Cross(Along(triangle, 0, 1), Along(triangle, 0, 2));
    count := count + 1;
    for edge := 0 to 8
      invariant count == 7 + 3 * edge
      invariant forall i :: 0 <= i < count ==> axes[i] == AxisAt(lens, triangle, i)
    {
      var e := LensEdge(edge);
      for k := 0 to 3
        invariant count == 7 + 3 * edge + k
        invariant forall i :: 0 <= i < count ==> axes[i] == AxisAt(lens, triangle, i)
      {
        axes[count] := Cross(Along(lens, e.0, e.1), Along(triangle, k, (k + 1) % 3));
        count := count + 1;
      }
    }
  }

  ghost predicate ProjectsWithin(points: seq<Vec>, axis: Vec, low: real, high: real) {
    forall i :: 0 <= i < |points| ==> low <= Dot(points[i], axis) <= high
  }

  ghost predicate Reaches(points: seq<Vec>, axis: Vec, x: real) {
    exists i :: 0 <= i < |points| && Dot(points[i], axis) == x
  }

  /** The extent of a hull along an axis. */
  method Project(points: seq<Vec>, axis: Vec) returns (low: real, high: real)
    requires |points| > 0
    ensures ProjectsWithin(points, axis, low, high)
    ensures Reaches(points, axis, low) && Reaches(points, axis, high)
  {
    hide Dot;
    low := Dot(points[0], axis);
    high := low;
    for i := 1 to |points|
      invariant ProjectsWithin(points[..i], axis, low, high)
      invariant Reaches(points, axis, low) && Reaches(points, axis, high)
    {
      var projection := Dot(points[i], axis);
      low := Min(low, projection);
      high := Max(high, projection);
      assert points[..i + 1][i] == points[i];
    }
    assert points[..|points|] == points;
  }

  lemma DotOfSum(a: Vec, d: Vec, t: real, axis: Vec)
    ensures Dot(Add(a, Scale(d, t)), axis) == Dot(a, axis) + Dot(d, axis) * t
  {
    DotStep(d, t, a, axis);
  }

  lemma DotOfDifference(a: Vec, b: Vec, axis: Vec)
    ensures Dot(Sub(a, b), axis) == Dot(a, axis) - Dot(b, axis)
  {}

  lemma EyeAtStart(s: Scene)
    ensures EyeAt(s, 0.0) == s.start
  {
    hide Dot, Cross, Sub, Square, Times, Sum, Blend, Mix;
    TimesZero(s.delta.x);
    TimesZero(s.delta.y);
    TimesZero(s.delta.z);
  }

  lemma HullWithin(points: seq<Vec>, w: seq<real>, axis: Vec, low: real, high: real)
    requires Convex(w, |points|) && ProjectsWithin(points, axis, low, high)
    ensures low <= Dot(Blend(points, w), axis) <= high
  {
    hide Dot, Blend, Sum;
    BlendWithin(points, w, axis, low, high);
    UnitTimes(low, Sum(w));
    UnitTimes(high, Sum(w));
  }

  lemma UnitTimes(a: real, one: real)
    requires one == 1.0
    ensures a * one == a
  {}

  /** Hulls whose projections are d apart, measured along the axis, are d apart. */
  lemma AxisSeparates(s: Scene, axis: Vec, length: real, low: real, high: real, triangleLow: real,
                      triangleHigh: real, t: real, d: real)
    requires length > 0.0 && Square(length) == Len2(axis) && d >= 0.0
    requires ProjectsWithin(Lens(s.guard, s.start), axis, low, high)
    requires ProjectsWithin(Triangle(s), axis, triangleLow, triangleHigh)
    requires var shift := Dot(s.delta, axis) * t;
             high + shift + d * length <= triangleLow || triangleHigh + d * length <= low + shift
    ensures SeparatedBy(s, t, d)
  {
    hide Dot, Square, Lens, Triangle, Blend, NonNegative, Sum, Sub, Add, Scale, ProjectsWithin, Len2;
    forall w, u | Pair(w, u) ensures Len2(Gap(s, w, u, t)) >= Square(d) {
      EyeAtStart(s);
      GapMoves(s, w, u, 0.0, t);
      var lens, triangle := Blend(Lens(s.guard, s.start), w), Blend(Triangle(s), u);
      HullWithin(Lens(s.guard, s.start), w, axis, low, high);
      HullWithin(Triangle(s), u, axis, triangleLow, triangleHigh);
      DotOfDifference(lens, triangle, axis);
      DotOfSum(Sub(lens, triangle), s.delta, t, axis);
      AxisBound(Gap(s, w, u, t), axis, length, d);
    }
  }

  /** Extents grown by g and still apart: positive clearance. */
  lemma GapGivesClear(s: Scene, axis: Vec, length: real, low: real, high: real, triangleLow: real,
                      triangleHigh: real, t: real, g: real)
    requires WellFormed(s) && length > 0.0 && Square(length) == Len2(axis) && g > 0.0
    requires ProjectsWithin(Lens(s.guard, s.start), axis, low, high)
    requires ProjectsWithin(Triangle(s), axis, triangleLow, triangleHigh)
    requires var shift, grow := Dot(s.delta, axis) * t, s.guard.skin * length;
             high + shift + grow + g <= triangleLow || triangleHigh + grow + g <= low + shift
    ensures Clear(s, t)
  {
    hide Dot, Square, Lens, Triangle, ProjectsWithin, Len2, SeparatedBy;
    var extra := g / length;
    Divides(g, length, extra);
    var d := s.guard.skin + extra;
    assert d * length == s.guard.skin * length + g by { DotScalar(1.0, s.guard.skin, extra, d, length); }
    AxisSeparates(s, axis, length, low, high, triangleLow, triangleHigh, t, d);
  }

  lemma Divides(g: real, length: real, q: real)
    requires g > 0.0 && length > 0.0 && q == g / length
    ensures q > 0.0 && q * length == g
  {
    hide *;
    if q <= 0.0 {
      MulMonotone(q, 0.0, length);
    }
  }

  /** Two extents, one moving at velocity v, are apart at time t. */
  predicate Apart(low: real, high: real, triangleLow: real, triangleHigh: real, v: real, t: real) {
    high + Times(v, t) < triangleLow || triangleHigh < low + Times(v, t)
  }

  /** When two extents meet: exactly from enter to exit. */
  method AxisWindow(low: real, high: real, triangleLow: real, triangleHigh: real, v: real)
    returns (enter: real, exit: real)
    requires v != 0.0 && low <= high && triangleLow <= triangleHigh
    ensures forall t :: enter <= t <= exit <==> !Apart(low, high, triangleLow, triangleHigh, v, t)
  {
    enter := (triangleLow - high) / v;
    exit := (triangleHigh - low) / v;
    ghost var first, last := enter, exit;
    if enter > exit {
      enter, exit := exit, enter;
    }
    forall t ensures enter <= t <= exit <==> !Apart(low, high, triangleLow, triangleHigh, v, t) {
      QuotientOrder(triangleLow - high, v, first, t);
      QuotientOrder(triangleHigh - low, v, last, t);
      QuotientOrder(triangleLow - high, v, first, last);
      QuotientOrder(triangleHigh - low, v, last, first);
    }
  }

  lemma QuotientOrder(a: real, v: real, q: real, t: real)
    requires v != 0.0 && q == a / v
    ensures v > 0.0 ==> (t < q <==> v * t < a) && (q < t <==> a < v * t)
    ensures v < 0.0 ==> (q < t <==> v * t < a) && (t < q <==> a < v * t)
  {
    hide *;
    assert q * v == a;
    if v > 0.0 {
      ProductOrder(t, q, v);
    } else {
      ProductOrder(t, q, -v);
    }
  }

  lemma ProductOrder(a: real, b: real, c: real)
    requires c > 0.0
    ensures a < b <==> a * c < b * c
    ensures b < a <==> b * c < a * c
  {
    hide *;
    if a < b {
      MulStrict(a, b, c);
    } else if b < a {
      MulStrict(b, a, c);
    }
  }

  /** Every time of the window is clear by at least this. */
  ghost predicate ClearBy(s: Scene, enter: real, exit: real, least: real) {
    forall t :: enter <= t <= exit ==> KeptBy(s, t, least)
  }

  ghost predicate KeptBy(s: Scene, t: real, least: real) {
    SeparatedBy(s, t, s.guard.skin + least)
  }

  ghost predicate ClearThroughout(s: Scene, enter: real, exit: real) {
    forall t :: enter <= t <= exit ==> Clear(s, t)
  }

  /** Over the move, everything before enter and after exit is clear. */
  ghost predicate ClearOutside(s: Scene, enter: real, exit: real) {
    forall t :: 0.0 <= t <= 1.0 && (t < enter || t > exit) ==> Clear(s, t)
  }

  /** Moved up by `offset`, every point of one hull still projects below every point of the other. */
  ghost predicate Behind(points: seq<Vec>, others: seq<Vec>, axis: Vec, offset: real) {
    forall i, j :: 0 <= i < |points| && 0 <= j < |others| ==> Dot(points[i], axis) + offset < Dot(others[j], axis)
  }

  /** Grown and shifted, lens and triangle project apart along the axis. */
  ghost predicate PartedBy(s: Scene, axis: Vec, grow: real, shift: real) {
    || Behind(Lens(s.guard, s.start), Triangle(s), axis, grow + shift)
    || Behind(Triangle(s), Lens(s.guard, s.start), axis, grow - shift)
  }

  /** Grown by the skin, lens and triangle project apart along the axis at time t. */
  ghost predicate MissesAt(s: Scene, axis: Vec, length: real, t: real) {
    PartedBy(s, axis, Times(s.guard.skin, length), Times(Dot(s.delta, axis), t))
  }

  lemma BehindExtents(points: seq<Vec>, others: seq<Vec>, axis: Vec, offset: real, low: real, high: real,
                      otherLow: real, otherHigh: real)
    requires ProjectsWithin(points, axis, low, high) && Reaches(points, axis, high)
    requires ProjectsWithin(others, axis, otherLow, otherHigh) && Reaches(others, axis, otherLow)
    ensures Behind(points, others, axis, offset) <==> high + offset < otherLow
  {
    hide Dot;
  }

  lemma ApartIsParted(s: Scene, axis: Vec, grow: real, shift: real, low: real, high: real, triangleLow: real,
                      triangleHigh: real)
    requires ProjectsWithin(Lens(s.guard, s.start), axis, low, high)
    requires ProjectsWithin(Triangle(s), axis, triangleLow, triangleHigh)
    requires Reaches(Lens(s.guard, s.start), axis, low) && Reaches(Lens(s.guard, s.start), axis, high)
    requires Reaches(Triangle(s), axis, triangleLow) && Reaches(Triangle(s), axis, triangleHigh)
    ensures PartedBy(s, axis, grow, shift) <==>
            high + grow + shift < triangleLow || triangleHigh < low - grow + shift
  {
    hide Dot, Lens, Triangle, ProjectsWithin, Reaches, Behind;
    var lens, triangle := Lens(s.guard, s.start), Triangle(s);
    BehindExtents(lens, triangle, axis, grow + shift, low, high, triangleLow, triangleHigh);
    BehindExtents(triangle, lens, axis, grow - shift, triangleLow, triangleHigh, low, high);
  }

  lemma ApartIsMiss(s: Scene, axis: Vec, length: real, low: real, high: real, triangleLow: real,
                    triangleHigh: real, t: real)
    requires ProjectsWithin(Lens(s.guard, s.start), axis, low, high)
    requires ProjectsWithin(Triangle(s), axis, triangleLow, triangleHigh)
    requires Reaches(Lens(s.guard, s.start), axis, low) && Reaches(Lens(s.guard, s.start), axis, high)
    requires Reaches(Triangle(s), axis, triangleLow) && Reaches(Triangle(s), axis, triangleHigh)
    ensures var grow := Times(s.guard.skin, length);
            Apart(low - grow, high + grow, triangleLow, triangleHigh, Dot(s.delta, axis), t) <==>
            MissesAt(s, axis, length, t)
  {
    hide Dot, Lens, Triangle, ProjectsWithin, Reaches, PartedBy, Times;
    ApartIsParted(s, axis, Times(s.guard.skin, length), Times(Dot(s.delta, axis), t), low, high,
                  triangleLow, triangleHigh);
  }

  /** Long enough to test, and crossed fast enough to bound the window. */
  ghost predicate Bounding(s: Scene, axis: Vec) {
    Len2(axis) > DBL_MIN && Abs(Dot(s.delta, axis)) > DBL_MIN
  }

  /** Anything but the faintest axis and the slowest crossing counts. */
  lemma OrdinaryAxisBounds(s: Scene, axis: Vec)
    requires Len2(axis) >= 0.000000000001 && Abs(Dot(s.delta, axis)) >= 0.000000000001
    ensures Bounding(s, axis)
  {
    hide Dot, TwoToMinus;
    SmallestIsTiny();
  }

  /** Long enough to test but crossed too slowly to time, and parting lens and triangle where they stand by
      more than a 10^-12th of m, which bounds all their projections. */
  ghost predicate PartedStill(s: Scene, axis: Vec, length: real, m: real) {
    && Len2(axis) > DBL_MIN && Abs(Dot(s.delta, axis)) <= DBL_MIN && m >= 1.0
    && ProjectsWithin(Lens(s.guard, s.start), axis, Times(s.guard.skin, length) - m, m - Times(s.guard.skin, length))
    && ProjectsWithin(Triangle(s), axis, -m, m)
    && PartedBy(s, axis, Times(s.guard.skin, length) + 0.000000000001 * m, 0.0)
  }

  lemma StillMisses(s: Scene, axis: Vec, length: real, low: real, high: real, triangleLow: real,
                    triangleHigh: real, tolerance: real, m: real)
    requires ProjectsWithin(Lens(s.guard, s.start), axis, low, high)
    requires ProjectsWithin(Triangle(s), axis, triangleLow, triangleHigh)
    requires Reaches(Lens(s.guard, s.start), axis, low) && Reaches(Lens(s.guard, s.start), axis, high)
    requires Reaches(Triangle(s), axis, triangleLow) && Reaches(Triangle(s), axis, triangleHigh)
    requires PartedStill(s, axis, length, m) && s.guard.skin * length >= 0.0
    requires var grow := s.guard.skin * length;
             tolerance == 0.000000000001 * Max(1.0, Max(Abs(low - grow), Max(Abs(high + grow),
                                                    Max(Abs(triangleLow), Abs(triangleHigh)))))
    ensures var grow := s.guard.skin * length;
            high + grow < triangleLow - tolerance || triangleHigh < low - grow - tolerance
  {
    hide Dot, Lens, Triangle, ProjectsWithin, Reaches, PartedBy, Len2, TwoToMinus, Square;
    var grow := Times(s.guard.skin, length);
    ReachedWithin(Lens(s.guard, s.start), axis, grow - m, m - grow, low);
    ReachedWithin(Lens(s.guard, s.start), axis, grow - m, m - grow, high);
    ReachedWithin(Triangle(s), axis, -m, m, triangleLow);
    ReachedWithin(Triangle(s), axis, -m, m, triangleHigh);
    ExtentOrder(Lens(s.guard, s.start), axis, low, high);
    ExtentOrder(Triangle(s), axis, triangleLow, triangleHigh);
    ApartIsParted(s, axis, grow + 0.000000000001 * m, 0.0, low, high, triangleLow, triangleHigh);
  }

  lemma FastNotStill(s: Scene, axis: Vec, length: real, m: real)
    requires Abs(Dot(s.delta, axis)) > DBL_MIN || Len2(axis) <= DBL_MIN
    ensures !PartedStill(s, axis, length, m)
  {}

  lemma ReachedWithin(points: seq<Vec>, axis: Vec, low: real, high: real, x: real)
    requires ProjectsWithin(points, axis, low, high) && Reaches(points, axis, x)
    ensures low <= x <= high
  {
    hide Dot;
  }

  datatype Window = Missed | Meets(enter: real, exit: real)

  ghost predicate Sound(s: Scene, w: Window) {
    match w
    case Missed => ClearThroughout(s, 0.0, 1.0)
    case Meets(enter, exit) => ClearOutside(s, enter, exit)
  }

  /** One axis narrows the window, or rules contact out altogether. */
  method NarrowByAxis(s: Scene, axis: Vec, length: real, lens: seq<Vec>, triangle: seq<Vec>, enter: real, exit: real)
    returns (w: Window)
    requires WellFormed(s) && Len2(axis) > DBL_MIN && length >= 0.0 && Square(length) == Len2(axis)
    requires lens == Lens(s.guard, s.start) && triangle == Triangle(s)
    requires ClearOutside(s, enter, exit) && 0.0 <= enter <= 1.0 && 0.0 <= exit <= 1.0 && enter <= exit + SLACK
    ensures Sound(s, w)
    ensures w.Meets? ==> enter <= w.enter <= 1.0 && 0.0 <= w.exit <= exit && w.enter <= w.exit + SLACK
    ensures w.Meets? && Bounding(s, axis) ==>
              forall t :: w.enter <= t <= w.exit ==> !MissesAt(s, axis, length, t)
    ensures forall m :: w.Meets? ==> !PartedStill(s, axis, length, m)
  {
    hide PartedStill, Dot, Square, Lens, Triangle, ProjectsWithin, Reaches, Len2, Clear, TwoToMinus, MissesAt;
    SmallestIsTiny();
    var low, high := Project(lens, axis);
    var triangleLow, triangleHigh := Project(triangle, axis);
    var expansion := s.guard.skin * length;
    var v := Dot(s.delta, axis);
    RootPositive(length, Len2(axis));
    ExtentOrder(lens, axis, low, high);
    ExtentOrder(triangle, axis, triangleLow, triangleHigh);
    ProductNonNegative(s.guard.skin, length);
    var lensMin, lensMax := low - expansion, high + expansion;
    if Abs(v) <= DBL_MIN {
      var tolerance := SLACK * Max(1.0, Max(Abs(lensMin), Max(Abs(lensMax), Max(Abs(triangleLow), Abs(triangleHigh)))));
      if lensMax < triangleLow - tolerance || triangleHigh < lensMin - tolerance {
        SlowAxisClear(s, axis, length, low, high, triangleLow, triangleHigh, tolerance);
        return Missed;
      }
      forall m ensures !PartedStill(s, axis, length, m) {
        if PartedStill(s, axis, length, m) {
          StillMisses(s, axis, length, low, high, triangleLow, triangleHigh, tolerance, m);
        }
      }
      return Meets(enter, exit);
    }
    forall m ensures !PartedStill(s, axis, length, m) {
      FastNotStill(s, axis, length, m);
    }
    var axisEnter, axisExit := AxisWindow(lensMin, lensMax, triangleLow, triangleHigh, v);
    var first, last := Max(enter, axisEnter), Min(exit, axisExit);
    forall t | t < axisEnter || t > axisExit ensures Clear(s, t) {
      ApartIsClear(s, axis, length, low, high, triangleLow, triangleHigh, t);
    }
    forall t | first <= t <= last ensures !MissesAt(s, axis, length, t) {
      ApartIsMiss(s, axis, length, low, high, triangleLow, triangleHigh, t);
    }
    if first > last + SLACK || last < 0.0 || first > 1.0 {
      return Missed;
    }
    return Meets(first, last);
  }

  lemma ApartIsClear(s: Scene, axis: Vec, length: real, low: real, high: real, triangleLow: real,
                     triangleHigh: real, t: real)
    requires WellFormed(s) && length > 0.0 && Square(length) == Len2(axis)
    requires ProjectsWithin(Lens(s.guard, s.start), axis, low, high)
    requires ProjectsWithin(Triangle(s), axis, triangleLow, triangleHigh)
    requires var grow := s.guard.skin * length;
             Apart(low - grow, high + grow, triangleLow, triangleHigh, Dot(s.delta, axis), t)
    ensures Clear(s, t)
  {
    hide Dot, Square, Lens, Triangle, ProjectsWithin, Len2, Clear;
    var shift, grow := Dot(s.delta, axis) * t, s.guard.skin * length;
    var g := Max(triangleLow - (high + grow + shift), (low - grow + shift) - triangleHigh);
    GapGivesClear(s, axis, length, low, high, triangleLow, triangleHigh, t, g);
  }

  /** An axis crossed too slowly to time: apart by the tolerance, apart for the whole move. */
  lemma SlowAxisClear(s: Scene, axis: Vec, length: real, low: real, high: real, triangleLow: real,
                      triangleHigh: real, tolerance: real)
    requires WellFormed(s) && length > 0.0 && Square(length) == Len2(axis)
    requires ProjectsWithin(Lens(s.guard, s.start), axis, low, high)
    requires ProjectsWithin(Triangle(s), axis, triangleLow, triangleHigh)
    requires Abs(Dot(s.delta, axis)) <= DBL_MIN && tolerance >= SLACK
    requires var grow := s.guard.skin * length;
             high + grow < triangleLow - tolerance || triangleHigh < low - grow - tolerance
    ensures ClearThroughout(s, 0.0, 1.0)
  {
    hide Dot, Square, Lens, Triangle, ProjectsWithin, Len2, Clear, TwoToMinus;
    SmallestIsTiny();
    forall t | 0.0 <= t <= 1.0 ensures Clear(s, t) {
      SlowShift(Dot(s.delta, axis), t, DBL_MIN);
      GapGivesClear(s, axis, length, low, high, triangleLow, triangleHigh, t, tolerance - DBL_MIN);
    }
  }

  lemma RootPositive(length: real, square: real)
    requires length >= 0.0 && Square(length) == square > 0.0
    ensures length > 0.0
  {}

  lemma ExtentOrder(points: seq<Vec>, axis: Vec, low: real, high: real)
    requires |points| > 0 && ProjectsWithin(points, axis, low, high)
    ensures low <= high
  {
    assert low <= Dot(points[0], axis) <= high;
  }

  lemma SlowShift(v: real, t: real, most: real)
    requires Abs(v) <= most && 0.0 <= t <= 1.0
    ensures -most <= v * t <= most
  {
    hide *;
    AbsBound(v, most);
    ShortShift(v, t, most);
    ShortShift(-v, t, most);
    Negate(v, t);
  }

  lemma ShortShift(v: real, t: real, most: real)
    requires v <= most && 0.0 <= t <= 1.0 && most >= 0.0
    ensures v * t <= most
  {
    hide *;
    MulMonotone(v, most, t);
    PartOf(most, t);
  }

  lemma PartOf(a: real, t: real)
    requires a >= 0.0 && 0.0 <= t <= 1.0
    ensures a * t <= a
  {
    hide *;
  }

  lemma AbsBound(v: real, most: real)
    requires Abs(v) <= most
    ensures -most <= v <= most
  {}

  lemma Negate(v: real, t: real)
    ensures (-v) * t == -(v * t)
  {}

  /** The i-th axis, if it bounds the window, does not part lens and triangle at time t. */
  ghost predicate MeetsAlong(s: Scene, sqrt: real -> real, i: nat, t: real)
    requires i < 31
  {
    var axis := AxisAt(Lens(s.guard, s.start), Triangle(s), i);
    Bounding(s, axis) ==> !MissesAt(s, axis, sqrt(Len2(axis)), t)
  }

  ghost predicate StillAlong(s: Scene, sqrt: real -> real, i: nat, m: real)
    requires i < 31
  {
    var axis := AxisAt(Lens(s.guard, s.start), Triangle(s), i);
    PartedStill(s, axis, sqrt(Len2(axis)), m)
  }

  /** The window outside which lens and triangle cannot meet: no bounding axis could make it smaller, and no
      axis crossed too slowly to time parts them. */
  method SweptInterval(s: Scene, sqrt: real -> real) returns (w: Window)
    requires WellFormed(s) && IsRoot(sqrt)
    ensures Sound(s, w)
    ensures w.Meets? ==> 0.0 <= w.enter <= 1.0 && 0.0 <= w.exit <= 1.0 && w.enter <= w.exit + 0.000000000001
    ensures w.Meets? ==>
              forall i, t :: 0 <= i < 31 && w.enter <= t <= w.exit ==> MeetsAlong(s, sqrt, i, t)
    ensures w.Meets? ==> forall i, m :: 0 <= i < 31 ==> !StillAlong(s, sqrt, i, m)
  {
    hide PartedStill, Dot, Square, Lens, Triangle, AxisAt, Bounding, MissesAt, Clear, TwoToMinus;
    var lens, triangle := Lens(s.guard, s.start), Triangle(s);
    var axes := LensTriangleAxes(lens, triangle);
    var enter, exit := 0.0, 1.0;
    for i := 0 to 31
      invariant 0.0 <= enter <= 1.0 && 0.0 <= exit <= 1.0 && enter <= exit + SLACK
      invariant ClearOutside(s, enter, exit)
      invariant forall k :: 0 <= k < 31 ==> axes[k] == AxisAt(lens, triangle, k)
      invariant forall k, t :: 0 <= k < i && enter <= t <= exit ==> MeetsAlong(s, sqrt, k, t)
      invariant forall k, m :: 0 <= k < i ==> !StillAlong(s, sqrt, k, m)
    {
      var axis := axes[i];
      var axisSquared := Len2(axis);
      if axisSquared <= DBL_MIN {
        assert !Bounding(s, axis) by { SmallIsNotBounding(s, axis); }
        forall m ensures !PartedStill(s, axis, sqrt(axisSquared), m) {
          FastNotStill(s, axis, sqrt(axisSquared), m);
        }
      } else {
        SmallestIsTiny();
        var length := sqrt(axisSquared);
        var narrowed := NarrowByAxis(s, axis, length, lens, triangle, enter, exit);
        if narrowed.Missed? {
          return Missed;
        }
        enter, exit := narrowed.enter, narrowed.exit;
      }
    }
    return Meets(Min(1.0, Max(0.0, enter)), Min(1.0, Max(0.0, exit)));
  }

  lemma SmallIsNotBounding(s: Scene, axis: Vec)
    requires Len2(axis) <= DBL_MIN
    ensures !Bounding(s, axis)
  {}
}
