/** Vectors, the camera lens and its distance to a triangle (platform/camera_obstruction.c), over the
    reals. Distances are compared through their squares, so no square root is needed. */
module CameraGeometry {

  datatype Vec = Vec(x: real, y: real, z: real)

  function Add(a: Vec, b: Vec): Vec { Vec(a.x + b.x, a.y + b.y, a.z + b.z) }
  function Sub(a: Vec, b: Vec): Vec { Vec(a.x - b.x, a.y - b.y, a.z - b.z) }
  function Scale(a: Vec, s: real): Vec { Vec(a.x * s, a.y * s, a.z * s) }
  function Dot(a: Vec, b: Vec): real { a.x * b.x + a.y * b.y + a.z * b.z }
  function Cross(a: Vec, b: Vec): Vec {
    Vec(a.y * b.z - a.z * b.y, a.z * b.x - a.x * b.z, a.x * b.y - a.y * b.x)
  }
  function Len2(a: Vec): real { Dot(a, a) }

  function Max(a: real, b: real): (m: real)
    ensures m >= a && m >= b && (m == a || m == b)
  {
    if a < b then b else a
  }

  function Min(a: real, b: real): (m: real)
    ensures m <= a && m <= b && (m == a || m == b)
  {
    if b < a then b else a
  }

  function Square(a: real): real { a * a }
  function Times(a: real, b: real): real { a * b }

  /** A square root, which the geometry never needs to compute. */
  ghost predicate IsRoot(sqrt: real -> real) {
    forall x :: x >= 0.0 ==> sqrt(x) >= 0.0 && Square(sqrt(x)) == x
  }

  // ---- ordered-field arithmetic ---------------------------------------------------

  lemma SquareNonNegative(a: real)
    ensures Square(a) >= 0.0
  {}

  lemma MulMonotone(a: real, b: real, c: real)
    requires a <= b && c >= 0.0
    ensures a * c <= b * c
  {
    hide *;
  }

  lemma MulStrict(a: real, b: real, c: real)
    requires a < b && c > 0.0
    ensures a * c < b * c
  {
    hide *;
  }

  lemma SquareMonotone(a: real, b: real)
    requires 0.0 <= a <= b
    ensures Square(a) <= Square(b)
  {
    MulMonotone(a, b, a);
    MulMonotone(a, b, b);
  }

  lemma ProductNonNegative(a: real, b: real)
    requires a >= 0.0 && b >= 0.0
    ensures a * b >= 0.0
  {
    hide *;
  }

  lemma TimesPositive(a: real, b: real)
    requires a > 0.0 && b > 0.0
    ensures Times(a, b) > 0.0
  {}

  lemma SquareDifference(a: real, b: real)
    ensures Square(b) - Square(a) == Times(b - a, b + a)
  {}

  lemma SquareStrict(a: real, b: real)
    requires 0.0 <= a < b
    ensures Square(a) < Square(b)
  {
    hide Square, Times;
    TimesPositive(b - a, b + a);
    SquareDifference(a, b);
  }

  /** Comparing squares compares sizes. */
  lemma RootMonotone(a: real, b: real)
    requires b >= 0.0 && Square(a) <= Square(b)
    ensures a <= b
  {
    if a > b {
      SquareStrict(b, a);
      assert false;
    }
  }

  lemma SquareOfProduct(a: real, b: real)
    ensures Square(a * b) == Square(a) * Square(b)
  {}

  // ---- vectors --------------------------------------------------------------------

  lemma Len2NonNegative(a: Vec)
    ensures Len2(a) >= 0.0
  {
    SquareNonNegative(a.x);
    SquareNonNegative(a.y);
    SquareNonNegative(a.z);
  }

  lemma Len2OfSum(a: Vec, b: Vec)
    ensures Len2(Add(a, b)) == Len2(a) + 2.0 * Dot(a, b) + Len2(b)
  {}

  lemma Len2OfScale(a: Vec, s: real)
    ensures Len2(Scale(a, s)) == Len2(a) * Square(s)
  {}

  lemma Lagrange(a: Vec, b: Vec)
    ensures Len2(a) * Len2(b) == Square(Dot(a, b)) + Len2(Cross(a, b))
  {}

  /** The axes of a right-handed frame: each is the cross product of the next two. */
  lemma RightHanded(a: Vec, b: Vec)
    ensures a == Vec(1.0, 0.0, 0.0) && b == Vec(0.0, 1.0, 0.0) ==> Cross(a, b) == Vec(0.0, 0.0, 1.0)
    ensures a == Vec(0.0, 1.0, 0.0) && b == Vec(0.0, 0.0, 1.0) ==> Cross(a, b) == Vec(1.0, 0.0, 0.0)
    ensures a == Vec(0.0, 0.0, 1.0) && b == Vec(1.0, 0.0, 0.0) ==> Cross(a, b) == Vec(0.0, 1.0, 0.0)
  {}

  /** The Cauchy-Schwarz inequality. */
  lemma CauchySchwarz(a: Vec, b: Vec)
    ensures Square(Dot(a, b)) <= Len2(a) * Len2(b)
  {
    Lagrange(a, b);
    Len2NonNegative(Cross(a, b));
  }

  lemma DotBound(a: Vec, b: Vec, r: real, s: real)
    requires r >= 0.0 && s >= 0.0 && Len2(a) <= Square(r) && Len2(b) <= Square(s)
    ensures Dot(a, b) <= r * s
  {
    CauchySchwarz(a, b);
    Len2NonNegative(a);
    MulMonotone(Len2(b), Square(s), Len2(a));
    MulMonotone(Len2(a), Square(r), Square(s));
    SquareOfProduct(r, s);
    RootMonotone(Dot(a, b), r * s);
  }

  lemma SquareOfSum(r: real, s: real)
    ensures Square(r + s) == Square(r) + 2.0 * (r * s) + Square(s)
  {}

  /** The triangle inequality. */
  lemma SumAtMost(a: Vec, b: Vec, r: real, s: real)
    requires r >= 0.0 && s >= 0.0 && Len2(a) <= Square(r) && Len2(b) <= Square(s)
    ensures Len2(Add(a, b)) <= Square(r + s)
  {
    DotBound(a, b, r, s);
    Len2OfSum(a, b);
    SquareOfSum(r, s);
  }

  lemma LongSum(a: Vec, b: Vec, r: real, s: real)
    requires 0.0 <= s <= r && Len2(b) <= Square(s) && Square(r) <= Len2(Add(a, b))
    ensures Square(r - s) <= Len2(a)
  {
    if Len2(a) < Square(r - s) {
      DotBound(a, b, r - s, s);
      Len2OfSum(a, b);
      SquareOfSum(r - s, s);
    }
  }

  /** The reverse triangle inequality. */
  lemma SumAtLeast(a: Vec, b: Vec, r: real, s: real)
    requires 0.0 <= s <= r && Square(r) <= Len2(a) && Len2(b) <= Square(s)
    ensures Square(r - s) <= Len2(Add(a, b))
  {
    var back := Scale(b, -1.0);
    assert Len2(back) == Len2(b) by { Len2OfScale(b, -1.0); }
    LongSum(Add(a, b), back, r, s);
  }

  /** A convex combination of two short vectors is short. */
  lemma MixAtMost(a: Vec, b: Vec, r: real, share: real)
    requires r >= 0.0 && 0.0 <= share <= 1.0 && Len2(a) <= Square(r) && Len2(b) <= Square(r)
    ensures Len2(Add(Scale(a, share), Scale(b, 1.0 - share))) <= Square(r)
  {
    var mu := 1.0 - share;
    ScaleAtMost(a, r, share);
    ScaleAtMost(b, r, mu);
    SumAtMost(Scale(a, share), Scale(b, mu), r * share, r * mu);
    assert r * share + r * mu == r;
  }

  lemma ScaleAtMost(a: Vec, r: real, s: real)
    requires r >= 0.0 && s >= 0.0 && Len2(a) <= Square(r)
    ensures r * s >= 0.0 && Len2(Scale(a, s)) <= Square(r * s)
  {
    Len2OfScale(a, s);
    SquareNonNegative(s);
    MulMonotone(Len2(a), Square(r), Square(s));
    SquareOfProduct(r, s);
  }

  /** A vector that reaches d along an axis is at least d long. */
  lemma AxisBound(gap: Vec, axis: Vec, length: real, d: real)
    requires length > 0.0 && Square(length) == Len2(axis)
    requires d >= 0.0 && (Dot(gap, axis) >= d * length || Dot(gap, axis) <= -(d * length))
    ensures Len2(gap) >= Square(d)
  {
    if Len2(gap) < Square(d) {
      CauchySchwarz(gap, axis);
      SquareStrict(0.0, length);
      MulStrict(Len2(gap), Square(d), Square(length));
      SquareOfProduct(d, length);
      MulMonotone(0.0, d, length);
      if Dot(gap, axis) >= 0.0 {
        SquareMonotone(d * length, Dot(gap, axis));
      } else {
        SquareMonotone(d * length, -Dot(gap, axis));
      }
    }
  }

  // ---- convex hulls -----------------------------------------------------------------

  function Sum(w: seq<real>): real {
    if |w| == 0 then 0.0 else w[0] + Sum(w[1..])
  }

  ghost predicate NonNegative(w: seq<real>) {
    forall i :: 0 <= i < |w| ==> w[i] >= 0.0
  }

  /** Weights of a point of the convex hull of n points. */
  ghost predicate Convex(w: seq<real>, n: nat) {
    |w| == n && NonNegative(w) && Sum(w) == 1.0
  }

  function Blend(points: seq<Vec>, w: seq<real>): Vec
    requires |points| == |w|
  {
    if |w| == 0 then Vec(0.0, 0.0, 0.0) else Add(Scale(points[0], w[0]), Blend(points[1..], w[1..]))
  }

  /** A blend of three points, and the sum of its weights, spelled out. */
  lemma BlendThree(a: Vec, b: Vec, c: Vec, u: real, v: real, w: real)
    ensures Blend([a, b, c], [u, v, w]) == Add(Scale(a, u), Add(Scale(b, v), Scale(c, w)))
    ensures Sum([u, v, w]) == u + v + w
  {
    hide Scale;
    assert Sum([w]) == w + Sum([w][1..]);
    assert [a, b, c][1..] == [b, c] && [b, c][1..] == [c] && [c][1..] == [];
    assert [u, v, w][1..] == [v, w] && [v, w][1..] == [w] && [w][1..] == [];
    assert Blend([c], [w]) == Add(Scale(c, w), Vec(0.0, 0.0, 0.0));
  }

  function Mix(v: seq<real>, w: seq<real>, share: real): (m: seq<real>)
    requires |v| == |w|
    ensures |m| == |v|
  {
    if |v| == 0 then [] else [v[0] * share + w[0] * (1.0 - share)] + Mix(v[1..], w[1..], share)
  }

  lemma {:induction false} MixSum(v: seq<real>, w: seq<real>, share: real, mu: real)
    requires |v| == |w| && share + mu == 1.0
    ensures Sum(Mix(v, w, share)) == Sum(v) * share + Sum(w) * mu
  {
    if |v| > 0 {
      MixSum(v[1..], w[1..], share, mu);
      assert Mix(v, w, share)[1..] == Mix(v[1..], w[1..], share);
      SumStep(v[0], w[0], Sum(v[1..]), Sum(w[1..]), Sum(v), Sum(w), share, mu);
    }
  }

  lemma SumStep(v: real, w: real, a: real, b: real, p: real, q: real, share: real, mu: real)
    requires p == v + a && q == w + b
    ensures (v * share + w * mu) + (a * share + b * mu) == p * share + q * mu
  {
    hide *;
    assert p * share == v * share + a * share;
    assert q * mu == w * mu + b * mu;
  }

  lemma {:induction false} MixAt(v: seq<real>, w: seq<real>, share: real, i: nat)
    requires |v| == |w| && i < |v|
    ensures Mix(v, w, share)[i] == v[i] * share + w[i] * (1.0 - share)
  {
    if i > 0 {
      MixAt(v[1..], w[1..], share, i - 1);
    }
  }

  lemma MixNonNegative(v: seq<real>, w: seq<real>, share: real)
    requires |v| == |w| && NonNegative(v) && NonNegative(w) && 0.0 <= share <= 1.0
    ensures NonNegative(Mix(v, w, share))
  {
    hide Mix;
    forall i | 0 <= i < |v| ensures Mix(v, w, share)[i] >= 0.0 {
      MixAt(v, w, share, i);
      ProductNonNegative(v[i], share);
      ProductNonNegative(w[i], 1.0 - share);
    }
  }

  /** One coordinate of MixStep. */
  lemma MixScalar(p: real, v: real, w: real, m: real, a: real, b: real, q: real, r: real, share: real, mu: real)
    requires m == v * share + w * mu && q == p * v + a && r == p * w + b
    ensures p * m + (a * share + b * mu) == q * share + r * mu
  {
    hide *;
    assert p * m == p * v * share + p * w * mu;
    assert q * share == p * v * share + a * share;
    assert r * mu == p * w * mu + b * mu;
  }

  lemma {:induction false} BlendMix(points: seq<Vec>, v: seq<real>, w: seq<real>, share: real)
    requires |points| == |v| == |w|
    ensures Blend(points, Mix(v, w, share)) ==
            Add(Scale(Blend(points, v), share), Scale(Blend(points, w), 1.0 - share))
  {
    hide Add, Scale;
    if |v| == 0 {
      MixZero(share);
    } else {
      BlendMix(points[1..], v[1..], w[1..], share);
      assert Mix(v, w, share)[1..] == Mix(v[1..], w[1..], share);
      MixStep(points[0], v[0], w[0], Mix(v, w, share)[0],
              Blend(points[1..], v[1..]), Blend(points[1..], w[1..]), share, 1.0 - share);
    }
  }

  lemma ZeroTimes(a: real, b: real)
    requires a == 0.0
    ensures a * b == 0.0
  {
    hide *;
  }

  lemma ScaleZero(a: Vec, s: real)
    requires a == Vec(0.0, 0.0, 0.0)
    ensures Scale(a, s) == a
  {
    ZeroTimes(a.x, s);
    ZeroTimes(a.y, s);
    ZeroTimes(a.z, s);
  }

  lemma MixZero(share: real)
    ensures Add(Scale(Vec(0.0, 0.0, 0.0), share), Scale(Vec(0.0, 0.0, 0.0), 1.0 - share)) == Vec(0.0, 0.0, 0.0)
  {
    hide Scale;
    ScaleZero(Vec(0.0, 0.0, 0.0), share);
    ScaleZero(Vec(0.0, 0.0, 0.0), 1.0 - share);
  }

  lemma MixStep(p: Vec, v: real, w: real, m: real, a: Vec, b: Vec, share: real, mu: real)
    requires m == v * share + w * mu
    ensures Add(Scale(p, m), Add(Scale(a, share), Scale(b, mu))) ==
            Add(Scale(Add(Scale(p, v), a), share), Scale(Add(Scale(p, w), b), mu))
  {
    hide Dot, Cross, Sub, Square, Times, Sum, Blend, Mix;
    var q := Add(Scale(p, v), a);
    var r := Add(Scale(p, w), b);
    MixScalar(p.x, v, w, m, a.x, b.x, q.x, r.x, share, mu);
    MixScalar(p.y, v, w, m, a.y, b.y, q.y, r.y, share, mu);
    MixScalar(p.z, v, w, m, a.z, b.z, q.z, r.z, share, mu);
  }

  lemma DotStep(p: Vec, s: real, rest: Vec, axis: Vec)
    ensures Dot(Add(Scale(p, s), rest), axis) == Dot(p, axis) * s + Dot(rest, axis)
  {
    hide Cross, Sub, Square, Times, Sum, Blend, Mix;
    var sum := Add(Scale(p, s), rest);
    DotScalar(p.x, s, rest.x, sum.x, axis.x);
    DotScalar(p.y, s, rest.y, sum.y, axis.y);
    DotScalar(p.z, s, rest.z, sum.z, axis.z);
    SumTimes(p.x * axis.x, p.y * axis.y, p.z * axis.z, Dot(p, axis), s);
  }

  lemma DotScalar(p: real, s: real, rest: real, sum: real, x: real)
    requires sum == p * s + rest
    ensures sum * x == p * x * s + rest * x
  {
    hide *;
    assert sum * x == (p * s + rest) * x;
  }

  lemma SumTimes(a: real, b: real, c: real, sum: real, s: real)
    requires sum == a + b + c
    ensures sum * s == a * s + b * s + c * s
  {
    hide *;
    assert sum * s == (a + b + c) * s;
  }

  /** A hull projects inside the interval its corners project to. */
  lemma {:induction false} BlendWithin(points: seq<Vec>, w: seq<real>, axis: Vec, low: real, high: real)
    requires |points| == |w| && NonNegative(w)
    requires forall i :: 0 <= i < |points| ==> low <= Dot(points[i], axis) <= high
    ensures low * Sum(w) <= Dot(Blend(points, w), axis) <= high * Sum(w)
  {
    hide Dot, Add, Scale;
    if |w| == 0 {
      DotZero(axis);
      ZeroTimes(Sum(w), low);
      ZeroTimes(Sum(w), high);
    } else {
      BlendWithin(points[1..], w[1..], axis, low, high);
      DotStep(points[0], w[0], Blend(points[1..], w[1..]), axis);
      WithinStep(low, high, Dot(points[0], axis), w[0], Dot(Blend(points[1..], w[1..]), axis), Sum(w[1..]), Sum(w));
    }
  }

  lemma DotZero(axis: Vec)
    ensures Dot(Vec(0.0, 0.0, 0.0), axis) == 0.0
  {}

  lemma WithinStep(low: real, high: real, first: real, w: real, rest: real, sum: real, total: real)
    requires total == w + sum && w >= 0.0 && low <= first <= high && low * sum <= rest <= high * sum
    ensures low * total <= first * w + rest <= high * total
  {
    hide *;
    MulMonotone(low, first, w);
    MulMonotone(first, high, w);
    assert low * total == low * w + low * sum;
    assert high * total == high * w + high * sum;
  }
}
