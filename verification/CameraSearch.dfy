/** The search of a swept window (platform/camera_obstruction.c): probe the stationary test at chosen times,
    prove intervals clear from their endpoint clearances, and bisect to the first contact. */
module CameraSearch {
  import opened CameraGeometry
  import opened CameraSweep

  /** What the stationary test reports. */
  datatype Probe = Clearance(clearance: real) | Hit(point: Vec) | Invalid

  /** What a sweep reports. */
  datatype Sweep = SweepClear | SweepHit(fraction: real, point: Vec, startedOverlapping: bool) | SweepInvalid

  /** The contract of the stationary test: exact distance, and a hit when it is within the tolerance. */
  ghost predicate Exact(s: Scene, t: real, p: Probe) {
    match p
    case Clearance(c) => c > Tolerance(s.guard) && SeparatedBy(s, t, s.guard.skin + c)
    case Hit(_) => Contact(s, t)
    case Invalid => true
  }

  /** The stationary test under an optional budget. */
  class Tester {
    const profiled: bool
    const limit: nat
    const probe: real -> Probe
    var tests: nat

    constructor (profiled: bool, limit: nat, probe: real -> Probe)
      ensures this.profiled == profiled && this.limit == limit && this.probe == probe && tests == 0
    {
      this.profiled, this.limit, this.probe, tests := profiled, limit, probe, 0;
    }

    ghost predicate Faithful(s: Scene) {
      forall t :: Exact(s, t, probe(t))
    }

    /** The budget of a profiled run is used up. */
    predicate Spent()
      reads this
    {
      profiled && tests >= limit
    }

    /** What is left of the budget pays for n tests. */
    ghost predicate Affords(n: int)
      reads this
    {
      profiled ==> tests + n <= limit
    }

    method Test(t: real) returns (p: Probe)
      modifies this`tests
      ensures !profiled ==> p == probe(t) && tests == old(tests)
      ensures profiled && old(tests) < limit ==> p == probe(t) && tests == old(tests) + 1
      ensures profiled && old(tests) >= limit ==> p.Invalid? && tests == old(tests)
    {
      if profiled {
        if tests >= limit {
          return Invalid;
        }
        tests := tests + 1;
      }
      p := probe(t);
    }
  }

  /** No time up to this one touches. */
  ghost predicate ClearUpTo(s: Scene, t: real) {
    forall x :: x <= t ==> Clear(s, x)
  }

  /** A contact bracketed from below: it is real, it was probed, and the first contact is at most `width`
      earlier. */
  ghost predicate Bracketed(s: Scene, tester: Tester, r: Sweep, width: real) {
    r.SweepHit? ==>
      && Contact(s, r.fraction) && tester.probe(r.fraction) == Hit(r.point)
      && ClearUpTo(s, r.fraction - width)
  }

  /** Halve a bracket sixteen times: clear at its low end, in contact at its high end. */
  method Bisect(s: Scene, tester: Tester, low0: real, high0: real, clearance0: real, point0: Vec)
    returns (r: Sweep)
    requires WellFormed(s) && tester.Faithful(s) && low0 < high0
    requires clearance0 > Tolerance(s.guard) && SeparatedBy(s, low0, s.guard.skin + clearance0)
    requires tester.probe(high0) == Hit(point0)
    modifies tester`tests
    ensures r.SweepHit? || r.SweepInvalid?
    ensures r.SweepInvalid? ==> tester.Spent() || exists t :: low0 < t < high0 && tester.probe(t).Invalid?
    ensures r.SweepHit? ==> low0 < r.fraction <= high0 && !r.startedOverlapping
    ensures Bracketed(s, tester, r, (high0 - low0) / 65536.0)
    ensures tester.tests <= old(tester.tests) + BISECTION_ITERATIONS
  {
    hide SeparatedBy, Contact, Clear, TwoToMinus;
    var low, high, clearance, point := low0, high0, clearance0, point0;
    ghost var span := high0 - low0;
    Unhalved(span);
    for i := 0 to BISECTION_ITERATIONS
      invariant low0 <= low < high <= high0 && high - low == span * TwoToMinus(i)
      invariant clearance > Tolerance(s.guard) && SeparatedBy(s, low, s.guard.skin + clearance)
      invariant tester.probe(high) == Hit(point)
      invariant tester.tests <= old(tester.tests) + i
    {
      var middle := (low + high) * 0.5;
      HalfSpan(span, i);
      assert Exact(s, middle, tester.probe(middle));
      var p := tester.Test(middle);
      match p {
        case Invalid => return SweepInvalid;
        case Hit(x) => high, point := middle, x;
        case Clearance(c) => low, clearance := middle, c;
      }
    }
    Sixteenth(span);
    assert Exact(s, high, tester.probe(high));
    forall x | x <= low ensures Clear(s, x) {
      NoEarlierContact(s, low, high, s.guard.skin + clearance, x);
    }
    r := SweepHit(high, point, false);
  }

  lemma Unhalved(span: real)
    ensures span * TwoToMinus(0) == span
  {}

  lemma HalfSpan(span: real, i: nat)
    ensures span * TwoToMinus(i + 1) == span * TwoToMinus(i) / 2.0
  {}

  lemma Sixteenth(span: real)
    ensures span * TwoToMinus(16) == span / 65536.0
  {
    SixteenHalvings(0);
  }

  datatype Interval = Interval(low: real, high: real, lowClearance: real, highClearance: real)

  /** What the clearances of both ends leave over, at every time between. */
  function LowerBound(i: Interval, travel: real): real {
    0.5 * (i.lowClearance + i.highClearance - travel * (i.high - i.low))
  }

  function Middle(i: Interval): real {
    (i.low + i.high) * 0.5
  }

  function Later(i: Interval, p: Probe): Interval
    requires p.Clearance?
  {
    Interval(Middle(i), i.high, p.clearance, i.highClearance)
  }

  function Earlier(i: Interval, p: Probe): Interval
    requires p.Clearance?
  {
    Interval(i.low, Middle(i), i.lowClearance, p.clearance)
  }

  /** Both ends were probed clear. */
  ghost predicate EndsClear(s: Scene, i: Interval) {
    && i.low < i.high
    && i.lowClearance > Tolerance(s.guard) && SeparatedBy(s, i.low, s.guard.skin + i.lowClearance)
    && i.highClearance > Tolerance(s.guard) && SeparatedBy(s, i.high, s.guard.skin + i.highClearance)
  }

  /** The stack tiles what is left of the window, earliest part on top. */
  ghost predicate Tiles(s: Scene, stack: seq<Interval>, frontier: real, exit: real) {
    && (forall k :: 0 <= k < |stack| ==> EndsClear(s, stack[k]) && stack[k].high <= exit)
    && (forall k :: 0 < k < |stack| ==> stack[k].high == stack[k - 1].low)
    && (if |stack| == 0 then frontier == exit else stack[0].high == exit && stack[|stack| - 1].low == frontier)
  }

  lemma TopCovered(s: Scene, i: Interval, uncertainty: real)
    requires WellFormed(s) && EndsClear(s, i) && uncertainty > 0.0
    requires LowerBound(i, s.travel) > uncertainty
    ensures ClearBy(s, i.low, i.high, uncertainty)
  {
    hide SeparatedBy, Clear;
    forall t | i.low <= t <= i.high ensures KeptBy(s, t, uncertainty) {
      IntervalClear(s, i.low, i.high, i.lowClearance, i.highClearance, t, uncertainty);
    }
  }

  lemma JoinClear(s: Scene, enter: real, middle: real, exit: real, least: real)
    requires enter <= middle <= exit && ClearBy(s, middle, exit, least)
    requires middle == enter || ClearBy(s, enter, middle, least)
    ensures ClearBy(s, enter, exit, least)
  {
    hide SeparatedBy;
  }

  lemma ClearByIsClear(s: Scene, enter: real, exit: real, least: real)
    requires ClearBy(s, enter, exit, least) && least > 0.0
    ensures ClearThroughout(s, enter, exit)
  {
    hide SeparatedBy;
    forall t | enter <= t <= exit ensures Clear(s, t) {
      assert KeptBy(s, t, least);
    }
  }

  lemma TilesSkip(s: Scene, below: seq<Interval>, top: Interval, frontier: real, exit: real)
    requires Tiles(s, below + [top], frontier, exit)
    ensures Tiles(s, below, top.high, exit) && EndsClear(s, top) && frontier == top.low < top.high <= exit
  {
    hide EndsClear;
    var stack := below + [top];
    assert stack[|below|] == top;
    assert forall k :: 0 <= k < |below| ==> below[k] == stack[k];
    assert EndsClear(s, top);
    EndsOrdered(s, top);
  }

  lemma EndsOrdered(s: Scene, i: Interval)
    requires EndsClear(s, i)
    ensures i.low < i.high
  {}

  lemma TilesSplit(s: Scene, below: seq<Interval>, top: Interval, frontier: real, exit: real, later: Interval,
                   earlier: Interval)
    requires Tiles(s, below + [top], frontier, exit)
    requires EndsClear(s, later) && EndsClear(s, earlier)
    requires earlier.low == top.low && earlier.high == later.low && later.high == top.high
    ensures Tiles(s, below + [later, earlier], frontier, exit)
  {
    hide EndsClear;
    var stack := below + [top];
    var split := below + [later, earlier];
    EndsOrdered(s, later);
    assert stack[|below|] == top;
    assert forall k :: 0 <= k < |below| ==> below[k] == stack[k];
    assert forall k :: 0 <= k < |below| ==> split[k] == stack[k];
    assert split[|below|] == later && split[|below| + 1] == earlier;
  }


  /** The probe answers, with more clearance than this. */
  ghost predicate Roomy(p: Probe, margin: real) {
    p.Clearance? && p.clearance > margin
  }

  ghost predicate AllRoomy(tester: Tester, enter: real, exit: real, margin: real) {
    forall t :: enter <= t <= exit ==> Roomy(tester.probe(t), margin)
  }

  ghost function Margin(enter: real, exit: real, uncertainty: real, travel: real, parts: nat): real
    requires parts > 0
  {
    uncertainty + travel * (exit - enter) / (2 * parts) as real
  }

  /** Every probe of the window answers with more clearance than the eye travels in half of one of `parts`
      equal parts of it, over the uncertainty. */
  ghost predicate Ample(tester: Tester, enter: real, exit: real, uncertainty: real, travel: real, parts: nat) {
    && 0 < parts <= 48 && 0.0 <= enter < exit <= 1.0 && uncertainty > 0.0
    && AllRoomy(tester, enter, exit, Margin(enter, exit, uncertainty, travel, parts))
  }

  /** No interval is shorter than half a part, and its ends were probed with room to spare. */
  ghost predicate Coarse(stack: seq<Interval>, half: real, margin: real) {
    forall k :: 0 <= k < |stack| ==>
      stack[k].high - stack[k].low >= half && stack[k].lowClearance > margin && stack[k].highClearance > margin
  }

  /** What the tests made so far have bought: all but one of them for each waiting interval has paid for half
      a part of the window that is behind the frontier. */
  ghost predicate Paced(stack: seq<Interval>, frontier: real, exit: real, tests: nat, half: real, margin: real,
                        parts: nat) {
    && half > 0.0 && Coarse(stack, half, margin)
    && Share(tests - |stack|, half) + (exit - frontier) <= Share(2 * parts, half)
  }

  ghost function Share(n: int, half: real): real {
    n as real * half
  }

  lemma ShareOfSum(n: int, m: int, half: real)
    ensures Share(n + m, half) == Share(n, half) + Share(m, half)
  {}

  lemma ShareOne(half: real)
    ensures Share(0, half) == 0.0 && Share(1, half) == half
  {}

  lemma ShareOrder(n: int, m: int, half: real)
    requires half > 0.0 && Share(n, half) <= Share(m, half)
    ensures n <= m
  {
    if n > m {
      MulStrict(m as real, n as real, half);
    }
  }

  /** The parts of the window make it up, and the travel in half of one is the margin asked for. */
  lemma HalfPart(enter: real, exit: real, uncertainty: real, travel: real, parts: nat) returns (half: real)
    requires enter < exit && parts > 0
    ensures half > 0.0 && Share(2 * parts, half) == exit - enter && half <= exit - enter
    ensures Margin(enter, exit, uncertainty, travel, parts) == uncertainty + travel * half
  {
    var n := (2 * parts) as real;
    half := (exit - enter) / n;
    assert half * n == exit - enter;
    assert travel * (exit - enter) == (travel * half) * n;
    if half > exit - enter {
      MulMonotone(1.0, n, half);
    }
  }

  lemma {:induction false} TilesSpan(s: Scene, stack: seq<Interval>, frontier: real, exit: real, half: real,
                                     margin: real)
    requires Tiles(s, stack, frontier, exit) && Coarse(stack, half, margin)
    ensures exit - frontier >= Share(|stack|, half)
  {
    hide EndsClear, Share;
    ShareOne(half);
    if |stack| > 0 {
      var below, top := stack[..|stack| - 1], stack[|stack| - 1];
      assert stack == below + [top];
      TilesSkip(s, below, top, frontier, exit);
      TilesSpan(s, below, top.high, exit, half, margin);
      ShareOfSum(|below|, 1, half);
    }
  }

  lemma PacedWhole(i: Interval, half: real, margin: real, parts: nat)
    requires half > 0.0 && i.high - i.low >= half && Share(2 * parts, half) == i.high - i.low
    requires i.lowClearance > margin && i.highClearance > margin
    ensures Paced([i], i.low, i.high, 1, half, margin, parts)
  {}

  lemma PacedSkip(below: seq<Interval>, top: Interval, exit: real, tests: nat, half: real, margin: real, parts: nat)
    requires Paced(below + [top], top.low, exit, tests, half, margin, parts)
    ensures Paced(below, top.high, exit, tests, half, margin, parts)
  {
    hide Share;
    var stack := below + [top];
    assert stack[|below|] == top;
    assert forall k :: 0 <= k < |below| ==> below[k] == stack[k];
    ShareOfSum(tests - |stack|, 1, half);
    ShareOne(half);
  }

  /** Where the search stands: all is clear up to the frontier, and the stack tiles the rest. */
  ghost predicate Searched(s: Scene, stack: seq<Interval>, enter: real, frontier: real, exit: real,
                           uncertainty: real) {
    && enter <= frontier && Tiles(s, stack, frontier, exit)
    && (frontier == enter || ClearBy(s, enter, frontier, uncertainty))
  }

  lemma SearchedNone(s: Scene, tester: Tester, whole: Interval, uncertainty: real)
    requires tester.Faithful(s) && whole.low < whole.high
    requires tester.probe(whole.low) == Clearance(whole.lowClearance)
    requires tester.probe(whole.high) == Clearance(whole.highClearance)
    ensures Searched(s, [whole], whole.low, whole.low, whole.high, uncertainty)
  {
    hide SeparatedBy, Tolerance, ClearBy;
    Answers(s, tester, whole.low);
    Answers(s, tester, whole.high);
    assert EndsClear(s, whole);
  }

  lemma SearchedTop(s: Scene, below: seq<Interval>, top: Interval, enter: real, frontier: real, exit: real,
                    uncertainty: real)
    requires Searched(s, below + [top], enter, frontier, exit, uncertainty)
    ensures EndsClear(s, top) && enter <= frontier == top.low < Middle(top) < top.high <= exit
  {
    hide EndsClear, Tiles, ClearBy;
    TilesSkip(s, below, top, frontier, exit);
  }

  lemma SearchedSkip(s: Scene, below: seq<Interval>, top: Interval, enter: real, frontier: real, exit: real,
                     uncertainty: real)
    requires WellFormed(s) && Searched(s, below + [top], enter, frontier, exit, uncertainty) && uncertainty > 0.0
    requires LowerBound(top, s.travel) > uncertainty
    ensures Searched(s, below, enter, top.high, exit, uncertainty)
  {
    hide EndsClear, Tiles, ClearBy;
    TilesSkip(s, below, top, frontier, exit);
    TopCovered(s, top, uncertainty);
    JoinClear(s, enter, frontier, top.high, uncertainty);
  }

  lemma SearchedSplit(s: Scene, below: seq<Interval>, top: Interval, enter: real, frontier: real, exit: real,
                      uncertainty: real, p: Probe)
    requires Searched(s, below + [top], enter, frontier, exit, uncertainty)
    requires p.Clearance? && p.clearance > Tolerance(s.guard)
    requires SeparatedBy(s, Middle(top), s.guard.skin + p.clearance)
    ensures Searched(s, below + [Later(top, p), Earlier(top, p)], enter, frontier, exit, uncertainty)
  {
    hide Tiles, ClearBy, SeparatedBy, Tolerance;
    TilesSkip(s, below, top, frontier, exit);
    assert EndsClear(s, Later(top, p)) && EndsClear(s, Earlier(top, p));
    TilesSplit(s, below, top, frontier, exit, Later(top, p), Earlier(top, p));
  }

  lemma SearchedAll(s: Scene, enter: real, frontier: real, exit: real, uncertainty: real)
    requires Searched(s, [], enter, frontier, exit, uncertainty) && uncertainty > 0.0 && enter < exit
    ensures ClearThroughout(s, enter, exit) && ClearBy(s, enter, exit, uncertainty)
  {
    hide ClearBy, ClearThroughout;
    ClearByIsClear(s, enter, exit, uncertainty);
  }

  /** An interval that was not accepted is longer than one part. */
  lemma NotAccepted(s: Scene, i: Interval, half: real, margin: real, uncertainty: real)
    requires margin == uncertainty + s.travel * half && WellFormed(s)
    requires i.lowClearance > margin && i.highClearance > margin && LowerBound(i, s.travel) <= uncertainty
    ensures i.high - i.low > 2.0 * half
  {
    BoundIs(i, s.travel, i.high - i.low);
    Outweighed(i.lowClearance, i.highClearance, margin, uncertainty, s.travel, half, i.high - i.low);
  }

  lemma BoundIs(i: Interval, travel: real, width: real)
    requires width == i.high - i.low
    ensures LowerBound(i, travel) == 0.5 * (i.lowClearance + i.highClearance - travel * width)
  {}

  lemma Outweighed(a: real, b: real, margin: real, uncertainty: real, travel: real, half: real, width: real)
    requires a > margin && b > margin && margin == uncertainty + travel * half && travel >= 0.0
    requires 0.5 * (a + b - travel * width) <= uncertainty
    ensures width > 2.0 * half
  {
    hide *;
    LongerThan(travel, width, half);
  }

  lemma CoarseTop(below: seq<Interval>, top: Interval, half: real, margin: real)
    requires Coarse(below + [top], half, margin)
    ensures Coarse(below, half, margin)
    ensures top.high - top.low >= half && top.lowClearance > margin && top.highClearance > margin
  {
    var stack := below + [top];
    assert stack[|below|] == top;
    assert forall k :: 0 <= k < |below| ==> below[k] == stack[k];
  }

  lemma CoarseSplit(below: seq<Interval>, later: Interval, earlier: Interval, half: real, margin: real)
    requires Coarse(below, half, margin) && Coarse([later], half, margin) && Coarse([earlier], half, margin)
    ensures Coarse(below + [later, earlier], half, margin)
  {
    var split := below + [later, earlier];
    assert [later][0] == later && [earlier][0] == earlier;
    forall k | 0 <= k < |split|
      ensures split[k].high - split[k].low >= half
      ensures split[k].lowClearance > margin && split[k].highClearance > margin
    {
      assert k < |below| ==> split[k] == below[k];
    }
  }

  /** Half of an interval that was not accepted is no shorter than half a part, and the tests have not used up
      two for each part. */
  lemma PacedSplit(s: Scene, below: seq<Interval>, top: Interval, enter: real, exit: real, tests: nat, half: real,
                   margin: real, parts: nat, uncertainty: real, p: Probe)
    requires Searched(s, below + [top], enter, top.low, exit, uncertainty) && Roomy(p, margin)
    requires Paced(below + [top], top.low, exit, tests, half, margin, parts)
    requires margin == uncertainty + s.travel * half && WellFormed(s)
    requires LowerBound(top, s.travel) <= uncertainty
    ensures Paced(below + [Later(top, p), Earlier(top, p)], top.low, exit, tests + 1, half, margin, parts)
    ensures tests + 1 <= 2 * parts
  {
    hide Share, Tiles, LowerBound, Coarse, ClearBy;
    CoarseTop(below, top, half, margin);
    NotAccepted(s, top, half, margin, uncertainty);
    HalvesCoarse(top, p, half, margin);
    CoarseSplit(below, Later(top, p), Earlier(top, p), half, margin);
    TilesSkip(s, below, top, top.low, exit);
    TilesSpan(s, below, top.high, exit, half, margin);
    Affordable(|below|, tests, top.high - top.low, exit - top.high, half, parts);
  }

  lemma HalvesCoarse(i: Interval, p: Probe, half: real, margin: real)
    requires Roomy(p, margin) && i.high - i.low > 2.0 * half && i.lowClearance > margin && i.highClearance > margin
    ensures Coarse([Later(i, p)], half, margin) && Coarse([Earlier(i, p)], half, margin)
  {}

  lemma Affordable(below: nat, tests: nat, width: real, rest: real, half: real, parts: nat)
    requires half > 0.0 && width > 2.0 * half && rest >= Share(below, half)
    requires Share(tests - (below + 1), half) + (width + rest) <= Share(2 * parts, half)
    ensures tests + 1 <= 2 * parts
  {
    hide *;
    ShareOfSum(below, 1, half);
    ShareOfSum(tests - (below + 1), below + 1, half);
    ShareOfSum(tests, 1, half);
    ShareOne(half);
    ShareOrder(tests + 1, 2 * parts, half);
  }

  lemma LongerThan(travel: real, width: real, half: real)
    requires travel >= 0.0 && travel * half < 0.5 * (travel * width)
    ensures width > 2.0 * half
  {
    hide *;
    var twice := 2.0 * half;
    assert travel * twice == 2.0 * (travel * half);
    if width <= twice {
      MulMonotone(width, twice, travel);
      assert false;
    }
  }

  /** Room to spare, spelled out. */
  lemma AmpleExactly(tester: Tester, enter: real, exit: real, uncertainty: real, travel: real, parts: nat)
    requires uncertainty > 0.0 && 0.0 <= enter < exit <= 1.0 && 0 < parts <= 48
    ensures Ample(tester, enter, exit, uncertainty, travel, parts) <==>
            forall t :: enter <= t <= exit ==>
              tester.probe(t).Clearance?
              && tester.probe(t).clearance > uncertainty + travel * (exit - enter) / (2 * parts) as real
  {}

  lemma AmpleMeans(tester: Tester, enter: real, exit: real, uncertainty: real, travel: real, parts: nat)
    requires Ample(tester, enter, exit, uncertainty, travel, parts)
    ensures 0 < parts <= 48 && 0.0 <= enter < exit <= 1.0 && uncertainty > 0.0
    ensures tester.Affords(2 * parts - 1) && tester.profiled ==> tester.tests + 2 * parts - 1 <= tester.limit
    ensures AllRoomy(tester, enter, exit, Margin(enter, exit, uncertainty, travel, parts))
  {
    hide AllRoomy, Margin;
  }

  lemma WithinRoomy(tester: Tester, enter: real, exit: real, margin: real, t: real)
    requires AllRoomy(tester, enter, exit, margin) && enter <= t <= exit
    ensures Roomy(tester.probe(t), margin) && tester.probe(t).Clearance? && tester.probe(t).clearance > margin
  {}

  lemma NoHit(s: Scene, tester: Tester, r: Sweep, width: real)
    requires !r.SweepHit?
    ensures Bracketed(s, tester, r, width)
  {}

  lemma Answers(s: Scene, tester: Tester, t: real)
    requires tester.Faithful(s)
    ensures var p := tester.probe(t);
            p.Clearance? ==> p.clearance > Tolerance(s.guard) && SeparatedBy(s, t, s.guard.skin + p.clearance)
  {
    hide SeparatedBy, Tolerance;
    assert Exact(s, t, tester.probe(t));
  }

  lemma EndsApart(s: Scene, i: Interval)
    requires WellFormed(s) && EndsClear(s, i)
    ensures i.lowClearance > Tolerance(s.guard) && SeparatedBy(s, i.low, s.guard.skin + i.lowClearance)
    ensures Clear(s, i.low)
  {
    hide SeparatedBy, Tolerance, Clear;
    ClearAt(s, i.low, i.lowClearance);
  }

  lemma TestLimits()
    ensures BOUNDED_INTERVAL_TESTS == 96 && BISECTION_ITERATIONS == 16
  {}

  lemma Excuses(tester: Tester, enter: real, exit: real, spent: nat, t: real)
    requires enter <= t <= exit
    requires tester.probe(t).Invalid? || (tester.profiled && tester.tests >= tester.limit) || spent == 96
    ensures Excused(tester, enter, exit, spent)
  {}

  lemma StillExcused(tester: Tester, low: real, high: real, enter: real, exit: real, spent: nat)
    requires enter <= low && high <= exit
    ensures tester.Spent() || (exists t :: low < t < high && tester.probe(t).Invalid?) ==>
              Excused(tester, enter, exit, spent)
  {}

  /** Nothing but an unusable window, an unanswered probe or a spent budget stops the search undecided. */
  ghost predicate Excused(tester: Tester, enter: real, exit: real, spent: nat)
    reads tester
  {
    || spent == 96
    || tester.Spent()
    || (exists t :: enter <= t <= exit && tester.probe(t).Invalid?)
  }

  /** Prove the window clear or find its first contact; a hit was bisected in `low..high`, the earliest part
      of the window not proved clear. CLEAR is clearance above the uncertainty, and it is reached, with at most
      two tests for each part, when every probe clears by what the eye travels in half a part on top. */
  method BoundedIntervalSweep(s: Scene, tester: Tester, enter: real, exit: real, enterClearance: real,
                              uncertainty: real, ghost parts: nat)
    returns (r: Sweep, ghost spent: nat, ghost low: real, ghost high: real)
    requires WellFormed(s) && tester.Faithful(s) && tester.probe(enter) == Clearance(enterClearance)
    modifies tester`tests
    ensures r.SweepClear? ==> ClearThroughout(s, enter, exit) && ClearBy(s, enter, exit, uncertainty)
    ensures Ample(tester, enter, exit, uncertainty, s.travel, parts) && old(tester.Affords(2 * parts)) ==>
              r.SweepClear? && spent <= 2 * parts
    ensures r.SweepHit? ==> enter <= low < r.fraction <= high <= exit && Clear(s, low) && !r.startedOverlapping
    ensures r.SweepHit? ==> tester.probe(high).Hit?
    ensures Bracketed(s, tester, r, (high - low) / 65536.0)
    ensures r.SweepInvalid? ==>
              || enter < 0.0 || exit > 1.0 || exit <= enter || uncertainty <= 0.0
              || Excused(tester, enter, exit, spent)
    ensures exit <= enter ==> r.SweepInvalid?
    ensures spent <= 96 && tester.tests <= old(tester.tests) + spent + 16
  {
    hide SeparatedBy, Contact, Clear, TwoToMinus, Tolerance, Share, ClearThroughout, ClearBy, AllRoomy;
    spent, low, high := 0, enter, exit;
    r := SweepInvalid;
    if enter < 0.0 || exit > 1.0 || enter > exit || uncertainty <= 0.0 {
      return;
    }
    if exit <= enter {
      return;
    }
    spent := 1;
    Answers(s, tester, enter);
    Answers(s, tester, exit);
    if Ample(tester, enter, exit, uncertainty, s.travel, parts) {
      WithinRoomy(tester, enter, exit, Margin(enter, exit, uncertainty, s.travel, parts), exit);
    }
    var last := tester.Test(exit);
    if last.Invalid? {
      return;
    }
    if last.Hit? {
      ClearAt(s, enter, enterClearance);
      r := Bisect(s, tester, enter, exit, enterClearance, last.point);
      return;
    }
    r, spent, low, high :=
      SearchIntervals(s, tester, Interval(enter, exit, enterClearance, last.clearance), uncertainty, parts);
  }

  /** The search proper: the clear and the unclear halves of the window, earliest first. */
  method SearchIntervals(s: Scene, tester: Tester, whole: Interval, uncertainty: real, ghost parts: nat)
    returns (r: Sweep, ghost spent: nat, ghost low: real, ghost high: real)
    requires WellFormed(s) && tester.Faithful(s) && 0.0 <= whole.low < whole.high <= 1.0 && uncertainty > 0.0
    requires tester.probe(whole.low) == Clearance(whole.lowClearance)
    requires tester.probe(whole.high) == Clearance(whole.highClearance)
    modifies tester`tests
    ensures r.SweepClear? ==>
              ClearThroughout(s, whole.low, whole.high) && ClearBy(s, whole.low, whole.high, uncertainty)
    ensures Ample(tester, whole.low, whole.high, uncertainty, s.travel, parts) ==>
              (old(tester.Affords(2 * parts - 1)) ==> r.SweepClear? && spent <= 2 * parts)
    ensures r.SweepHit? ==> whole.low <= low < r.fraction <= high <= whole.high
    ensures r.SweepHit? ==> Clear(s, low) && !r.startedOverlapping && tester.probe(high).Hit?
    ensures Bracketed(s, tester, r, (high - low) / 65536.0)
    ensures r.SweepInvalid? ==> Excused(tester, whole.low, whole.high, spent)
    ensures spent <= 96 && tester.tests < old(tester.tests) + spent + 16
  {
    hide *;
    TestLimits();
    ghost var enter, exit := whole.low, whole.high;
    low, high := enter, exit;
    ghost var ample := Ample(tester, enter, exit, uncertainty, s.travel, parts) && tester.Affords(2 * parts - 1);
    ghost var half, margin := 1.0, uncertainty;
    if ample {
      AmpleMeans(tester, enter, exit, uncertainty, s.travel, parts);
      half := HalfPart(enter, exit, uncertainty, s.travel, parts);
      margin := Margin(enter, exit, uncertainty, s.travel, parts);
      WithinRoomy(tester, enter, exit, margin, enter);
      WithinRoomy(tester, enter, exit, margin, exit);
      PacedWhole(whole, half, margin, parts);
    }
    SearchedNone(s, tester, whole, uncertainty);
    NoHit(s, tester, SweepClear, (high - low) / 65536.0);
    NoHit(s, tester, SweepInvalid, (high - low) / 65536.0);
    r := SweepInvalid;
    var testCount := 1;
    spent := 1;
    var intervals := new Interval[BOUNDED_INTERVAL_TESTS](_ => whole);
    var count := 1;
    ghost var frontier := enter;
    assert intervals[..count] == [whole];
    while count > 0
      invariant 0 <= count <= testCount <= 96 && spent == testCount
      invariant Searched(s, intervals[..count], enter, frontier, exit, uncertainty)
      invariant ample ==> Paced(intervals[..count], frontier, exit, testCount, half, margin, parts)
      invariant ample ==> testCount <= 2 * parts
      invariant tester.tests < old(tester.tests) + testCount
      decreases 96 - testCount, count
    {
      count := count - 1;
      var interval := intervals[count];
      ghost var below := intervals[..count];
      assert intervals[..count + 1] == below + [interval];
      SearchedTop(s, below, interval, enter, frontier, exit, uncertainty);
      var lowerBound := LowerBound(interval, s.travel);
      if lowerBound > uncertainty {
        SearchedSkip(s, below, interval, enter, frontier, exit, uncertainty);
        if ample {
          PacedSkip(below, interval, exit, testCount, half, margin, parts);
        }
        frontier := interval.high;
      } else {
        var middle := Middle(interval);
        if ample {
          WithinRoomy(tester, enter, exit, margin, middle);
          var next := tester.probe(middle);
          PacedSplit(s, below, interval, enter, exit, testCount, half, margin, parts, uncertainty, next);
        }
        if testCount >= BOUNDED_INTERVAL_TESTS || count + 2 > BOUNDED_INTERVAL_TESTS {
          Excuses(tester, enter, exit, spent, enter);
          return;
        }
        testCount := testCount + 1;
        spent := testCount;
        Answers(s, tester, middle);
        var p := tester.Test(middle);
        if p.Invalid? {
          Excuses(tester, enter, exit, spent, middle);
          return;
        }
        if p.Hit? {
          EndsApart(s, interval);
          low, high := interval.low, middle;
          r := Bisect(s, tester, interval.low, middle, interval.lowClearance, p.point);
          StillExcused(tester, low, high, enter, exit, spent);
          return;
        }
        SearchedSplit(s, below, interval, enter, frontier, exit, uncertainty, p);
        intervals[count], intervals[count + 1] := Later(interval, p), Earlier(interval, p);
        assert intervals[..count + 2] == below + [Later(interval, p), Earlier(interval, p)];
        count := count + 2;
      }
    }
    assert intervals[..count] == [];
    SearchedAll(s, enter, frontier, exit, uncertainty);
    r := SweepClear;
  }

  lemma ClearAt(s: Scene, t: real, clearance: real)
    requires WellFormed(s) && clearance > Tolerance(s.guard) && SeparatedBy(s, t, s.guard.skin + clearance)
    ensures Clear(s, t)
  {}

  /** The analytic sweep: window, probe at its entry, then search. CLEAR is positive clearance at every time
      of the move, and by more than the uncertainty throughout the window; it is the answer whenever the window
      `w` is missed, or has a width and room to spare. A hit is a real overlap, with every earlier time clear but
      for the last 65536th of the interval `low..high` that was bisected, which is clear at its start; an
      overlap at the entry of the window has no such interval. */
  method SweepTriangle(s: Scene, sqrt: real -> real, tester: Tester, ghost parts: nat)
    returns (r: Sweep, ghost spent: nat, ghost low: real, ghost high: real, ghost w: Window)
    requires WellFormed(s) && IsRoot(sqrt) && tester.Faithful(s)
    modifies tester`tests
    ensures Sound(s, w) && (w.Meets? ==> 0.0 <= w.enter <= 1.0 && 0.0 <= w.exit <= 1.0)
    ensures r.SweepClear? ==> ClearThroughout(s, 0.0, 1.0)
    ensures r.SweepClear? && w.Meets? && s.travel > DBL_MIN ==>
              w.enter < w.exit
              && ClearBy(s, w.enter, w.exit, 0.000000001 * Max(1.0, Max(s.guard.radius, s.travel)))
    ensures w.Missed? ==> r.SweepClear? && tester.tests == old(tester.tests)
    ensures w.Meets?
            && Ample(tester, w.enter, w.exit, 0.000000001 * Max(1.0, Max(s.guard.radius, s.travel)), s.travel, parts)
            && (tester.profiled ==> old(tester.tests) + 2 * parts < tester.limit)
            ==> r.SweepClear? && spent <= 2 * parts
    ensures r.SweepHit? ==> 0.0 <= low <= r.fraction <= high <= 1.0
    ensures r.SweepHit? && low < high ==> low < r.fraction && Clear(s, low)
    ensures r.SweepHit? ==> tester.probe(high).Hit?
    ensures r.SweepHit? ==> (r.startedOverlapping <==> r.fraction == 0.0)
    ensures r.SweepHit? ==> Contact(s, r.fraction) && tester.probe(r.fraction) == Hit(r.point)
    ensures r.SweepHit? ==> forall t :: 0.0 <= t < r.fraction - (high - low) / 65536.0 ==> Clear(s, t)
    ensures r.SweepInvalid? ==>
              || spent == 96 || tester.Spent()
              || (exists t :: 0.0 <= t <= 1.0 && tester.probe(t).Invalid?)
              || (s.travel > DBL_MIN && w.Meets? && w.exit <= w.enter)
    ensures spent <= 96 && tester.tests <= old(tester.tests) + 1 + spent + 16
  {
    hide SeparatedBy, Contact, Clear, TwoToMinus, Tolerance, Dot, MeetsAlong, IsRoot, ClearOutside, ClearBy, AllRoomy;
    spent, low, high := 0, 0.0, 1.0;
    var uncertainty := CLEARANCE_UNCERTAINTY_RATIO * Max(1.0, Max(s.guard.radius, s.travel));
    var window := SweptInterval(s, sqrt);
    w := window;
    if window.Missed? {
      r := SweepClear;
      return;
    }
    var enter, exit := window.enter, window.exit;
    assert Exact(s, enter, tester.probe(enter));
    if Ample(tester, enter, exit, uncertainty, s.travel, parts) {
      WithinRoomy(tester, enter, exit, Margin(enter, exit, uncertainty, s.travel, parts), enter);
    }
    var entry := tester.Test(enter);
    if entry.Invalid? {
      r := SweepInvalid;
      return;
    }
    if entry.Hit? {
      BeforeWindow(s, enter, exit);
      r, low, high := SweepHit(enter, entry.point, enter == 0.0), enter, enter;
      return;
    }
    if s.travel <= DBL_MIN {
      StandingClear(s, enter, entry.clearance);
      r := SweepClear;
      return;
    }
    r, spent, low, high := BoundedIntervalSweep(s, tester, enter, exit, entry.clearance, uncertainty, parts);
    if r.SweepClear? {
      WindowClear(s, enter, exit);
    }
  }

  lemma BeforeWindow(s: Scene, enter: real, exit: real)
    requires ClearOutside(s, enter, exit) && enter <= 1.0
    ensures forall t :: 0.0 <= t < enter ==> Clear(s, t)
  {
    hide Clear;
  }

  lemma WindowClear(s: Scene, enter: real, exit: real)
    requires ClearOutside(s, enter, exit) && ClearThroughout(s, enter, exit)
    ensures ClearThroughout(s, 0.0, 1.0)
  {
    hide Clear;
  }

  /** An eye that barely moves is clear throughout if it is clear once. */
  lemma StandingClear(s: Scene, t0: real, clearance: real)
    requires WellFormed(s) && 0.0 <= t0 <= 1.0 && s.travel <= DBL_MIN
    requires clearance > Tolerance(s.guard) && SeparatedBy(s, t0, s.guard.skin + clearance)
    ensures ClearThroughout(s, 0.0, 1.0)
  {
    hide SeparatedBy, Clear, TwoToMinus;
    SmallestIsTiny();
    forall t | 0.0 <= t <= 1.0 ensures Clear(s, t) {
      PartOf(s.travel, Abs(t - t0));
      Commute(s.travel, Abs(t - t0));
      Lipschitz(s, t0, t, s.guard.skin + clearance, s.travel);
      LessStillClear(s, t, s.guard.skin + clearance - s.travel);
    }
  }

  lemma LessStillClear(s: Scene, t: real, r: real)
    requires r > s.guard.skin && SeparatedBy(s, t, r)
    ensures Clear(s, t)
  {}
}
