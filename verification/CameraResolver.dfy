/** The spring-arm resolver (platform/camera_obstruction_resolver.c), over the reals: it picks a swept-clear
    anchor, retracts at once on contact, and expands again only slowly and only after a hold. */
module CameraResolver {
  import opened Wrappers
  import opened CameraGeometry

  datatype Policy = Modern | Legacy | CenterRay

  datatype Config = Config(policy: Policy, clearanceSkin: real, recoverySpeed: real, maxRecoveryStep: real,
                           releaseHoldTicks: nat)

  /** What a sweep of the lens guard reports. */
  datatype Sweep = SweepClear | SweepHit(fraction: real, startedOverlapping: bool) | SweepInvalid

  /** One authored step. `sweep` is this step's world, queried with a guard radius and two eyes; `guard` is
      the guard radius the projection gives, if it gives one. */
  datatype Input = Input(sweep: (real, Vec, Vec) -> Sweep, guard: Option<real>, generation: nat, pivot: Vec,
                         startSafeEye: Vec, desiredEye: Vec, fixedDeltaSeconds: real, discontinuity: bool)

  datatype Status = Clear | Retracted | Recovering | Failsafe | Invalid

  datatype Result = Result(status: Status, eye: Vec, accepted: bool, pathWasBlocked: bool, releaseHeld: bool,
                           usedLastSafe: bool)

  /** What a camera slot remembers. */
  datatype View = View(lastSafeEye: Vec, generation: nat, clearRunTicks: nat, lastSafeValid: bool, latched: bool)

  predicate ConfigValid(c: Config) {
    c.clearanceSkin >= 0.0 && c.recoverySpeed > 0.0 && c.maxRecoveryStep > 0.0
  }

  predicate InputValid(i: Input) {
    i.fixedDeltaSeconds >= 0.0 && i.generation != 0
  }

  function Lerp(a: Vec, b: Vec, fraction: real): Vec {
    Add(a, Scale(Sub(b, a), fraction))
  }

  function Distance(sqrt: real -> real, a: Vec, b: Vec): real {
    sqrt(Len2(Sub(b, a)))
  }

  lemma RootNonNegative(sqrt: real -> real)
    requires IsRoot(sqrt)
    ensures forall a, b :: Distance(sqrt, a, b) >= 0.0
  {
    forall a, b ensures Distance(sqrt, a, b) >= 0.0 {
      Len2NonNegative(Sub(b, a));
    }
  }

  /** A slot's state, updated in place. */
  class Slot {
    var lastSafeEye: Vec
    var projectionGeneration: nat
    var clearRunTicks: nat
    var lastSafeValid: bool
    var retractionLatched: bool

    constructor ()
      ensures Contents() == View(Vec(0.0, 0.0, 0.0), 0, 0, false, false)
    {
      new;
      Reset();
    }

    function Contents(): View
      reads this
    {
      View(lastSafeEye, projectionGeneration, clearRunTicks, lastSafeValid, retractionLatched)
    }

    method Reset()
      modifies this
      ensures Contents() == View(Vec(0.0, 0.0, 0.0), 0, 0, false, false)
    {
      lastSafeEye, projectionGeneration, clearRunTicks := Vec(0.0, 0.0, 0.0), 0, 0;
      lastSafeValid, retractionLatched := false, false;
    }

    /** Resolve one authored pose. */
    method Resolve(config: Config, input: Input, sqrt: real -> real) returns (out: Result)
      requires IsRoot(sqrt)
      modifies this
      ensures (Contents(), out) == Tick(config, input, sqrt, old(Contents()))
    {
      hide PlanFor, Anchor, UsedLast, Len2, Holding;
      RootNonNegative(sqrt);
      if !ConfigValid(config) || !InputValid(input) || input.guard.None? {
        return Fail(Invalid, input.startSafeEye);
      }
      var radius := input.guard.value;
      if config.policy.CenterRay? {
        radius := 0.0;
      }
      if config.policy.Legacy? {
        return Result(Clear, input.desiredEye, true, false, false, false);
      }
      if input.discontinuity {
        lastSafeValid := false;
        retractionLatched := false;
        clearRunTicks := 0;
      }
      var anchor, used, status := ChooseAnchor(config, input, radius, Contents());
      if !status.SweepClear? {
        out := Fail(Failed(status), if lastSafeValid then lastSafeEye else input.startSafeEye);
        return out.(pathWasBlocked := true);
      }
      status := input.sweep(radius, anchor, input.desiredEye);
      if status.SweepInvalid? {
        out := Fail(Invalid, anchor);
        return out.(usedLastSafe := used);
      }
      if status.SweepHit? && status.startedOverlapping {
        out := Fail(Failsafe, anchor);
        return out.(pathWasBlocked := true, usedLastSafe := used);
      }
      var plan, held := MakePlan(config, input, Contents(), anchor, status, Distance(sqrt, anchor, input.desiredEye));
      var blocked := status.SweepHit?;
      status := input.sweep(radius, plan.eye, plan.eye);
      if !status.SweepClear? {
        out := Fail(Failed(status), anchor);
        return out.(pathWasBlocked := true, usedLastSafe := used);
      }
      lastSafeEye := plan.eye;
      projectionGeneration := input.generation;
      lastSafeValid := true;
      retractionLatched := plan.latched;
      clearRunTicks := plan.run;
      out := Result(plan.status, plan.eye, true, blocked, held, used);
    }
  }

  /** The caller's eye is preferred, then the last safe one, then the pivot; each is swept where it stands. */
  method ChooseAnchor(config: Config, input: Input, radius: real, v: View)
    returns (anchor: Vec, used: bool, status: Sweep)
    requires input.guard.Some? && radius == Radius(config, input)
    requires input.discontinuity ==> !v.lastSafeValid
    ensures status.SweepClear? <==> Anchor(config, input, v).Some?
    ensures status.SweepClear? ==> Anchor(config, input, v) == Some(anchor) && used == UsedLast(config, input, v)
    ensures !status.SweepClear? ==> status == input.sweep(radius, input.pivot, input.pivot)
  {
    anchor, used := input.startSafeEye, false;
    status := input.sweep(radius, anchor, anchor);
    if !status.SweepClear? {
      if v.lastSafeValid && !input.discontinuity {
        status := input.sweep(radius, v.lastSafeEye, v.lastSafeEye);
        if status.SweepClear? {
          anchor, used := v.lastSafeEye, true;
        }
      }
      if !status.SweepClear? {
        status := input.sweep(radius, input.pivot, input.pivot);
        if status.SweepClear? {
          anchor := input.pivot;
        }
      }
    }
  }

  /** The pose to try from a clear anchor, and whether it is a held one. */
  method MakePlan(config: Config, input: Input, v: View, anchor: Vec, hit: Sweep, distance: real)
    returns (plan: Plan, held: bool)
    requires distance >= 0.0 && !hit.SweepInvalid?
    ensures plan == PlanFor(config, input, v, anchor, hit, distance)
    ensures held == (!hit.SweepHit? && distance > 0.0 && Holding(config, input, v))
  {
    hide Lerp;
    var latched, run, recovered, candidate := v.latched, v.clearRunTicks, false, anchor;
    held := false;
    if hit.SweepHit? {
      var safe := hit.fraction;
      if distance > 0.0 {
        safe := safe - config.clearanceSkin / distance;
      }
      if safe < 0.0 {
        safe := 0.0;
      }
      candidate := Lerp(anchor, input.desiredEye, safe);
      latched, run := true, 0;
    } else if distance > 0.0 {
      if latched {
        if input.fixedDeltaSeconds > 0.0 {
          run := run + 1;
        }
        if run >= config.releaseHoldTicks {
          latched, run := false, 0;
        } else {
          held := true;
        }
      }
      if !held {
        var recovery := config.recoverySpeed * input.fixedDeltaSeconds;
        if recovery > config.maxRecoveryStep {
          recovery := config.maxRecoveryStep;
        }
        if recovery > distance {
          recovery := distance;
        }
        recovered := recovery >= distance;
        candidate := if recovered then input.desiredEye else Lerp(anchor, input.desiredEye, recovery / distance);
      }
    } else {
      recovered := true;
      latched, run := false, 0;
    }
    plan := Plan(candidate, latched, run,
                 if hit.SweepHit? || held then Retracted else if recovered then Clear else Recovering);
  }

  function Fail(status: Status, eye: Vec): Result {
    Result(status, eye, false, false, false, false)
  }

  function Failed(s: Sweep): Status {
    if s.SweepInvalid? then Invalid else Failsafe
  }

  // ---- the same step, as a function ---------------------------------------------------------

  predicate Usable(config: Config, input: Input) {
    ConfigValid(config) && InputValid(input) && input.guard.Some?
  }

  function Radius(config: Config, input: Input): real
    requires input.guard.Some?
  {
    if config.policy.CenterRay? then 0.0 else input.guard.value
  }

  predicate Fits(config: Config, input: Input, eye: Vec)
    requires input.guard.Some?
  {
    input.sweep(Radius(config, input), eye, eye).SweepClear?
  }

  /** A teleport forgets the last shot and the hold. */
  function Entry(input: Input, v: View): View {
    if input.discontinuity then v.(lastSafeValid := false, latched := false, clearRunTicks := 0) else v
  }

  /** The first of the caller's eye, the last safe eye and the pivot that is clear where it stands. */
  function Anchor(config: Config, input: Input, v: View): Option<Vec>
    requires input.guard.Some?
  {
    if Fits(config, input, input.startSafeEye) then Some(input.startSafeEye)
    else if v.lastSafeValid && Fits(config, input, v.lastSafeEye) then Some(v.lastSafeEye)
    else if Fits(config, input, input.pivot) then Some(input.pivot)
    else None
  }

  predicate UsedLast(config: Config, input: Input, v: View)
    requires input.guard.Some?
  {
    !Fits(config, input, input.startSafeEye) && v.lastSafeValid && Fits(config, input, v.lastSafeEye)
  }

  /** How far along the way to desired a contact lets the eye go. */
  function SafeFraction(config: Config, fraction: real, distance: real): (f: real)
    ensures f >= 0.0
  {
    var f := if distance > 0.0 then fraction - config.clearanceSkin / distance else fraction;
    if f < 0.0 then 0.0 else f
  }

  function Recovery(config: Config, input: Input): real {
    Min(config.recoverySpeed * input.fixedDeltaSeconds, config.maxRecoveryStep)
  }

  /** Clear ticks served, counting this one if time passed in it. */
  function Served(v: View, input: Input): nat {
    v.clearRunTicks + (if input.fixedDeltaSeconds > 0.0 then 1 else 0)
  }

  predicate Holding(config: Config, input: Input, v: View) {
    v.latched && Served(v, input) < config.releaseHoldTicks
  }

  /** The pose to try, the latch it would leave, and how it would be reported. */
  datatype Plan = Plan(eye: Vec, latched: bool, run: nat, status: Status)

  function PlanFor(config: Config, input: Input, v: View, anchor: Vec, hit: Sweep, distance: real): Plan {
    if hit.SweepHit? then
      Plan(Lerp(anchor, input.desiredEye, SafeFraction(config, hit.fraction, distance)), true, 0, Retracted)
    else if distance <= 0.0 then Plan(anchor, false, 0, Clear)
    else if Holding(config, input, v) then Plan(anchor, true, Served(v, input), Retracted)
    else
      var run := if v.latched then 0 else v.clearRunTicks;
      if Recovery(config, input) >= distance then Plan(input.desiredEye, false, run, Clear)
      else Plan(Lerp(anchor, input.desiredEye, Recovery(config, input) / distance), false, run, Recovering)
  }

  function Tick(config: Config, input: Input, sqrt: real -> real, v0: View): (View, Result) {
    if !Usable(config, input) then (v0, Fail(Invalid, input.startSafeEye))
    else if config.policy.Legacy? then (v0, Result(Clear, input.desiredEye, true, false, false, false))
    else
      var v := Entry(input, v0);
      match Anchor(config, input, v)
      case None =>
        (v, Fail(Failed(input.sweep(Radius(config, input), input.pivot, input.pivot)),
                 if v.lastSafeValid then v.lastSafeEye else input.startSafeEye).(pathWasBlocked := true))
      case Some(anchor) =>
        (var used := UsedLast(config, input, v);
         var hit := input.sweep(Radius(config, input), anchor, input.desiredEye);
         if hit.SweepInvalid? then (v, Fail(Invalid, anchor).(usedLastSafe := used))
         else if hit.SweepHit? && hit.startedOverlapping then
           (v, Fail(Failsafe, anchor).(pathWasBlocked := true, usedLastSafe := used))
         else
           var distance := Distance(sqrt, anchor, input.desiredEye);
           var plan := PlanFor(config, input, v, anchor, hit, distance);
           if !Fits(config, input, plan.eye) then
             (v, Fail(Failed(input.sweep(Radius(config, input), plan.eye, plan.eye)), anchor)
                   .(pathWasBlocked := true, usedLastSafe := used))
           else
             (View(plan.eye, input.generation, plan.run, true, plan.latched),
              Result(plan.status, plan.eye, true, hit.SweepHit?,
                     !hit.SweepHit? && distance > 0.0 && Holding(config, input, v), used)))
  }

  // ---- one step ------------------------------------------------------------------------------

  /** An accepted eye was swept clear where it stands, in this very step, and becomes the last safe eye. */
  lemma AcceptedIsSwept(config: Config, input: Input, sqrt: real -> real, v: View)
    requires !config.policy.Legacy? && Tick(config, input, sqrt, v).1.accepted
    ensures input.guard.Some? && Fits(config, input, Tick(config, input, sqrt, v).1.eye)
    ensures Tick(config, input, sqrt, v).0.lastSafeEye == Tick(config, input, sqrt, v).1.eye
    ensures Tick(config, input, sqrt, v).0.lastSafeValid
  {
    hide Fits;
  }

  /** A step that accepts nothing leaves the last safe eye and the hold alone, but for a discontinuity. */
  lemma RejectedKeepsState(config: Config, input: Input, sqrt: real -> real, v: View)
    requires !Tick(config, input, sqrt, v).1.accepted
    ensures var after := Tick(config, input, sqrt, v).0;
            && after.lastSafeEye == v.lastSafeEye
            && (!input.discontinuity ==> after == v)
            && (after != v ==> after == Entry(input, v))
  {}

  /** The anchor an accepted step starts from. */
  function AnchorOf(config: Config, input: Input, v: View): Vec
    requires input.guard.Some? && Anchor(config, input, Entry(input, v)).Some?
  {
    Anchor(config, input, Entry(input, v)).value
  }

  lemma LerpLength(a: Vec, b: Vec, distance: real, f: real, moved: real)
    requires distance >= 0.0 && Square(distance) == Len2(Sub(b, a)) && f >= 0.0 && distance * f == moved
    ensures Len2(Sub(Lerp(a, b, f), a)) <= Square(moved)
  {
    hide Square, Dot;
    ScaleAtMost(Sub(b, a), distance, f);
    assert Sub(Lerp(a, b, f), a) == Scale(Sub(b, a), f);
  }

  lemma PartOfDistance(recovery: real, distance: real)
    requires distance > 0.0 && recovery >= 0.0
    ensures recovery / distance >= 0.0 && distance * (recovery / distance) == recovery
  {
    hide *;
    var f := recovery / distance;
    assert f * distance == recovery;
    if f < 0.0 {
      MulStrict(f, 0.0, distance);
    }
  }

  /** Expansion is bounded: an unblocked step moves at most speed times time, and at most one step. */
  lemma ExpansionBounded(config: Config, input: Input, sqrt: real -> real, v: View)
    requires IsRoot(sqrt) && !config.policy.Legacy?
    requires Tick(config, input, sqrt, v).1.accepted && !Tick(config, input, sqrt, v).1.pathWasBlocked
    ensures input.guard.Some? && Anchor(config, input, Entry(input, v)).Some?
    ensures Recovery(config, input) <= config.recoverySpeed * input.fixedDeltaSeconds
    ensures Recovery(config, input) <= config.maxRecoveryStep
    ensures Len2(Sub(Tick(config, input, sqrt, v).1.eye, AnchorOf(config, input, v))) <= Square(Recovery(config, input))
  {
    hide Fits, Square, Dot, Sub, Lerp;
    var anchor := AnchorOf(config, input, v);
    var distance := Distance(sqrt, anchor, input.desiredEye);
    var recovery := Recovery(config, input);
    RootNonNegative(sqrt);
    ProductNonNegative(config.recoverySpeed, input.fixedDeltaSeconds);
    RootOf(sqrt, anchor, input.desiredEye);
    StandingStill(anchor, recovery);
    if distance > 0.0 && !Holding(config, input, Entry(input, v)) {
      if recovery >= distance {
        SquareMonotone(distance, recovery);
      } else {
        PartOfDistance(recovery, distance);
        LerpLength(anchor, input.desiredEye, distance, recovery / distance, recovery);
      }
    }
  }

  lemma RootOf(sqrt: real -> real, a: Vec, b: Vec)
    requires IsRoot(sqrt)
    ensures Square(Distance(sqrt, a, b)) == Len2(Sub(b, a))
  {
    Len2NonNegative(Sub(b, a));
  }

  lemma StandingStill(a: Vec, r: real)
    ensures Len2(Sub(a, a)) <= Square(r)
  {
    SquareNonNegative(r);
  }

  /** Retraction is immediate and stops short of the contact by the clearance skin, or at the anchor. */
  lemma RetractionKeepsSkin(config: Config, input: Input, sqrt: real -> real, v: View)
    requires IsRoot(sqrt) && !config.policy.Legacy?
    requires Tick(config, input, sqrt, v).1.accepted && Tick(config, input, sqrt, v).1.pathWasBlocked
    ensures input.guard.Some? && Anchor(config, input, Entry(input, v)).Some?
    ensures var anchor := AnchorOf(config, input, v);
            var hit := input.sweep(Radius(config, input), anchor, input.desiredEye);
            var distance := Distance(sqrt, anchor, input.desiredEye);
            && hit.SweepHit?
            && var f := SafeFraction(config, hit.fraction, distance);
            && Tick(config, input, sqrt, v).1.eye == Lerp(anchor, input.desiredEye, f)
            && (f == 0.0 || f * distance + config.clearanceSkin <= hit.fraction * distance || distance <= 0.0)
    ensures Tick(config, input, sqrt, v).0.latched && Tick(config, input, sqrt, v).0.clearRunTicks == 0
  {
    hide Fits, Lerp;
    RootNonNegative(sqrt);
    var anchor := AnchorOf(config, input, v);
    var hit := input.sweep(Radius(config, input), anchor, input.desiredEye);
    var distance := Distance(sqrt, anchor, input.desiredEye);
    if hit.SweepHit? && distance > 0.0 {
      SkinFraction(hit.fraction, config.clearanceSkin, distance);
    }
  }

  lemma SkinFraction(fraction: real, skin: real, distance: real)
    requires distance > 0.0
    ensures (fraction - skin / distance) * distance + skin == fraction * distance
  {
    hide *;
    var q := skin / distance;
    assert q * distance == skin;
    assert (fraction - q) * distance == fraction * distance - q * distance;
  }

  // ---- one step, spelled out -----------------------------------------------------------------

  /** On the straight way from `a` to `b`, which is `distance` long, s from `a`. */
  ghost predicate OnTheWay(a: Vec, b: Vec, eye: Vec, distance: real, s: real) {
    Len2(Sub(eye, a)) == Square(s) && Len2(Sub(b, eye)) == Square(distance - s)
  }

  lemma LerpOnTheWay(a: Vec, b: Vec, distance: real, f: real, s: real)
    requires Square(distance) == Len2(Sub(b, a)) && distance * f == s
    ensures OnTheWay(a, b, Lerp(a, b, f), distance, s)
  {
    hide Dot;
    var eye, rest := Lerp(a, b, f), 1.0 - f;
    assert Sub(eye, a) == Scale(Sub(b, a), f);
    assert Sub(b, eye) == Scale(Sub(b, a), rest) by { RestOfWay(a, b, f); }
    Len2OfScale(Sub(b, a), f);
    Len2OfScale(Sub(b, a), rest);
    hide *;
    SquareOfProduct(distance, f);
    SquareOfProduct(distance, rest);
    assert distance * rest == distance - s;
    LenOf(a, b, eye, distance, s);
  }

  lemma LenOf(a: Vec, b: Vec, eye: Vec, distance: real, s: real)
    requires Len2(Sub(eye, a)) == Square(s) && Len2(Sub(b, eye)) == Square(distance - s)
    ensures OnTheWay(a, b, eye, distance, s)
  {}

  lemma RestOfWay(a: Vec, b: Vec, f: real)
    ensures Sub(b, Lerp(a, b, f)) == Scale(Sub(b, a), 1.0 - f)
  {
    hide Dot, Square, Times;
    var d := Sub(b, a);
    RestScalar(a.x, b.x, d.x, f);
    RestScalar(a.y, b.y, d.y, f);
    RestScalar(a.z, b.z, d.z, f);
  }

  lemma RestScalar(a: real, b: real, d: real, f: real)
    requires d == b - a
    ensures b - (a + d * f) == d * (1.0 - f)
  {
    hide *;
    assert d * (1.0 - f) == d - d * f;
  }

  lemma AtTheStart(a: Vec, b: Vec, distance: real)
    requires Square(distance) == Len2(Sub(b, a))
    ensures OnTheWay(a, b, a, distance, 0.0)
  {}

  lemma AtTheEnd(a: Vec, b: Vec, distance: real)
    requires Square(distance) == Len2(Sub(b, a))
    ensures OnTheWay(a, b, b, distance, distance)
  {}

  /** The plan a step that accepts its eye has carried out. */
  lemma AcceptedPlan(config: Config, input: Input, sqrt: real -> real, v: View)
    requires !config.policy.Legacy? && Tick(config, input, sqrt, v).1.accepted
    ensures input.guard.Some? && Anchor(config, input, Entry(input, v)).Some? && ConfigValid(config)
    ensures input.fixedDeltaSeconds >= 0.0
    ensures var (after, r) := Tick(config, input, sqrt, v);
            var anchor, w := AnchorOf(config, input, v), Entry(input, v);
            var hit := input.sweep(Radius(config, input), anchor, input.desiredEye);
            var plan := PlanFor(config, input, w, anchor, hit, Distance(sqrt, anchor, input.desiredEye));
            && !hit.SweepInvalid? && r.pathWasBlocked == hit.SweepHit?
            && r.eye == plan.eye && r.status == plan.status && after.latched == plan.latched
            && after.clearRunTicks == plan.run && after.lastSafeEye == r.eye
            && r.releaseHeld == (!hit.SweepHit? && Distance(sqrt, anchor, input.desiredEye) > 0.0
                                 && Holding(config, input, w))
  {
    hide Fits, Distance, PlanFor, Holding, Radius;
  }

  lemma HoldingIs(config: Config, input: Input, v: View)
    ensures Holding(config, input, Entry(input, v)) <==>
            && v.latched && !input.discontinuity
            && v.clearRunTicks + (if input.fixedDeltaSeconds > 0.0 then 1 else 0) < config.releaseHoldTicks
    ensures !input.discontinuity ==>
              Served(Entry(input, v), input) == v.clearRunTicks + (if input.fixedDeltaSeconds > 0.0 then 1 else 0)
  {}

  /** What the plan comes to: after a contact at the contact's distance less the skin, or the anchor. */
  lemma ContactPlan(config: Config, input: Input, v: View, anchor: Vec, hit: Sweep, distance: real)
    requires ConfigValid(config) && hit.SweepHit? && distance >= 0.0
    requires Square(distance) == Len2(Sub(input.desiredEye, anchor))
    ensures var plan, contact := PlanFor(config, input, v, anchor, hit, distance), Times(distance, hit.fraction);
            && plan.status == Retracted && plan.latched && plan.run == 0
            && OnTheWay(anchor, input.desiredEye, plan.eye, distance,
                        if contact > config.clearanceSkin then contact - config.clearanceSkin else 0.0)
  {
    hide Square, Len2, Sub, Lerp, OnTheWay;
    SafeIs(config, hit.fraction, distance);
    LerpOnTheWay(anchor, input.desiredEye, distance, SafeFraction(config, hit.fraction, distance),
                 if Times(distance, hit.fraction) > config.clearanceSkin
                 then Times(distance, hit.fraction) - config.clearanceSkin else 0.0);
  }

  /** And without one as far as it may go. */
  lemma FreePlan(config: Config, input: Input, v: View, anchor: Vec, hit: Sweep, distance: real)
    requires ConfigValid(config) && input.fixedDeltaSeconds >= 0.0 && distance >= 0.0
    requires !hit.SweepHit? && !(distance > 0.0 && Holding(config, input, v))
    requires Square(distance) == Len2(Sub(input.desiredEye, anchor))
    ensures var plan := PlanFor(config, input, v, anchor, hit, distance);
            var reach := Min(Recovery(config, input), distance);
            && !plan.latched && plan.status == (if reach >= distance then Clear else Recovering)
            && OnTheWay(anchor, input.desiredEye, plan.eye, distance, reach)
  {
    hide Square, Len2, Sub, Lerp, OnTheWay, Holding;
    var recovery := Recovery(config, input);
    AtTheStart(anchor, input.desiredEye, distance);
    AtTheEnd(anchor, input.desiredEye, distance);
    ProductNonNegative(config.recoverySpeed, input.fixedDeltaSeconds);
    hide Recovery;
    if 0.0 <= recovery < distance {
      PartOfDistance(recovery, distance);
      LerpOnTheWay(anchor, input.desiredEye, distance, recovery / distance, recovery);
    }
  }

  lemma RecoveryIs(config: Config, input: Input)
    ensures Recovery(config, input) ==
            Min(Times(config.recoverySpeed, input.fixedDeltaSeconds), config.maxRecoveryStep)
  {}

  lemma HeldPlan(config: Config, input: Input, v: View, anchor: Vec, hit: Sweep, distance: real)
    requires !hit.SweepHit? && distance > 0.0 && Holding(config, input, v)
    ensures PlanFor(config, input, v, anchor, hit, distance) == Plan(anchor, true, Served(v, input), Retracted)
  {}

  /** Where a step that accepts its eye puts it. After a contact it is at the contact's distance less the skin,
      or at the anchor. Otherwise it stays at its anchor while a contact's hold lasts, and then goes as far as
      speed times time, one step, or the way allows: never more, never less, and straight towards desired. */
  lemma MoveSpelled(config: Config, input: Input, sqrt: real -> real, v: View)
    requires IsRoot(sqrt) && !config.policy.Legacy? && Tick(config, input, sqrt, v).1.accepted
    ensures input.guard.Some? && Anchor(config, input, Entry(input, v)).Some?
    ensures var (after, r) := Tick(config, input, sqrt, v);
            var anchor := AnchorOf(config, input, v);
            var hit := input.sweep(Radius(config, input), anchor, input.desiredEye);
            var distance := Distance(sqrt, anchor, input.desiredEye);
            var served := v.clearRunTicks + (if input.fixedDeltaSeconds > 0.0 then 1 else 0);
            && r.pathWasBlocked == hit.SweepHit?
            && if hit.SweepHit? then
                 var contact := Times(distance, hit.fraction);
                 && OnTheWay(anchor, input.desiredEye, r.eye, distance,
                             if contact > config.clearanceSkin then contact - config.clearanceSkin else 0.0)
                 && r.status == Retracted && !r.releaseHeld && after.latched && after.clearRunTicks == 0
               else if distance > 0.0 && v.latched && !input.discontinuity && served < config.releaseHoldTicks then
                 && r.eye == anchor && r.status == Retracted && r.releaseHeld
                 && after.latched && after.clearRunTicks == served
               else
                 var reach := Min(Min(Times(config.recoverySpeed, input.fixedDeltaSeconds), config.maxRecoveryStep),
                                  distance);
                 && OnTheWay(anchor, input.desiredEye, r.eye, distance, reach)
                 && r.status == (if reach >= distance then Clear else Recovering) && !r.releaseHeld && !after.latched
  {
    hide *;
    AcceptedPlan(config, input, sqrt, v);
    var anchor := AnchorOf(config, input, v);
    var hit := input.sweep(Radius(config, input), anchor, input.desiredEye);
    var distance := Distance(sqrt, anchor, input.desiredEye);
    RootNonNegative(sqrt);
    RootOf(sqrt, anchor, input.desiredEye);
    HoldingIs(config, input, v);
    RecoveryIs(config, input);
    if hit.SweepHit? {
      ContactPlan(config, input, Entry(input, v), anchor, hit, distance);
    } else if distance > 0.0 && Holding(config, input, Entry(input, v)) {
      HeldPlan(config, input, Entry(input, v), anchor, hit, distance);
    } else {
      FreePlan(config, input, Entry(input, v), anchor, hit, distance);
    }
  }

  lemma SafeIs(config: Config, fraction: real, distance: real)
    requires config.clearanceSkin >= 0.0 && distance >= 0.0
    ensures distance * SafeFraction(config, fraction, distance) ==
            if Times(distance, fraction) > config.clearanceSkin then Times(distance, fraction) - config.clearanceSkin
            else 0.0
  {
    if distance > 0.0 {
      SkinFraction(fraction, config.clearanceSkin, distance);
      var f := fraction - config.clearanceSkin / distance;
      if f < 0.0 {
        MulStrict(f, 0.0, distance);
      } else {
        ProductNonNegative(f, distance);
      }
    }
  }

  /** The anchor is the first of the caller's eye, the last safe eye unless this is a teleport, and the pivot,
      that the sweep finds clear where it stands; the centre-ray policy sweeps a point. */
  lemma AnchorSpelled(config: Config, input: Input, v: View)
    requires input.guard.Some?
    ensures var r := if config.policy == CenterRay then 0.0 else input.guard.value;
            var mine, last, pivot := input.sweep(r, input.startSafeEye, input.startSafeEye).SweepClear?,
                  v.lastSafeValid && !input.discontinuity && input.sweep(r, v.lastSafeEye, v.lastSafeEye).SweepClear?,
                  input.sweep(r, input.pivot, input.pivot).SweepClear?;
            && Anchor(config, input, Entry(input, v)) ==
               (if mine then Some(input.startSafeEye) else if last then Some(v.lastSafeEye)
                else if pivot then Some(input.pivot) else None)
            && UsedLast(config, input, Entry(input, v)) == (!mine && last) && Radius(config, input) == r
  {}

  /** What a step does that accepts nothing: an unusable one answers INVALID and the caller's eye; one without
      an anchor the last safe eye, or the caller's; any other its anchor. It is INVALID just when the sweep that
      decided was. The legacy policy accepts the desired eye unseen. */
  lemma RejectedSpelled(config: Config, input: Input, sqrt: real -> real, v: View)
    ensures var (after, r) := Tick(config, input, sqrt, v);
            var usable := && config.clearanceSkin >= 0.0 && config.recoverySpeed > 0.0 && config.maxRecoveryStep > 0.0
                          && input.fixedDeltaSeconds >= 0.0 && input.generation != 0 && input.guard.Some?;
            if !usable then after == v && r == Result(Invalid, input.startSafeEye, false, false, false, false)
            else if config.policy.Legacy? then
              after == v && r == Result(Clear, input.desiredEye, true, false, false, false)
            else
              var w := Entry(input, v);
              && (input.discontinuity ==> !w.lastSafeValid && !w.latched && w.clearRunTicks == 0 && !r.usedLastSafe)
              && (!input.discontinuity ==> w == v)
              && (r.accepted ==> after.lastSafeEye == r.eye && after.generation == input.generation)
              && match Anchor(config, input, w)
                 case None =>
                   && !r.accepted && r.eye == (if w.lastSafeValid then w.lastSafeEye else input.startSafeEye)
                   && r.pathWasBlocked
                   && r.status == if input.sweep(Radius(config, input), input.pivot, input.pivot).SweepInvalid?
                                  then Invalid else Failsafe
                 case Some(anchor) =>
                   var hit := input.sweep(Radius(config, input), anchor, input.desiredEye);
                   && (hit.SweepInvalid? ==> !r.accepted && r.status == Invalid && !r.pathWasBlocked)
                   && (hit.SweepHit? && hit.startedOverlapping ==> !r.accepted && r.status == Failsafe)
                   && (!r.accepted ==> r.eye == anchor && (r.status == Invalid || r.status == Failsafe))
                   && (!r.accepted && !hit.SweepInvalid? ==> r.pathWasBlocked)
                   && (!r.accepted && !hit.SweepInvalid? && !(hit.SweepHit? && hit.startedOverlapping) ==>
                         exists eye ::
                           && !input.sweep(Radius(config, input), eye, eye).SweepClear?
                           && r.status == if input.sweep(Radius(config, input), eye, eye).SweepInvalid?
                                          then Invalid else Failsafe)
  {
    hide PlanFor, Len2, Sub;
  }

  // ---- the hold, over a run ------------------------------------------------------------------

  ghost predicate Run(config: Config, sqrt: real -> real, inputs: seq<Input>, views: seq<View>, results: seq<Result>) {
    && |results| == |inputs| && |views| == |inputs| + 1
    && forall k :: 0 <= k < |inputs| ==> (views[k + 1], results[k]) == Tick(config, inputs[k], sqrt, views[k])
  }

  /** Neither a teleport nor an accepted contact nor an accepted arrival. */
  predicate Quiet(config: Config, input: Input, sqrt: real -> real, v: View, r: Result) {
    && !input.discontinuity
    && (r.accepted ==>
          !r.pathWasBlocked && input.guard.Some? && Anchor(config, input, Entry(input, v)).Some? &&
          Distance(sqrt, AnchorOf(config, input, v), input.desiredEye) > 0.0)
  }

  /** Accepted steps after the first in which time passed. */
  function ClearTicks(inputs: seq<Input>, results: seq<Result>, n: nat): nat
    requires n < |inputs| == |results|
  {
    if n == 0 then 0
    else ClearTicks(inputs, results, n - 1) +
         (if results[n].accepted && inputs[n].fixedDeltaSeconds > 0.0 then 1 else 0)
  }

  lemma QuietTick(config: Config, input: Input, sqrt: real -> real, v: View)
    requires !config.policy.Legacy? && v.latched && IsRoot(sqrt)
    requires Quiet(config, input, sqrt, v, Tick(config, input, sqrt, v).1)
    ensures var (after, r) := Tick(config, input, sqrt, v);
            if !r.accepted then after == v
            else if Served(v, input) < config.releaseHoldTicks then
              after.latched && after.clearRunTicks == Served(v, input) && r.releaseHeld &&
              input.guard.Some? && r.eye == AnchorOf(config, input, v)
            else !after.latched && after.clearRunTicks == 0 && !r.releaseHeld
  {
    hide Lerp, Fits;
  }

  /** After a contact, and until enough clear ticks have been served, every accepted eye stays at its anchor:
      rejected steps and steps without time do not count. */
  lemma {:induction false} HoldLasts(config: Config, sqrt: real -> real, inputs: seq<Input>, views: seq<View>,
                                     results: seq<Result>, n: nat)
    requires IsRoot(sqrt) && !config.policy.Legacy? && Run(config, sqrt, inputs, views, results) && n < |inputs|
    requires results[0].accepted && results[0].pathWasBlocked
    requires forall k :: 1 <= k <= n ==> Quiet(config, inputs[k], sqrt, views[k], results[k])
    requires ClearTicks(inputs, results, n) < config.releaseHoldTicks
    ensures views[n + 1].latched && views[n + 1].clearRunTicks == ClearTicks(inputs, results, n)
    ensures n > 0 && results[n].accepted ==>
              inputs[n].guard.Some? && Anchor(config, inputs[n], Entry(inputs[n], views[n])).Some? &&
              results[n].eye == AnchorOf(config, inputs[n], views[n]) && results[n].releaseHeld
  {
    hide Tick, Anchor;
    assert (views[n + 1], results[n]) == Tick(config, inputs[n], sqrt, views[n]);
    if n == 0 {
      RetractionKeepsSkin(config, inputs[0], sqrt, views[0]);
    } else {
      HoldLasts(config, sqrt, inputs, views, results, n - 1);
      assert Quiet(config, inputs[n], sqrt, views[n], results[n]);
      QuietTick(config, inputs[n], sqrt, views[n]);
    }
  }

  /** The tick that completes the hold releases it. */
  lemma HoldEnds(config: Config, sqrt: real -> real, inputs: seq<Input>, views: seq<View>, results: seq<Result>, n: nat)
    requires IsRoot(sqrt) && !config.policy.Legacy? && Run(config, sqrt, inputs, views, results) && 0 < n < |inputs|
    requires results[0].accepted && results[0].pathWasBlocked && results[n].accepted
    requires forall k :: 1 <= k <= n ==> Quiet(config, inputs[k], sqrt, views[k], results[k])
    requires ClearTicks(inputs, results, n - 1) < config.releaseHoldTicks <= ClearTicks(inputs, results, n)
    ensures !views[n + 1].latched && !results[n].releaseHeld && results[n].status != Retracted
  {
    hide Anchor, Fits;
    HoldLasts(config, sqrt, inputs, views, results, n - 1);
    assert (views[n + 1], results[n]) == Tick(config, inputs[n], sqrt, views[n]);
    assert Quiet(config, inputs[n], sqrt, views[n], results[n]);
    QuietTick(config, inputs[n], sqrt, views[n]);
  }
}
