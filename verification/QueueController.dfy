/** The latency controller of the audio queue (platform/audio_queue_controller.c): how big the next
    synthesised block is, and what that does to the queue when blocks and drains alternate. */
module QueueController {
  import opened Words

  const UINT32_MAX: nat := WORD - 1
  const GAP_EXCESS_WEIGHT: nat := 3
  const GAP_CUSHION_BLOCKS: nat := 2
  const GAP_DECAY: nat := 64

  /** A frame size of zero is derived from the output rate. */
  function FrameSize(frameSize: nat, outputRate: nat): (f: nat)
    ensures f > 0
  {
    if frameSize != 0 then frameSize else if outputRate / 30 != 0 then outputRate / 30 else 16
  }

  /** The remembered worst gap: raised at once, and shed by a 64th of its excess, and one, when not. */
  function GapAfter(gap: nat, frame: nat, drain: nat): (g: nat)
    ensures g >= frame
  {
    var g := Max(gap, frame);
    var seen := Min(drain, UINT32_MAX);
    if seen > g then seen
    else
      var shed := (g - frame) / GAP_DECAY + 1;
      if g - frame > shed then g - shed else frame
  }

  /** One block, and up to two more to cover the excess of the worst gap; at least one device period. */
  function Target(gap: nat, frame: nat, period: nat): nat
    requires gap >= frame
  {
    Max(frame + Cushion(gap - frame, frame), period)
  }

  /** The saturating cushion, as the machine words compute it. */
  function Cushion(excess: nat, frame: nat): nat {
    var ceiling := if frame > UINT32_MAX / (GAP_CUSHION_BLOCKS + 1) then UINT32_MAX
                   else frame * (GAP_CUSHION_BLOCKS + 1);
    var cushion := if excess > UINT32_MAX / GAP_EXCESS_WEIGHT then UINT32_MAX else excess * GAP_EXCESS_WEIGHT;
    if cushion + frame > ceiling then (if ceiling > frame then ceiling - frame else 0) else cushion
  }

  /** Below the word limit it is three times the excess, and at most two blocks. */
  lemma CushionIs(excess: nat, frame: nat)
    requires 3 * excess <= UINT32_MAX && 3 * frame <= UINT32_MAX
    ensures Cushion(excess, frame) == Min(3 * excess, 2 * frame)
  {}

  /** The block that makes up the drain and the distance to the target, in whole sixteens within bounds. */
  function Block(drain: nat, target: nat, queued: nat, most: nat): nat {
    var wanted := drain + target - queued;
    var clipped := Min(if wanted < 16 then 16 else wanted, most);
    clipped - clipped % 16
  }

  // ---- the controller ------------------------------------------------------------------------

  class Controller {
    var lastCounter: nat
    var haveLastCounter: bool
    var gapFrames: nat
    var devicePeriod: nat
    var measuredDrain: nat
    var haveMeasuredDrain: bool
    var targetFrames: nat
    var producedFrames: nat
    var emptyQueueObservations: nat
    var underruns: nat
    var floorBreaches: nat
    var stallGuards: nat
    var measuredDecisions: nat

    ghost predicate Valid()
      reads this
    {
      lastCounter < WORD && gapFrames < WORD && devicePeriod < WORD && measuredDrain < WORD
    }

    constructor ()
      ensures Valid() && !haveLastCounter && !haveMeasuredDrain && gapFrames == devicePeriod == producedFrames == 0
    {
      lastCounter, haveLastCounter, gapFrames, devicePeriod := 0, false, 0, 0;
      measuredDrain, haveMeasuredDrain, targetFrames, producedFrames := 0, false, 0, 0;
      emptyQueueObservations, underruns, floorBreaches, stallGuards, measuredDecisions := 0, 0, 0, 0, 0;
    }

    method NoteDrain(frames: nat)
      requires Valid() && frames < WORD
      modifies this`measuredDrain, this`haveMeasuredDrain
      ensures Valid() && haveMeasuredDrain && measuredDrain == frames
    {
      measuredDrain := frames;
      haveMeasuredDrain := true;
    }

    method SetDevicePeriod(period: nat)
      requires Valid() && period < WORD
      modifies this`devicePeriod
      ensures Valid() && devicePeriod == period
    {
      devicePeriod := period;
    }

    /** The drain a decision works with: measured, or inferred from the host counter unless that implies
        more than four blocks, or half a block when there is nothing to go by. */
    function Consumed(now: nat, counterRate: nat, outputRate: nat, frame: nat): nat
      reads this
    {
      if haveMeasuredDrain then measuredDrain
      else if !haveLastCounter || counterRate == 0 then frame / 2
      else
        var inferred := WrapSub(now, lastCounter) * outputRate / counterRate;
        if inferred > frame * 4 then frame / 2 else inferred
    }

    /** In numbers: what was measured; else what the counter says, up to four blocks; else half a block. */
    lemma ConsumedSpelled(now: nat, counterRate: nat, outputRate: nat, frame: nat)
      ensures var consumed := Consumed(now, counterRate, outputRate, frame);
              && (haveMeasuredDrain ==> consumed == measuredDrain)
              && (!haveMeasuredDrain && (!haveLastCounter || counterRate == 0) ==> consumed == frame / 2)
              && (!haveMeasuredDrain && haveLastCounter && counterRate != 0 ==>
                    var played := (now - lastCounter) % 0x1_0000_0000 * outputRate / counterRate;
                    consumed == if played <= 4 * frame then played else frame / 2)
    {}

    /** Settle the drain; a measurement is used up. */
    method TakeDrain(now: nat, counterRate: nat, outputRate: nat, frame: nat) returns (consumed: nat)
      requires Valid() && now < WORD
      modifies this
      ensures Valid() && consumed == old(Consumed(now, counterRate, outputRate, frame))
      ensures !haveMeasuredDrain && lastCounter == now
      ensures old(haveMeasuredDrain) || !old(haveLastCounter) ==> haveLastCounter
      ensures measuredDecisions == old(measuredDecisions) + (if old(haveMeasuredDrain) then 1 else 0)
      ensures unchanged(this`gapFrames, this`devicePeriod, this`targetFrames, this`producedFrames)
      ensures unchanged(this`emptyQueueObservations, this`underruns, this`floorBreaches)
    {
      if haveMeasuredDrain {
        consumed := measuredDrain;
        haveMeasuredDrain := false;
        measuredDrain := 0;
        haveLastCounter := true;
        measuredDecisions := measuredDecisions + 1;
      } else if !haveLastCounter {
        consumed := frame / 2;
        haveLastCounter := true;
      } else if counterRate == 0 {
        consumed := frame / 2;
        stallGuards := stallGuards + 1;
      } else {
        var elapsed := WrapSub(now, lastCounter);
        consumed := elapsed * outputRate / counterRate;
        if consumed > frame * 4 {
          consumed := frame / 2;
          stallGuards := stallGuards + 1;
        }
      }
      lastCounter := now;
    }

    /** Raise or shed the remembered gap. */
    method RememberGap(frame: nat, consumed: nat)
      requires Valid() && 0 < frame < WORD
      modifies this`gapFrames
      ensures Valid() && gapFrames == GapAfter(old(gapFrames), frame, consumed)
    {
      if gapFrames < frame {
        gapFrames := frame;
      }
      var gap := if consumed > UINT32_MAX then UINT32_MAX else consumed;
      if gap > gapFrames {
        gapFrames := gap;
      } else if gapFrames > frame {
        var shed := (gapFrames - frame) / GAP_DECAY + 1;
        gapFrames := if gapFrames - frame > shed then gapFrames - shed else frame;
      }
    }

    method LatencyTarget(frame: nat, consumed: nat) returns (target: nat)
      requires Valid() && 0 < frame < WORD
      modifies this`gapFrames
      ensures Valid() && gapFrames == GapAfter(old(gapFrames), frame, consumed)
      ensures target == Target(gapFrames, frame, devicePeriod)
    {
      hide GapAfter;
      RememberGap(frame, consumed);
      target := frame + Cushion(gapFrames - frame, frame);
      if devicePeriod > target {
        target := devicePeriod;
      }
    }

    /** What the queue looks like as the decision is made. */
    method Observe(queued: nat, consumed: nat)
      modifies this`emptyQueueObservations, this`underruns, this`floorBreaches
      ensures emptyQueueObservations == old(emptyQueueObservations) + (if queued == 0 then 1 else 0)
      ensures underruns == old(underruns) + (if queued == 0 && producedFrames != 0 then 1 else 0)
      ensures floorBreaches == old(floorBreaches) + (if 0 < queued < consumed then 1 else 0)
    {
      if queued == 0 {
        emptyQueueObservations := emptyQueueObservations + 1;
        if producedFrames != 0 {
          underruns := underruns + 1;
        }
      } else if queued < consumed {
        floorBreaches := floorBreaches + 1;
      }
    }

    /** The size of the next block. */
    method Choose(haveSink: bool, now: nat, counterRate: nat, outputRate: nat, frameSize: nat, maxSamples: nat,
                  queued: nat)
      returns (produce: nat)
      requires Valid() && now < WORD && outputRate < WORD && frameSize < WORD
      modifies this
      ensures Valid()
      ensures maxSamples < 16 ==> produce == 0 && unchanged(this)
      ensures maxSamples >= 16 && !haveSink ==>
                produce == Block(FrameSize(frameSize, outputRate), 0, 0, maxSamples) && unchanged(this)
      ensures maxSamples >= 16 && haveSink ==>
                var frame := FrameSize(frameSize, outputRate);
                var drain := old(Consumed(now, counterRate, outputRate, frame));
                && gapFrames == GapAfter(old(gapFrames), frame, drain)
                && targetFrames == Target(gapFrames, frame, devicePeriod)
                && produce == Block(drain, targetFrames, queued, maxSamples)
                && producedFrames == old(producedFrames) + produce && devicePeriod == old(devicePeriod)
                && underruns == old(underruns) + (if queued == 0 && old(producedFrames) != 0 then 1 else 0)
                && !haveMeasuredDrain
    {
      hide GapAfter, Target;
      var frame := FrameSize(frameSize, outputRate);
      if maxSamples < 16 {
        return 0;
      }
      var wanted: int := frame;
      if haveSink {
        var consumed := TakeDrain(now, counterRate, outputRate, frame);
        Observe(queued, consumed);
        var target := LatencyTarget(frame, consumed);
        targetFrames := target;
        var correction: int := target - queued;
        wanted := if consumed + correction > 0 then consumed + correction else 0;
      }
      if wanted < 16 {
        wanted := 16;
      }
      if wanted > maxSamples {
        wanted := maxSamples;
      }
      produce := wanted - wanted % 16;
      if haveSink {
        producedFrames := producedFrames + produce;
      }
    }
  }

  // ---- what it guarantees --------------------------------------------------------------------

  /** Blocks are whole sixteens between sixteen and the most the caller takes. */
  lemma BlockBounds(drain: nat, target: nat, queued: nat, most: nat)
    requires most >= 16
    ensures var b := Block(drain, target, queued, most); b % 16 == 0 && 16 <= b <= most
    ensures drain + target - queued <= 16 ==> Block(drain, target, queued, most) == 16
    ensures drain + target - queued >= most ==> Block(drain, target, queued, most) > most - 16
  {}

  /** The frame size asked for, or a thirtieth of a second, or sixteen. */
  lemma FrameSizes(frameSize: nat, outputRate: nat)
    ensures frameSize > 0 ==> FrameSize(frameSize, outputRate) == frameSize
    ensures outputRate >= 30 ==> 30 * FrameSize(0, outputRate) <= outputRate < 30 * FrameSize(0, outputRate) + 30
    ensures outputRate < 30 ==> FrameSize(0, outputRate) == 16
  {}

  /** The gap memory in numbers: a longer drain replaces it at once; any other takes a 64th of the excess over
      one block off it, and one frame more. */
  lemma GapSpelled(gap: nat, frame: nat, drain: nat)
    requires gap < 0x1_0000_0000 && frame < 0x1_0000_0000
    ensures gap < drain < 0x1_0000_0000 && frame < drain ==> GapAfter(gap, frame, drain) == drain
    ensures gap <= frame && drain <= frame ==> GapAfter(gap, frame, drain) == frame
    ensures gap > frame && drain <= gap ==>
              var excess := gap - frame;
              GapAfter(gap, frame, drain) == frame + (if excess > excess / 64 + 1 then excess - excess / 64 - 1 else 0)
  {}

  /** The target in numbers: one block and three times the excess of the gap over it, up to three blocks. */
  lemma TargetSpelled(gap: nat, frame: nat, period: nat)
    requires frame <= gap && 3 * (gap - frame) < 0x1_0000_0000 && 3 * frame < 0x1_0000_0000
    ensures 3 * gap <= 5 * frame && period <= 3 * gap - 2 * frame ==> Target(gap, frame, period) == 3 * gap - 2 * frame
    ensures 3 * gap >= 5 * frame && period <= 3 * frame ==> Target(gap, frame, period) == 3 * frame
    ensures period >= 3 * frame ==> Target(gap, frame, period) == period
  {
    CushionIs(gap - frame, frame);
  }

  /** The target covers one block and never asks for more than three blocks or one device period. */
  lemma TargetBounds(gap: nat, frame: nat, period: nat)
    requires gap >= frame && 0 < frame < WORD
    ensures frame <= Target(gap, frame, period) <= Max(3 * frame, period)
    ensures gap == frame ==> Target(gap, frame, period) == Max(frame, period)
  {}

  /** An unclipped block leaves the queue within sixteen frames below the drain plus the target, so that it
      outlasts any next drain up to there. */
  lemma OccupancyAfter(drain: nat, target: nat, queued: nat, most: nat, next: nat)
    requires 16 <= drain + target - queued <= most
    ensures var occupancy := queued + Block(drain, target, queued, most);
            && drain + target - 16 < occupancy <= drain + target
            && (next <= drain + target - 16 ==> occupancy > next)
  {}

  /** What the target is for: up to three blocks, a drain no worse than the worst remembered gap never empties
      a queue that an unclipped block has just filled. */
  lemma RememberedGapSurvives(gap: nat, frame: nat, period: nat, drain: nat, queued: nat, most: nat, next: nat)
    requires frame <= gap <= 3 * frame && 3 * gap <= UINT32_MAX && drain >= 16 && next <= gap
    requires 16 <= drain + Target(gap, frame, period) - queued <= most
    ensures queued + Block(drain, Target(gap, frame, period), queued, most) > next
  {
    hide Block;
    CushionIs(gap - frame, frame);
    OccupancyAfter(drain, Target(gap, frame, period), queued, most, next);
  }

  /** What is left after a drain; a drain counts what the device asked for, even if the queue ran dry. */
  function Left(depth: nat, drain: nat): nat {
    if drain <= depth then depth - drain else 0
  }

  /** In closed loop the queue gets no deeper than the drain plus the target, or sixteen more than was left;
      so a drain of at least sixteen never leaves it deeper than before, or than the drain plus the target. */
  lemma OccupancyBounded(before: nat, drain: nat, target: nat, most: nat)
    requires most >= 16
    ensures var after := Left(before, drain) + Block(drain, target, Left(before, drain), most);
            && after <= Max(Left(before, drain) + 16, drain + target)
            && (drain >= 16 ==> after <= Max(before, drain + target))
  {}

  /** While drains stay within one block the gap memory falls strictly until it is one block. */
  lemma GapDecays(gap: nat, frame: nat, drain: nat)
    requires drain <= frame < WORD
    ensures var g := GapAfter(gap, frame, drain);
            frame <= g && (gap > frame ==> g < gap) && (gap <= frame ==> g == frame)
  {}

  /** The gap memory after a run of drains. */
  function GapRun(gap: nat, frame: nat, drains: seq<nat>): nat {
    if |drains| == 0 then gap else GapAfter(GapRun(gap, frame, drains[..|drains| - 1]), frame, drains[|drains| - 1])
  }

  /** A standing excess is gone after at most as many such drains as it has frames. */
  lemma {:induction false} GapForgotten(gap: nat, frame: nat, drains: seq<nat>)
    requires gap >= frame && frame < WORD && forall i :: 0 <= i < |drains| ==> drains[i] <= frame
    ensures GapRun(gap, frame, drains) <= Max(frame, if gap > |drains| then gap - |drains| else 0)
  {
    hide GapAfter;
    if |drains| > 0 {
      GapForgotten(gap, frame, drains[..|drains| - 1]);
      GapDecays(GapRun(gap, frame, drains[..|drains| - 1]), frame, drains[|drains| - 1]);
    }
  }

  // ---- the beat ------------------------------------------------------------------------------

  /** One turn sheds no more than a 64th of the excess there was once, and one. */
  lemma GapShedsSlowly(gap: nat, frame: nat, drain: nat, excess: nat, left: nat)
    requires left <= excess && gap >= frame + left && gap < WORD
    ensures GapAfter(gap, frame, drain) >= frame + (if left > excess / 64 + 1 then left - excess / 64 - 1 else 0)
  {}

  /** A gap just seen is remembered, but for what a turn sheds. */
  lemma GapSeen(gap: nat, frame: nat, excess: nat)
    requires gap < WORD && frame + excess < WORD
    ensures GapAfter(gap, frame, frame + excess) >=
            frame + (if excess > excess / 64 + 1 then excess - excess / 64 - 1 else 0)
  {
    if gap >= frame + excess {
      GapShedsSlowly(gap, frame, frame + excess, excess, excess);
    }
  }

  lemma GapFits(gap: nat, frame: nat, drain: nat)
    requires gap < WORD && frame < WORD
    ensures GapAfter(gap, frame, drain) < WORD
  {}

  lemma GapRunStep(gap: nat, frame: nat, drains: seq<nat>)
    requires |drains| > 0
    ensures GapRun(gap, frame, drains) ==
            GapAfter(GapRun(gap, frame, drains[..|drains| - 1]), frame, drains[|drains| - 1])
  {}

  lemma {:induction false} GapRunFits(gap: nat, frame: nat, drains: seq<nat>)
    requires gap < WORD && frame < WORD
    ensures GapRun(gap, frame, drains) < WORD
  {
    if |drains| > 0 {
      GapRunFits(gap, frame, drains[..|drains| - 1]);
      GapFits(GapRun(gap, frame, drains[..|drains| - 1]), frame, drains[|drains| - 1]);
    }
  }

  /** The gap that is remembered so many turns after a drain that long. */
  lemma {:induction false} GapRemembered(gap: nat, frame: nat, drains: seq<nat>, j: nat, excess: nat)
    requires j < |drains| && drains[j] == frame + excess < WORD && gap < WORD
    ensures var lost := (|drains| - j) * (excess / 64 + 1);
            GapRun(gap, frame, drains) >= frame + (if excess > lost then excess - lost else 0)
    decreases |drains|
  {
    hide GapAfter, GapRun;
    var n := |drains| - 1;
    GapRunStep(gap, frame, drains);
    GapRunFits(gap, frame, drains[..n]);
    if j == n {
      GapSeen(GapRun(gap, frame, drains[..n]), frame, excess);
    } else {
      GapRemembered(gap, frame, drains[..n], j, excess);
      var lost := (n - j) * (excess / 64 + 1);
      OneMore(n - j, excess / 64 + 1);
      var left := if excess > lost then excess - lost else 0;
      GapShedsSlowly(GapRun(gap, frame, drains[..n]), frame, drains[n], excess, left);
    }
  }

  lemma OneMore(k: nat, shed: nat)
    ensures (k + 1) * shed == k * shed + shed
  {}

  /** Sixteen turns shed no more than a quarter and sixteen. */
  lemma QuarterLost(k: nat, excess: nat)
    requires k <= 16
    ensures k * (excess / 64 + 1) <= excess / 4 + 16
  {
    ProductMonotone(k, 16, excess / 64 + 1);
  }

  // ---- the closed loop -----------------------------------------------------------------------

  /** The queue's depth and the gap memory over a closed loop of measured drains. */
  datatype Loop = Loop(depth: nat, gap: nat)

  function Turn(l: Loop, frame: nat, period: nat, most: nat, drain: nat): Loop {
    var gap := GapAfter(l.gap, frame, drain);
    var left := Left(l.depth, drain);
    Loop(left + Block(drain, Target(gap, frame, period), left, most), gap)
  }

  function Turns(l: Loop, frame: nat, period: nat, most: nat, drains: seq<nat>): Loop {
    if |drains| == 0 then l
    else Turn(Turns(l, frame, period, most, drains[..|drains| - 1]), frame, period, most, drains[|drains| - 1])
  }

  /** The host's side of one turn: it reports the drain, asks for a block and queues it. */
  method HostTurn(c: Controller, depth: nat, drain: nat, now: nat, counterRate: nat, outputRate: nat, frameSize: nat,
                  most: nat)
    returns (after: nat)
    requires c.Valid() && drain < WORD && now < WORD && outputRate < WORD && frameSize < WORD && most >= 16
    modifies c
    ensures c.Valid() && c.devicePeriod == old(c.devicePeriod)
    ensures Loop(after, c.gapFrames) ==
            Turn(Loop(depth, old(c.gapFrames)), FrameSize(frameSize, outputRate), c.devicePeriod, most, drain)
  {
    hide GapAfter, Target, Block, FrameSize;
    c.NoteDrain(drain);
    var left := if drain <= depth then depth - drain else 0;
    var produce := c.Choose(true, now, counterRate, outputRate, frameSize, most, left);
    after := left + produce;
  }

  /** One turn with a drain of at most a block leaves more than a block queued, whatever was queued before. */
  lemma TurnKeepsAhead(l: Loop, frame: nat, period: nat, most: nat, drain: nat)
    requires 16 <= drain <= frame < WORD && frame + Max(3 * frame, period) <= most
    ensures var after := Turn(l, frame, period, most, drain);
            && frame < after.depth <= Max(l.depth, frame + Max(3 * frame, period))
            && (l.gap <= frame ==> after.gap == frame && after.depth <= Max(l.depth, frame + Max(frame, period)))
            && after.gap <= Max(frame, if l.gap > 0 then l.gap - 1 else 0)
  {
    hide GapAfter, Target, Block;
    GapDecays(l.gap, frame, drain);
    var gap := GapAfter(l.gap, frame, drain);
    TargetBounds(gap, frame, period);
    BlockReaches(drain, Target(gap, frame, period), Left(l.depth, drain), most);
    OccupancyBounded(l.depth, drain, Target(gap, frame, period), most);
  }

  /** A block that is not clipped reaches the target to within sixteen frames. */
  lemma BlockReaches(drain: nat, target: nat, queued: nat, most: nat)
    requires 16 <= drain && drain + target <= most
    ensures queued + Block(drain, target, queued, most) > drain + target - 16
  {}

  /** Over every run of drains between sixteen frames and one block, from any depth and any remembered gap:
      after the first turn the queue always holds more than the next drain can take, it never gets deeper
      than it was or than a block plus the largest target, and the gap memory comes down to one block; from
      then on the depth is bounded by one block plus the smallest target. */
  lemma {:induction false} ClosedLoop(l: Loop, frame: nat, period: nat, most: nat, drains: seq<nat>)
    requires frame < WORD && frame + Max(3 * frame, period) <= most
    requires forall i :: 0 <= i < |drains| ==> 16 <= drains[i] <= frame
    ensures var r := Turns(l, frame, period, most, drains);
            && (|drains| > 0 ==> r.depth > frame)
            && r.depth <= Max(l.depth, frame + Max(3 * frame, period))
            && (l.gap <= frame ==> r.depth <= Max(l.depth, frame + Max(frame, period)))
            && r.gap <= Max(frame, if l.gap > |drains| then l.gap - |drains| else 0)
  {
    hide Turn, Turns;
    if |drains| > 0 {
      var n := |drains| - 1;
      ClosedLoop(l, frame, period, most, drains[..n]);
      TurnKeepsAhead(Turns(l, frame, period, most, drains[..n]), frame, period, most, drains[n]);
      TurnsStep(l, frame, period, most, drains);
    } else {
      NoTurns(l, frame, period, most);
    }
  }

  lemma TurnsStep(l: Loop, frame: nat, period: nat, most: nat, drains: seq<nat>)
    requires |drains| > 0
    ensures Turns(l, frame, period, most, drains)
         == Turn(Turns(l, frame, period, most, drains[..|drains| - 1]), frame, period, most, drains[|drains| - 1])
  {}

  lemma NoTurns(l: Loop, frame: nat, period: nat, most: nat)
    ensures Turns(l, frame, period, most, []) == l
  {}

  /** Drains of any size from sixteen frames up never leave the queue deeper than it was, or than the worst
      drain plus the largest target. */
  lemma {:induction false} LoopBounded(l: Loop, frame: nat, period: nat, most: nat, drains: seq<nat>, worst: nat)
    requires 0 < frame < WORD && most >= 16 && forall i :: 0 <= i < |drains| ==> 16 <= drains[i] <= worst
    ensures Turns(l, frame, period, most, drains).depth <= Max(l.depth, worst + Max(3 * frame, period))
  {
    hide GapAfter, Target, Block;
    if |drains| > 0 {
      var n := |drains| - 1;
      LoopBounded(l, frame, period, most, drains[..n], worst);
      var before := Turns(l, frame, period, most, drains[..n]);
      var gap := GapAfter(before.gap, frame, drains[n]);
      TargetBounds(gap, frame, period);
      OccupancyBounded(before.depth, drains[n], Target(gap, frame, period), most);
    }
  }

  lemma {:induction false} TurnsGap(l: Loop, frame: nat, period: nat, most: nat, drains: seq<nat>)
    ensures Turns(l, frame, period, most, drains).gap == GapRun(l.gap, frame, drains)
  {
    hide GapAfter, Target, Block;
    if |drains| > 0 {
      TurnsGap(l, frame, period, most, drains[..|drains| - 1]);
    }
  }

  /** What the target is for. The host refills in a beat: drains of at least 48 frames, some as long as a block
      and an excess of up to two more, the longest coming back at least every sixteen turns. From any depth and
      any remembered gap, once the longest has been seen the queue always outlasts the next drain. */
  lemma BeatSurvived(l: Loop, frame: nat, period: nat, most: nat, drains: seq<nat>, j: nat, excess: nat, next: nat)
    requires l.gap < WORD && 0 < frame && 9 * frame < WORD && excess <= 2 * frame
    requires j < |drains| <= j + 16 && drains[j] == frame + excess
    requires 48 <= drains[|drains| - 1] <= frame + excess && next <= frame + excess
    requires frame + excess + Max(3 * frame, period) <= most
    ensures Turns(l, frame, period, most, drains).depth > next
  {
    hide GapAfter, GapRun, Target, Block;
    var n := |drains| - 1;
    var before := Turns(l, frame, period, most, drains[..n]);
    TurnsGap(l, frame, period, most, drains);
    GapRemembered(l.gap, frame, drains, j, excess);
    QuarterLost(|drains| - j, excess);
    var gap := GapRun(l.gap, frame, drains);
    assert gap == GapAfter(before.gap, frame, drains[n]);
    GapRunFits(l.gap, frame, drains);
    TargetBounds(gap, frame, period);
    TargetCovers(gap, frame, period, excess);
    BlockReaches(drains[n], Target(gap, frame, period), Left(before.depth, drains[n]), most);
  }

  /** Three quarters of an excess, less sixteen, is enough of it to cover it, up to 32 frames. */
  lemma TargetCovers(gap: nat, frame: nat, period: nat, excess: nat)
    requires frame <= gap < WORD && 9 * frame < WORD && excess <= 2 * frame
    requires gap >= frame + (if excess > excess / 4 + 16 then excess - excess / 4 - 16 else 0)
    ensures Target(gap, frame, period) + 32 > frame + excess
  {}
}
