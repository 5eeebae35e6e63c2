/** The PCM ring between the synthesiser and the audio device (platform/audio_ring.c), with whole pushes and
    whole pulls as steps. Overflow is allowed: the producer overwrites the oldest frames and the consumer
    skips to what is left. */
module AudioRing {
  import opened Wrappers
  import opened Words

  const MIN_FRAMES: nat := 1024
  const MAX_FRAMES: nat := 262144
  const FADE_FRAMES: nat := 128

  /** One stereo sample pair. */
  datatype Frame = Frame(left: int, right: int)

  const SILENCE: Frame := Frame(0, 0)

  // ---- capacity --------------------------------------------------------------------------

  function Pow2(e: nat): (p: nat)
    ensures p > 0
  {
    if e == 0 then 1 else 2 * Pow2(e - 1)
  }

  lemma {:induction false} Pow2Divides(e: nat, f: nat)
    requires e <= f
    ensures Pow2(f) % Pow2(e) == 0
  {
    if e == f {
      RemainderIs(Pow2(f), 1, 0, Pow2(e));
    } else {
      Pow2Divides(e, f - 1);
      var q := Pow2(f - 1) / Pow2(e);
      assert Pow2(f) == (2 * q) * Pow2(e);
      RemainderIs(Pow2(f), 2 * q, 0, Pow2(e));
    }
  }

  lemma WordIsPow2()
    ensures Pow2(32) == WORD
  {
    EightDoublings(0);
    EightDoublings(8);
    EightDoublings(16);
    EightDoublings(24);
  }

  lemma EightDoublings(e: nat)
    ensures Pow2(e + 8) == 256 * Pow2(e)
  {
    assert Pow2(e + 4) == 16 * Pow2(e) by { assert Pow2(e + 2) == 4 * Pow2(e); }
    assert Pow2(e + 8) == 16 * Pow2(e + 4) by { assert Pow2(e + 6) == 4 * Pow2(e + 4); }
  }

  /** The least power of two that is at least v. */
  method RoundUpPow2(v: nat) returns (p: nat, ghost e: nat)
    requires v <= MAX_FRAMES
    ensures p == Pow2(e) && p >= v && (p == 1 || p / 2 < v)
  {
    p, e := 1, 0;
    while p < v
      invariant p == Pow2(e) && (p == 1 || p / 2 < v)
      decreases 2 * v - p
    {
      p, e := 2 * p, e + 1;
    }
  }

  // ---- concealment -----------------------------------------------------------------------

  /** The consumer's ramp: `remaining` of its frames are still to come, starting from `from`. */
  datatype Conceal = Conceal(remaining: nat, from: Frame, last: Frame, starving: bool, primed: bool,
                             underruns: nat, concealments: nat, silence: nat)

  function Armed(c: Conceal): Conceal {
    c.(remaining := FADE_FRAMES, from := c.last, concealments := c.concealments + 1)
  }

  /** A frame arrives, or the ring is dry. */
  function Noticed(c: Conceal, raw: Option<Frame>): Conceal {
    if raw.Some? then
      (if c.starving then Armed(c.(starving := false)) else c).(primed := true)
    else
      var d := if c.starving then c
               else Armed(c.(starving := true, underruns := if c.primed then c.underruns + 1 else c.underruns));
      if d.primed then d.(silence := d.silence + 1) else d
  }

  function Ramp(from: int, to: int, remaining: nat): int
    requires 0 < remaining <= FADE_FRAMES
  {
    var step := FADE_FRAMES - remaining + 1;
    TruncDiv(from * (FADE_FRAMES - step) + to * step, FADE_FRAMES)
  }

  function Played(c: Conceal, to: Frame): Frame
    requires c.remaining <= FADE_FRAMES
  {
    if c.remaining == 0 then to
    else Frame(Ramp(c.from.left, to.left, c.remaining), Ramp(c.from.right, to.right, c.remaining))
  }

  function Heard(c: Conceal, out: Frame): Conceal {
    c.(remaining := if c.remaining == 0 then 0 else c.remaining - 1, last := out)
  }

  function Sound(raw: Option<Frame>): Frame {
    if raw.Some? then raw.value else SILENCE
  }

  /** What one output frame is, and the state after it. */
  function Emit(c: Conceal, raw: Option<Frame>): (r: (Frame, Conceal))
    requires c.remaining <= FADE_FRAMES
    ensures r.1.remaining <= FADE_FRAMES
  {
    var d := Noticed(c, raw);
    var out := Played(d, Sound(raw));
    (out, Heard(d, out))
  }

  /** A whole callback's output. */
  function EmitAll(c: Conceal, raws: seq<Option<Frame>>): (r: (seq<Frame>, Conceal))
    requires c.remaining <= FADE_FRAMES
    ensures |r.0| == |raws| && r.1.remaining <= FADE_FRAMES
  {
    if |raws| == 0 then ([], c) else
      var before := EmitAll(c, raws[..|raws| - 1]);
      var last := Emit(before.1, raws[|raws| - 1]);
      (before.0 + [last.0], last.1)
  }

  lemma EmitAllStep(c: Conceal, raws: seq<Option<Frame>>, raw: Option<Frame>)
    requires c.remaining <= FADE_FRAMES
    ensures var (done, after) := EmitAll(c, raws);
            EmitAll(c, raws + [raw]) == (done + [Emit(after, raw).0], Emit(after, raw).1)
  {
    assert (raws + [raw])[..|raws|] == raws;
  }

  predicate Between(a: int, x: int, b: int) {
    a <= x <= b || b <= x <= a
  }

  /** Every faded sample lies between where the ramp started and the incoming sample. */
  lemma RampBetween(from: int, to: int, remaining: nat)
    requires 0 < remaining <= FADE_FRAMES
    ensures Between(from, Ramp(from, to, remaining), to)
  {
    var step := FADE_FRAMES - remaining + 1;
    var sum := from * (FADE_FRAMES - step) + to * step;
    assert sum == from * FADE_FRAMES + (to - from) * step;
    if from <= to {
      ScaleWithin(to - from, step);
    } else {
      ScaleWithin(from - to, step);
      assert (to - from) * step == -((from - to) * step);
    }
  }

  /** After k of 128 steps a ramp is k 128ths of the way, rounded toward zero. */
  lemma RampExact(from: int, to: int, k: nat)
    requires 1 <= k <= 128
    ensures var out, sum := Ramp(from, to, 129 - k), from * (128 - k) + to * k;
            && (sum >= 0 ==> 128 * out <= sum < 128 * out + 128)
            && (sum <= 0 ==> 128 * out - 128 < sum <= 128 * out)
  {}

  /** No step of a ramp turns back, or moves more than a 128th of the way and one. */
  lemma RampStep(from: int, to: int, k: nat)
    requires 1 <= k < 128
    ensures var here, next := Ramp(from, to, 129 - k), Ramp(from, to, 128 - k);
            && (to >= from ==> 0 <= 128 * (next - here) <= to - from + 255)
            && (to <= from ==> 0 <= 128 * (here - next) <= from - to + 255)
  {
    RampExact(from, to, k);
    RampExact(from, to, k + 1);
    OneStep(from, to, k);
    hide Ramp;
  }

  lemma OneStep(from: int, to: int, k: nat)
    ensures from * (128 - (k + 1)) + to * (k + 1) == from * (128 - k) + to * k + (to - from)
  {}

  lemma ScaleWithin(d: int, step: nat)
    requires d >= 0 && step <= FADE_FRAMES
    ensures 0 <= d * step <= d * FADE_FRAMES
  {}

  /** The last step of a ramp is the incoming sample itself. */
  lemma RampEnds(from: int, to: int)
    ensures Ramp(from, to, 1) == to
  {}

  /** The first step of a ramp moves at most a 128th of the way, rounded up. */
  lemma RampStarts(from: int, to: int)
    ensures var out := Ramp(from, to, FADE_FRAMES);
            FADE_FRAMES * (out - from) <= (if to > from then to - from else 0) + FADE_FRAMES - 1
    ensures var out := Ramp(from, to, FADE_FRAMES);
            FADE_FRAMES * (from - out) <= (if from > to then from - to else 0) + FADE_FRAMES - 1
  {}

  /** One output frame, spelled out: a ramp of 128 frames starts from the frame heard last whenever the data
      stops or comes back; dry spells count as underruns, and dry frames as silence, once anything was heard. */
  lemma EmitSpelled(c: Conceal, raw: Option<Frame>)
    requires c.remaining <= 128
    ensures var (out, after) := Emit(c, raw);
            var edge := c.starving == raw.Some?;
            && after.last == out && after.starving == raw.None? && after.primed == (c.primed || raw.Some?)
            && after.from == (if edge then c.last else c.from)
            && after.remaining == (if edge then 127 else if c.remaining > 0 then c.remaining - 1 else 0)
            && after.concealments == c.concealments + (if edge then 1 else 0)
            && after.underruns == c.underruns + (if edge && raw.None? && c.primed then 1 else 0)
            && after.silence == c.silence + (if raw.None? && c.primed then 1 else 0)
            && (!edge && c.remaining == 0 ==> out == if raw.Some? then raw.value else Frame(0, 0))
  {
    hide Ramp;
  }

  /** An output frame lies between the ramp's origin and the incoming frame, in each channel. */
  lemma EmittedBetween(c: Conceal, raw: Option<Frame>)
    requires c.remaining <= FADE_FRAMES
    ensures var origin, to, out := Noticed(c, raw).from, Sound(raw), Emit(c, raw).0;
            Noticed(c, raw).remaining > 0 ==>
              Between(origin.left, out.left, to.left) && Between(origin.right, out.right, to.right)
    ensures Noticed(c, raw).remaining == 0 ==> Emit(c, raw).0 == Sound(raw)
  {
    hide Ramp;
    var d := Noticed(c, raw);
    if d.remaining > 0 {
      RampBetween(d.from.left, Sound(raw).left, d.remaining);
      RampBetween(d.from.right, Sound(raw).right, d.remaining);
    }
  }

  /** No step: going dry, or coming back, starts from the sample heard last. */
  lemma EdgesStartFromLast(c: Conceal, raw: Option<Frame>)
    requires c.remaining <= FADE_FRAMES && (c.starving <==> raw.Some?)
    ensures Noticed(c, raw).from == c.last && Noticed(c, raw).remaining == FADE_FRAMES
    ensures Emit(c, raw).1.concealments == c.concealments + 1
  {}

  /** With data throughout, the ramp is over after at most its length and the signal passes unchanged. */
  lemma {:induction false} RampRunsOut(c: Conceal, raws: seq<Option<Frame>>)
    requires c.remaining <= FADE_FRAMES && !c.starving
    requires forall i :: 0 <= i < |raws| ==> raws[i].Some?
    ensures !EmitAll(c, raws).1.starving
    ensures EmitAll(c, raws).1.remaining == if c.remaining <= |raws| then 0 else c.remaining - |raws|
    ensures forall i :: c.remaining <= i < |raws| ==> EmitAll(c, raws).0[i] == raws[i].value
  {
    if |raws| > 0 {
      RampRunsOut(c, raws[..|raws| - 1]);
    }
  }

  // ---- the ring --------------------------------------------------------------------------

  /** The last `capacity` frames of the stream are in their slots. */
  ghost predicate Holds(slots: seq<Frame>, stream: seq<Frame>, capacity: nat)
    requires |slots| == capacity > 0
  {
    forall k {:trigger stream[k]} :: 0 <= k < |stream| <= k + capacity ==> slots[k % capacity] == stream[k]
  }

  lemma HoldsAppend(slots: seq<Frame>, stream: seq<Frame>, capacity: nat, frame: Frame)
    requires |slots| == capacity > 0 && Holds(slots, stream, capacity)
    ensures Holds(slots[|stream| % capacity := frame], stream + [frame], capacity)
  {
    var n := |stream|;
    forall k {:trigger (stream + [frame])[k]} | 0 <= k < n + 1 <= k + capacity
      ensures slots[n % capacity := frame][k % capacity] == (stream + [frame])[k]
    {
      if k < n {
        assert slots[k % capacity] == stream[k];
        WithinLap(k, n, capacity);
      }
    }
  }

  lemma HeldAt(slots: seq<Frame>, stream: seq<Frame>, capacity: nat, k: nat)
    requires |slots| == capacity > 0 && Holds(slots, stream, capacity) && k < |stream| <= k + capacity
    ensures slots[k % capacity] == stream[k]
  {}

  /** The end of a block that fits in `capacity`. */
  function Keep<T>(block: seq<T>, capacity: nat): (kept: seq<T>)
    ensures |kept| <= capacity
  {
    if |block| > capacity then block[|block| - capacity..] else block
  }

  /** What a pull finds: the stream from `start`, then nothing. */
  function RawsOf(stream: seq<Frame>, start: nat, frames: nat): (raws: seq<Option<Frame>>)
    requires start <= |stream|
    ensures |raws| == frames
  {
    if frames == 0 then []
    else RawsOf(stream, start, frames - 1) +
         [if start + frames - 1 < |stream| then Some(stream[start + frames - 1]) else None]
  }

  function Surplus(unread: nat, capacity: nat): nat {
    if unread > capacity then unread - capacity else 0
  }

  /** The consumer's side of a ring. */
  datatype Reader = Reader(capacity: nat, stream: seq<Frame>, reached: nat, skipped: nat, overflowSkips: nat,
                           requested: nat, conceal: Conceal)
  {
    predicate Sane() {
      reached <= |stream| && conceal.remaining <= FADE_FRAMES
    }
  }

  /** A callback answered with `out`: it reads on from max(reached, |stream| - capacity), ramping over the
      jump and over every edge of silence, and never touches the stream. */
  ghost predicate Served(out: seq<Frame>, before: Reader, after: Reader)
    requires before.Sane()
  {
    var surplus := Surplus(|before.stream| - before.reached, before.capacity);
    var start := before.reached + surplus;
    var end := if start + |out| < |before.stream| then start + |out| else |before.stream|;
    var c := if surplus > 0 && before.conceal.primed then Armed(before.conceal) else before.conceal;
    && (out, after.conceal) == EmitAll(c, RawsOf(before.stream, start, |out|))
    && after == before.(reached := end, skipped := before.skipped + surplus, conceal := after.conceal,
                        overflowSkips := before.overflowSkips + (if surplus > 0 then 1 else 0),
                        requested := WrapAdd(before.requested, |out|))
  }

  /** A callback, spelled out: from max(reached, |stream| - capacity) it takes what it asks for or what there
      is; with no ramp running it hears those frames as they are. */
  lemma ServedSpelled(out: seq<Frame>, before: Reader, after: Reader)
    requires before.Sane() && Served(out, before, after)
    ensures var n, behind := |before.stream|, |before.stream| - before.reached - before.capacity;
            var start := if behind > 0 then n - before.capacity else before.reached;
            && after.reached == (if start + |out| < n then start + |out| else n)
            && after.skipped == before.skipped + (if behind > 0 then behind else 0)
            && after.overflowSkips == before.overflowSkips + (if behind > 0 then 1 else 0)
            && after.requested == (before.requested + |out|) % 0x1_0000_0000
            && after.stream == before.stream && after.capacity == before.capacity
            && (behind <= 0 && !before.conceal.starving && before.conceal.remaining == 0 && start + |out| <= n ==>
                  out == before.stream[start..start + |out|])
            && (behind > 0 && before.conceal.primed && !before.conceal.starving && start + |out| <= n ==>
                  after.conceal.from == before.conceal.last)
  {
    var surplus := Surplus(|before.stream| - before.reached, before.capacity);
    var start := before.reached + surplus;
    var c := if surplus > 0 && before.conceal.primed then Armed(before.conceal) else before.conceal;
    if start + |out| <= |before.stream| && !c.starving {
      HeardAsIs(c, before.stream, start, |out|);
    }
    hide EmitAll, RawsOf;
  }

  /** Data throughout: the ramp that runs keeps its origin, and without one the frames are heard as they are. */
  lemma {:induction false} HeardAsIs(c: Conceal, stream: seq<Frame>, start: nat, frames: nat)
    requires c.remaining <= FADE_FRAMES && !c.starving && start + frames <= |stream|
    ensures var (out, after) := EmitAll(c, RawsOf(stream, start, frames));
            && after.from == c.from && !after.starving
            && (c.remaining == 0 ==> after.remaining == 0 && out == stream[start..start + frames])
    decreases frames
  {
    if frames > 0 {
      HeardAsIs(c, stream, start, frames - 1);
      hide Ramp;
      EmitAllStep(c, RawsOf(stream, start, frames - 1), Some(stream[start + frames - 1]));
      assert stream[start..start + frames] == stream[start..start + frames - 1] + [stream[start + frames - 1]];
    }
  }

  function Unread(r: Reader): nat
    requires r.Sane()
  {
    |r.stream| - r.reached
  }

  /** Past what was overwritten, with the ramp armed over the jump once anything has been heard. */
  function Skipped(r: Reader): Reader
    requires r.Sane()
  {
    var surplus := Surplus(Unread(r), r.capacity);
    if surplus == 0 then r
    else r.(reached := r.reached + surplus, skipped := r.skipped + surplus, overflowSkips := r.overflowSkips + 1,
            conceal := if r.conceal.primed then Armed(r.conceal) else r.conceal)
  }

  /** `out` is what is heard on from where the reader is. */
  ghost predicate Heeds(out: seq<Frame>, before: Reader, after: Reader)
    requires before.Sane()
  {
    && (out, after.conceal) == EmitAll(before.conceal, RawsOf(before.stream, before.reached, |out|))
    && after == before.(reached := before.reached + if Unread(before) < |out| then Unread(before) else |out|,
                        conceal := after.conceal)
  }

  lemma ServedInParts(before: Reader, asked: Reader, from: Reader, after: Reader, out: seq<Frame>)
    requires before.Sane() && asked == before.(requested := WrapAdd(before.requested, |out|)) && from == Skipped(asked)
    requires from.Sane() && Heeds(out, from, after)
    ensures Served(out, before, after)
  {
    hide EmitAll, RawsOf, WrapAdd, Armed;
  }

  lemma {:induction false} EmitAllAppend(c: Conceal, xs: seq<Option<Frame>>, ys: seq<Option<Frame>>)
    requires c.remaining <= FADE_FRAMES
    ensures var (first, between) := EmitAll(c, xs);
            EmitAll(c, xs + ys) == (first + EmitAll(between, ys).0, EmitAll(between, ys).1)
  {
    hide *;
    var (first, between) := EmitAll(c, xs);
    if |ys| == 0 {
      assert xs + ys == xs && ys == [] && first + [] == first;
      EmitNothing(between);
    } else {
      var front, last := ys[..|ys| - 1], ys[|ys| - 1];
      EmitAllAppend(c, xs, front);
      EmitAllStep(c, xs + front, last);
      EmitAllStep(between, front, last);
      assert ys == front + [last] && xs + ys == (xs + front) + [last];
      var (rest, after) := EmitAll(between, front);
      assert first + (rest + [Emit(after, last).0]) == (first + rest) + [Emit(after, last).0];
    }
  }

  lemma EmitNothing(c: Conceal)
    requires c.remaining <= FADE_FRAMES
    ensures EmitAll(c, []) == ([], c)
  {}

  lemma {:induction false} RawsOfSplit(stream: seq<Frame>, start: nat, n: nat, m: nat)
    requires start <= |stream|
    ensures var end := if start + n < |stream| then start + n else |stream|;
            RawsOf(stream, start, n + m) == RawsOf(stream, start, n) + RawsOf(stream, end, m)
  {
    if m > 0 {
      RawsOfSplit(stream, start, n, m - 1);
    }
  }

  /** Two callbacks in a row hear what one callback of both lengths would have heard. */
  lemma CallbackSizeInvisible(a: Reader, b: Reader, c: Reader, whole: Reader, first: seq<Frame>, second: seq<Frame>,
                              both: seq<Frame>)
    requires a.Sane() && b.Sane() && |both| == |first| + |second|
    requires Served(first, a, b) && Served(second, b, c) && Served(both, a, whole)
    ensures both == first + second
    ensures whole.conceal == c.conceal && whole.reached == c.reached && whole.skipped == c.skipped
  {
    hide Emit, EmitAll, RawsOf, Armed;
    var surplus := Surplus(|a.stream| - a.reached, a.capacity);
    var start := a.reached + surplus;
    var from := if surplus > 0 && a.conceal.primed then Armed(a.conceal) else a.conceal;
    assert from.remaining <= FADE_FRAMES by { ArmedFits(a.conceal); }
    RawsOfSplit(a.stream, start, |first|, |second|);
    EmitAllAppend(from, RawsOf(a.stream, start, |first|), RawsOf(a.stream, b.reached, |second|));
  }

  lemma ArmedFits(c: Conceal)
    ensures Armed(c).remaining == FADE_FRAMES
  {}

  // ---- what a producer that outruns the consumer by laps reports ------------------------------

  /** What the producer counts as lost in a push of `frames` with `unread` frames unread: it sees the unread
      count only modulo 2^32. */
  function Excess(unread: nat, frames: nat, capacity: nat): nat {
    Surplus(WrapAdd(unread % WORD, frames), capacity)
  }

  /** While the count fits, that is exactly what the ring no longer holds. */
  lemma ExcessIsSurplus(unread: nat, frames: nat, capacity: nat)
    requires unread + frames < WORD
    ensures Excess(unread, frames, capacity) == Surplus(unread + frames, capacity)
  {}

  lemma KeptIs(block: seq<Frame>, capacity: nat, kept: seq<Frame>)
    requires kept == if |block| > capacity then block[|block| - capacity..] else block
    ensures kept == Keep(block, capacity) && |kept| <= |block|
    ensures |kept| == if |block| > capacity then capacity else |block|
  {}

  lemma WholeLoss(lost: nat, evicted: nat)
    requires evicted == lost % WORD
    ensures lost < WORD ==> evicted == lost
  {}

  /** In numbers: what is counted as lost is what no longer fits. */
  lemma LossSpelled(unread: nat, length: nat, kept: nat, capacity: nat, evicted: nat)
    requires kept == (if length > capacity then capacity else length)
    requires evicted == (length - kept + Excess(unread, kept, capacity)) % WORD
    ensures unread + length < 0x1_0000_0000 ==>
              evicted == if unread + length > capacity then unread + length - capacity else 0
  {
    if unread + length < WORD {
      ExcessIsSurplus(unread, kept, capacity);
    }
  }

  const LAP: nat := 2 * (WORD - 3 * MAX_FRAMES)

  /** The least the producer can have counted on its way to this unread count: at least two a frame away
      from the ends of each lap. */
  function LeastCounted(unread: nat): nat {
    var within := unread % WORD;
    unread / WORD * LAP +
    if within <= 2 * MAX_FRAMES then 0
    else if within <= WORD - MAX_FRAMES then 2 * (within - 2 * MAX_FRAMES)
    else LAP
  }

  lemma PushCounts(unread: nat, frames: nat, capacity: nat)
    requires frames <= capacity <= MAX_FRAMES
    ensures LeastCounted(unread + frames) <= LeastCounted(unread) + Excess(unread, frames, capacity)
    ensures unread + frames < WORD ==> Surplus(unread + frames, capacity) <= Excess(unread, frames, capacity)
  {
    var laps, within := unread / WORD, unread % WORD;
    if within + frames < WORD {
      QuotientIs(unread + frames, laps, within + frames, WORD);
      SumFits(within, frames);
    } else {
      QuotientIs(unread + frames, laps + 1, within + frames - WORD, WORD);
    }
  }

  /** A consumer that was lapped loses whole laps, and they are counted. */
  lemma LapsCounted(unread: nat, capacity: nat)
    requires capacity <= MAX_FRAMES
    ensures LeastCounted(unread) >= (unread - unread % WORD) + LeastCounted(unread % WORD)
    ensures unread >= WORD ==> LeastCounted(unread) >= (unread - unread % WORD) + Surplus(unread % WORD, capacity)
  {}

  /** A count of lost frames that covers those gone and what a pull now would find gone. */
  ghost predicate Covers(counted: nat, gone: nat, unread: nat, capacity: nat) {
    counted >= gone + LeastCounted(unread) && (unread < WORD ==> counted >= gone + Surplus(unread, capacity))
  }

  lemma CoversPush(counted: nat, gone: nat, unread: nat, frames: nat, clamp: nat, capacity: nat)
    requires frames <= capacity <= MAX_FRAMES
    ensures Covers(counted, gone, unread, capacity) ==>
              Covers(counted + clamp + Excess(unread, frames, capacity), gone + clamp, unread + frames, capacity)
  {
    PushCounts(unread, frames, capacity);
    hide LeastCounted, Excess;
  }

  lemma CoversLap(counted: nat, gone: nat, unread: nat, capacity: nat)
    requires capacity <= MAX_FRAMES && Covers(counted, gone, unread, capacity)
    ensures Covers(counted, gone + (unread - unread % WORD), unread % WORD, capacity)
  {
    LapsCounted(unread, capacity);
    hide LeastCounted;
  }

  lemma NothingCounted(unread: nat)
    ensures unread <= 2 * MAX_FRAMES ==> LeastCounted(unread) == 0
  {}

  lemma LapsInvisible(index: nat, count: nat, unread: nat)
    requires CountsTo(index, count)
    ensures CountsTo(index, count + (unread - unread % WORD))
  {
    RemainderIs(unread - unread % WORD, unread / WORD, 0, WORD);
    SameRemainder(count, count + (unread - unread % WORD), WORD);
  }

  /** What a pull now would find gone: whole laps, and what is over the capacity. */
  function Lost(unread: nat, capacity: nat): nat {
    (unread - unread % WORD) + Surplus(unread % WORD, capacity)
  }

  class Ring {
    const capacity: nat
    const slots: array<Frame>
    var head: nat
    var tail: nat
    var requested: nat
    var conceal: Conceal
    var pushedFrames: nat
    var pulledFrames: nat
    var evictedFrames: nat
    var overflows: nat
    var overflowSkips: nat

    /** Every frame ever written, how far into it the consumer has got, and what it missed on the
        way: what it skipped, and laps of 2^32 frames it never knew of. */
    ghost var stream: seq<Frame>
    ghost var reached: nat
    ghost var skipped: nat
    ghost var lapped: nat
    ghost var clamped: nat

    ghost predicate Valid()
      reads this, slots
    {
      && 0 < capacity <= MAX_FRAMES && slots.Length == capacity && Masks(capacity)
      && reached <= |stream| && CountsTo(head, |stream|) && CountsTo(tail, reached) && requested < WORD
      && conceal.remaining <= FADE_FRAMES
      && Holds(slots[..], stream, capacity)
      && pushedFrames == |stream| && reached == pulledFrames + skipped + lapped
    }

    /** The producer has counted as lost at least what was clamped away, skipped or lapped, and what a pull
        now would find gone. */
    ghost predicate Accounted()
      requires Valid()
      reads this, slots
    {
      Covers(evictedFrames, clamped + skipped + lapped, |stream| - reached, capacity)
    }

    /** So it never falls short, however far behind the consumer is. */
    lemma NeverUnderCounts()
      requires Valid() && Accounted()
      ensures evictedFrames >= clamped + skipped + lapped + Lost(|stream| - reached, capacity)
      ensures |stream| - reached < 0x1_0000_0000 ==>
                evictedFrames >= clamped + skipped + lapped &&
                evictedFrames >= clamped + skipped + lapped + (|stream| - reached) - capacity
    {
      LapsCounted(|stream| - reached, capacity);
    }

    ghost function View(): (r: Reader)
      requires Valid()
      reads this, slots
      ensures r.Sane()
    {
      Reader(capacity, stream, reached, skipped, overflowSkips, requested, conceal)
    }

    /** The same once the consumer has looked: a lapped consumer takes itself to be less far behind. */
    ghost function CaughtUp(): (r: Reader)
      requires Valid()
      reads this, slots
      ensures r.Sane() && (|stream| - reached < WORD ==> r == View())
    {
      View().(reached := |stream| - (|stream| - reached) % WORD)
    }

    /** A ring of at least minFrames, rounded up to a power of two; oversized requests are refused. */
    static method Init(minFrames: nat) returns (ring: Option<Ring>)
      ensures ring.Some? <==> minFrames <= 262144
      ensures ring.Some? ==> fresh(ring.value) && fresh(ring.value.slots) && ring.value.Valid()
      ensures ring.Some? ==> ring.value.stream == [] && ring.value.Accounted() && !ring.value.conceal.primed
      ensures ring.Some? ==> minFrames <= ring.value.capacity && 1024 <= ring.value.capacity
      ensures ring.Some? && minFrames > 1024 ==> ring.value.capacity < 2 * minFrames
      ensures ring.Some? && minFrames <= 1024 ==> ring.value.capacity == 1024
    {
      var least := if minFrames < MIN_FRAMES then MIN_FRAMES else minFrames;
      if least > MAX_FRAMES {
        return None;
      }
      var capacity, e := RoundUpPow2(least);
      CapacityFits(capacity, least, e);
      var r := new Ring(capacity);
      return Some(r);
    }

    constructor (capacity: nat)
      requires capacity <= MAX_FRAMES && Masks(capacity)
      ensures this.capacity == capacity && Valid() && fresh(slots)
      ensures stream == [] && reached == skipped == lapped == clamped == 0 && Accounted()
      ensures conceal == Conceal(0, SILENCE, SILENCE, false, false, 0, 0, 0)
    {
      this.capacity := capacity;
      slots := new Frame[capacity](_ => SILENCE);
      head, tail, requested := 0, 0, 0;
      conceal := Conceal(0, SILENCE, SILENCE, false, false, 0, 0, 0);
      pushedFrames, pulledFrames, evictedFrames, overflows, overflowSkips := 0, 0, 0, 0, 0;
      stream, reached, skipped, lapped, clamped := [], 0, 0, 0, 0;
    }

    method FillRaw() returns (fill: nat)
      requires Valid()
      ensures fill == (|stream| - reached) % WORD
    {
      CountDifferenceWraps(head, |stream|, tail, reached);
      fill := WrapSub(head, tail);
    }

    /** Queue a block, or its end if it is longer than the ring. The count of lost frames never falls short,
        unless this push alone loses 2^32 frames. */
    method Push(block: seq<Frame>) returns (evicted: nat)
      requires Valid() && |block| < WORD
      modifies this`head, this`pushedFrames, this`evictedFrames, this`overflows, this`stream, this`clamped, slots
      ensures Valid()
      ensures stream == old(stream) + Keep(block, capacity)
      ensures |block| <= capacity ==> stream == old(stream) + block
      ensures |block| > capacity ==> stream == old(stream) + block[|block| - capacity..]
      ensures var held := old(|stream| - reached) + |block|;
              |block| > 0 && held < 0x1_0000_0000 ==> evicted == if held > capacity then held - capacity else 0
      ensures clamped == old(clamped) + (|block| - |Keep(block, capacity)|)
      ensures evictedFrames == old(evictedFrames) + evicted
      ensures overflows == old(overflows) + (if evicted > 0 then 1 else 0)
      ensures var kept := Keep(block, capacity);
              var lost := |block| - |kept| + old(Excess(|stream| - reached, |kept|, capacity));
              && (|block| > 0 ==> evicted == lost % WORD) && (|block| == 0 ==> evicted == 0)
              && (old(Accounted()) && lost < WORD ==> Accounted())
    {
      if |block| == 0 {
        assert stream + Keep(block, capacity) == stream;
        return 0;
      }
      hide *;
      Bounds();
      var interleaved := block;
      if |interleaved| > capacity {
        interleaved := interleaved[|interleaved| - capacity..];
      }
      KeptIs(block, capacity, interleaved);
      evicted := LossOf(|block|, |interleaved|);
      LossSpelled(|stream| - reached, |block|, |interleaved|, capacity, evicted);
      WholeLoss(|block| - |interleaved| + Excess(|stream| - reached, |interleaved|, capacity), evicted);
      Append(interleaved, |block| - |interleaved|, evicted);
    }

    lemma Bounds()
      requires Valid()
      ensures 0 < capacity <= MAX_FRAMES && reached <= |stream|
    {}

    /** What a push of `length` frames, of which `frames` are kept, counts as lost: a 32-bit sum. */
    method LossOf(length: nat, frames: nat) returns (evicted: nat)
      requires Valid() && frames <= length < WORD
      ensures evicted == (length - frames + Excess(|stream| - reached, frames, capacity)) % WORD
    {
      hide Holds, CountsTo, Masks;
      evicted := length - frames;
      var fill := FillRaw();
      if WrapAdd(fill, frames) > capacity {
        evicted := WrapAdd(evicted, WrapAdd(fill, frames) - capacity);
      }
    }

    /** Queue the frames and count what that loses, and what was clamped away before. */
    method Append(interleaved: seq<Frame>, ghost clamp: nat, evicted: nat)
      requires Valid() && |interleaved| <= capacity
      modifies this`head, this`pushedFrames, this`evictedFrames, this`overflows, this`stream, this`clamped, slots
      ensures Valid() && stream == old(stream) + interleaved && clamped == old(clamped) + clamp
      ensures evictedFrames == old(evictedFrames) + evicted
      ensures overflows == old(overflows) + (if evicted > 0 then 1 else 0)
      ensures old(Accounted()) && evicted == clamp + old(Excess(|stream| - reached, |interleaved|, capacity)) ==>
                Accounted()
    {
      hide Holds, CountsTo, Masks, Excess, Covers;
      CoversPush(evictedFrames, clamped + skipped + lapped, |stream| - reached, |interleaved|, clamp, capacity);
      Copy(interleaved);
      clamped := clamped + clamp;
      pushedFrames := pushedFrames + |interleaved|;
      if evicted != 0 {
        evictedFrames := evictedFrames + evicted;
        overflows := overflows + 1;
      }
    }

    /** Copy the frames in, then publish the index that makes them visible. */
    method Copy(interleaved: seq<Frame>)
      requires slots.Length == capacity && Masks(capacity)
      requires CountsTo(head, |stream|) && Holds(slots[..], stream, capacity)
      modifies this`head, this`stream, slots
      ensures stream == old(stream) + interleaved
      ensures CountsTo(head, |stream|) && Holds(slots[..], stream, capacity)
    {
      hide Holds, CountsTo, WrapAdd;
      var frames := |interleaved|;
      ghost var count := |stream|;
      for i := 0 to frames
        invariant stream == old(stream) + interleaved[..i] && CountsTo(head, count)
        invariant Holds(slots[..], stream, capacity)
      {
        SlotOf(head, count, i, capacity);
        var slot := WrapAdd(head, i) % capacity;
        HoldsAppend(slots[..], stream, capacity, interleaved[i]);
        ghost var before := slots[..];
        slots[slot] := interleaved[i];
        assert slots[..] == before[slot := interleaved[i]];
        stream := stream + [interleaved[i]];
        assert interleaved[..i + 1] == interleaved[..i] + [interleaved[i]];
      }
      assert interleaved[..frames] == interleaved;
      CountOn(head, count, frames);
      head := WrapAdd(head, frames);
    }

    /** A device callback; an empty request changes nothing. */
    method Pull(interleaved: array<Frame>, frames: nat)
      requires Valid() && frames <= interleaved.Length && frames < WORD && interleaved != slots
      modifies this`tail, this`requested, this`conceal, this`pulledFrames, this`overflowSkips
      modifies this`reached, this`skipped, this`lapped, interleaved
      ensures Valid() && (old(Accounted()) ==> Accounted())
      ensures forall k :: frames <= k < interleaved.Length ==> interleaved[k] == old(interleaved[k])
      ensures frames == 0 ==> unchanged(this)
      ensures frames > 0 ==> Served(interleaved[..frames], old(CaughtUp()), View())
      ensures frames > 0 ==> lapped == old(lapped + (|stream| - reached) - (|stream| - reached) % WORD)
    {
      hide Served, EmitAll, RawsOf, Holds;
      if frames > 0 {
        Serve(interleaved, frames);
      }
    }

    /** Skip what was overwritten, read what is left, conceal every edge. */
    method Serve(interleaved: array<Frame>, frames: nat)
      requires Valid() && frames <= interleaved.Length && frames < WORD && interleaved != slots
      modifies this`tail, this`requested, this`conceal, this`pulledFrames, this`overflowSkips
      modifies this`reached, this`skipped, this`lapped, interleaved
      ensures Valid() && (old(Accounted()) ==> Accounted())
      ensures forall k :: frames <= k < interleaved.Length ==> interleaved[k] == old(interleaved[k])
      ensures Served(interleaved[..frames], old(CaughtUp()), View())
      ensures lapped == old(lapped + (|stream| - reached) - (|stream| - reached) % WORD)
    {
      hide *;
      ghost var before := CaughtUp();
      var available := FillRaw();
      CatchUp(available);
      Request(frames);
      ghost var asked := View();
      available := SkipOverwritten(available);
      ghost var from := View();
      Deliver(interleaved, frames, available);
      ServedInParts(before, asked, from, View(), interleaved[..frames]);
    }

    method Request(frames: nat)
      requires Valid() && frames < WORD
      modifies this`requested
      ensures Valid() && View() == old(View()).(requested := WrapAdd(old(View()).requested, frames))
      ensures Unread(View()) == Unread(old(View()))
      ensures old(Accounted()) ==> Accounted()
    {
      hide Holds, CountsTo, Masks, Covers;
      requested := WrapAdd(requested, frames);
    }

    /** Read what there is and give its space back. */
    method Deliver(interleaved: array<Frame>, frames: nat, available: nat)
      requires Valid() && available == Unread(View()) <= View().capacity
      requires frames <= interleaved.Length && interleaved != slots
      modifies this`tail, this`conceal, this`pulledFrames, this`reached, interleaved
      ensures Valid() && (old(Accounted()) ==> Accounted())
      ensures forall k :: frames <= k < interleaved.Length ==> interleaved[k] == old(interleaved[k])
      ensures Heeds(interleaved[..frames], old(View()), View())
    {
      hide Holds, EmitAll, RawsOf, CountsTo, Masks, WrapAdd, Covers;
      Read(interleaved, frames, tail, available);
      Release(if available < frames then available else frames);
    }

    /** A consumer that was lapped cannot tell: the ring holds what it would hold without the lap. */
    ghost method CatchUp(fill: nat)
      requires Valid() && fill == (|stream| - reached) % WORD
      modifies this`reached, this`lapped
      ensures Valid() && (old(Accounted()) ==> Accounted())
      ensures reached == |stream| - fill && reached - lapped == old(reached - lapped)
      ensures View() == old(CaughtUp()) && Unread(View()) == fill < WORD
    {
      hide Holds, Masks, CountsTo, Covers;
      var unread := |stream| - reached;
      if Accounted() {
        CoversLap(evictedFrames, clamped + skipped + lapped, unread, capacity);
      }
      LapsInvisible(tail, reached, unread);
      lapped := lapped + (unread - fill);
      reached := |stream| - fill;
    }

    /** The producer overran us: go straight to the oldest frame that still exists. */
    method SkipOverwritten(fill: nat) returns (available: nat)
      requires Valid() && fill == Unread(View()) < WORD
      modifies this`tail, this`conceal, this`overflowSkips, this`reached, this`skipped
      ensures Valid() && available == Unread(View()) <= View().capacity
      ensures old(Accounted()) ==> Accounted()
      ensures View() == Skipped(old(View()))
    {
      hide Holds, CountsTo, Masks, WrapAdd, LeastCounted;
      NothingCounted(fill);
      available := fill;
      if available > capacity {
        var over := available - capacity;
        CountOn(tail, reached, over);
        tail := WrapAdd(tail, over);
        available := capacity;
        NothingCounted(capacity);
        reached, skipped := reached + over, skipped + over;
        overflowSkips := overflowSkips + 1;
        if conceal.primed {
          conceal := Armed(conceal);
        }
      }
    }

    /** Give back the space of the frames that were read. */
    method Release(consumed: nat)
      requires Valid() && reached + consumed <= |stream| <= reached + capacity
      modifies this`tail, this`pulledFrames, this`reached
      ensures Valid() && reached == old(reached) + consumed && (old(Accounted()) ==> Accounted())
    {
      hide Holds, CountsTo, Masks, WrapAdd;
      CountOn(tail, reached, consumed);
      pulledFrames := pulledFrames + consumed;
      reached := reached + consumed;
      tail := WrapAdd(tail, consumed);
    }

    /** Turn one frame, or the lack of one, into what the device hears. */
    method Output(have: bool, arrived: Frame) returns (frame: Frame)
      requires conceal.remaining <= FADE_FRAMES && (!have ==> arrived == SILENCE)
      modifies this`conceal
      ensures (frame, conceal) == Emit(old(conceal), if have then Some(arrived) else None)
    {
      hide Ramp;
      frame := arrived;
      if have {
        if conceal.starving {
          conceal := Armed(conceal.(starving := false));
        }
        conceal := conceal.(primed := true);
      } else {
        if !conceal.starving {
          conceal := conceal.(starving := true);
          if conceal.primed {
            conceal := conceal.(underruns := conceal.underruns + 1);
          }
          conceal := Armed(conceal);
        }
        if conceal.primed {
          conceal := conceal.(silence := conceal.silence + 1);
        }
      }
      if conceal.remaining > 0 {
        frame := Frame(Ramp(conceal.from.left, frame.left, conceal.remaining),
                       Ramp(conceal.from.right, frame.right, conceal.remaining));
        conceal := conceal.(remaining := conceal.remaining - 1);
      }
      conceal := conceal.(last := frame);
    }

    /** Read the frames that are there and ramp across every edge. */
    method Read(interleaved: array<Frame>, frames: nat, base: nat, available: nat)
      requires slots.Length == capacity && Masks(capacity) && Holds(slots[..], stream, capacity)
      requires reached <= |stream| && CountsTo(base, reached) && available == |stream| - reached <= capacity
      requires frames <= interleaved.Length && interleaved != slots && conceal.remaining <= FADE_FRAMES
      modifies this`conceal, interleaved
      ensures conceal.remaining <= FADE_FRAMES
      ensures (interleaved[..frames], conceal) == EmitAll(old(conceal), RawsOf(stream, reached, frames))
      ensures forall k :: frames <= k < interleaved.Length ==> interleaved[k] == old(interleaved[k])
    {
      hide Holds, Emit, CountsTo, WrapAdd;
      for i := 0 to frames
        invariant conceal.remaining <= FADE_FRAMES
        invariant (interleaved[..i], conceal) == EmitAll(old(conceal), RawsOf(stream, reached, i))
        invariant forall k :: frames <= k < interleaved.Length ==> interleaved[k] == old(interleaved[k])
      {
        ghost var done := interleaved[..i];
        ghost var raw := if reached + i < |stream| then Some(stream[reached + i]) else None;
        var frame := SILENCE;
        if i < available {
          SlotOf(base, reached, i, capacity);
          var slot := WrapAdd(base, i) % capacity;
          HeldAt(slots[..], stream, capacity, reached + i);
          frame := slots[slot];
        }
        frame := Output(i < available, frame);
        interleaved[i] := frame;
        EmitAllStep(old(conceal), RawsOf(stream, reached, i), raw);
        assert RawsOf(stream, reached, i + 1) == RawsOf(stream, reached, i) + [raw];
        assert interleaved[..i + 1] == done + [frame];
      }
    }
  }

  lemma CapacityFits(capacity: nat, least: nat, e: nat)
    requires capacity == Pow2(e) && MIN_FRAMES <= least <= MAX_FRAMES && capacity >= least
    requires capacity == 1 || capacity / 2 < least
    ensures capacity <= MAX_FRAMES && Masks(capacity) && (least > MIN_FRAMES ==> capacity < 2 * least)
    ensures least == 1024 ==> capacity == 1024
  {
    WordIsPow2();
    assert Pow2(10) == 1024 by { EightDoublings(2); }
    assert Pow2(11) == 2 * Pow2(10);
    if e >= 11 {
      Pow2Grows(11, e);
    } else {
      Pow2Grows(e, 10);
    }
    EightDoublings(0);
    EightDoublings(8);
    assert Pow2(18) == MAX_FRAMES;
    if e >= 19 {
      Pow2Grows(19, e);
    } else {
      Pow2Grows(e, 18);
      Pow2Divides(e, 32);
    }
  }

  lemma {:induction false} Pow2Grows(e: nat, f: nat)
    requires e <= f
    ensures Pow2(e) <= Pow2(f)
  {
    if e < f {
      Pow2Grows(e, f - 1);
    }
  }
}
