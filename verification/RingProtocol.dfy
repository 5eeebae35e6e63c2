/** The same ring sample by sample (platform/audio_ring.c): a producer and a consumer that share only the
    slots and the two published indices. Index reads, single-sample copies and index publishes are the
    steps, so a run is any interleaving of the two sides. */
module RingProtocol {
  import AudioRing
  import opened Words

  const CHANNELS: nat := 2

  /** Blocks are interleaved samples; `base` is the index a copy started from. */
  datatype Producer =
    | Resting
    | SawHead(block: seq<int>, head: nat)
    | Copying(block: seq<int>, base: nat, copied: nat)

  /** `published` is the true count behind the head index that was read. */
  datatype Consumer =
    | Waiting
    | SawFill(frames: nat, head: nat, published: nat)
    | Reading(frames: nat, base: nat, available: nat, read: nat)

  /** `published` and `taken` are the true frame counts behind head and tail; `stream` holds the samples of
      every push so far, `out` those the consumer has read. `overrun` is set once a push meets too little
      room. */
  datatype State = State(capacity: nat, slots: seq<int>, head: nat, tail: nat, producer: Producer,
                         consumer: Consumer, stream: seq<int>, published: nat, taken: nat, out: seq<int>,
                         overrun: bool)

  datatype Action =
    | BeginPush(block: seq<int>) | CheckRoom | CopySample | PublishHead
    | BeginPull(frames: nat) | ReadTail | ReadSample | PublishTail

  function Slot(base: nat, i: nat, capacity: nat): (slot: nat)
    requires capacity > 0
    ensures slot < CHANNELS * capacity
  {
    CHANNELS * (WrapAdd(base, i / CHANNELS) % capacity) + i % CHANNELS
  }

  /** Where sample j of the stream lives. */
  function Place(j: nat, capacity: nat): (slot: nat)
    requires capacity > 0
    ensures slot < CHANNELS * capacity
  {
    CHANNELS * ((j / CHANNELS) % capacity) + j % CHANNELS
  }

  function Wanted(frames: nat, available: nat): nat {
    CHANNELS * (if available < frames then available else frames)
  }

  predicate Shaped(s: State) {
    s.capacity > 0 && |s.slots| == CHANNELS * s.capacity
  }

  predicate Can(s: State, a: Action) {
    match a
    case BeginPush(block) => s.producer.Resting? && |block| > 0 && |block| % CHANNELS == 0
    case CheckRoom => s.producer.SawHead?
    case CopySample => s.producer.Copying? && s.producer.copied < |s.producer.block|
    case PublishHead => s.producer.Copying? && s.producer.copied == |s.producer.block|
    case BeginPull(frames) => s.consumer.Waiting? && frames > 0
    case ReadTail => s.consumer.SawFill?
    case ReadSample => s.consumer.Reading? && s.consumer.read < Wanted(s.consumer.frames, s.consumer.available)
    case PublishTail => s.consumer.Reading? && s.consumer.read == Wanted(s.consumer.frames, s.consumer.available)
  }

  function Do(s: State, a: Action): State
    requires Shaped(s) && Can(s, a)
  {
    match a
    case BeginPush(block) =>
      s.(producer := SawHead(AudioRing.Keep(block, CHANNELS * s.capacity), s.head),
         overrun := s.overrun || |block| > CHANNELS * s.capacity)
    case CheckRoom =>
      var fill := WrapSub(s.producer.head, s.tail);
      var frames := |s.producer.block| / CHANNELS;
      s.(producer := Copying(s.producer.block, s.head, 0), stream := s.stream + s.producer.block,
         overrun := s.overrun || WrapAdd(fill, frames) > s.capacity)
    case CopySample =>
      var p := s.producer;
      s.(slots := s.slots[Slot(p.base, p.copied, s.capacity) := p.block[p.copied]],
         producer := p.(copied := p.copied + 1))
    case PublishHead =>
      var frames := |s.producer.block| / CHANNELS;
      s.(head := WrapAdd(s.producer.base, frames), published := s.published + frames, producer := Resting)
    case BeginPull(frames) => s.(consumer := SawFill(frames, s.head, s.published))
    case ReadTail =>
      var c := s.consumer;
      var fill := WrapSub(c.head, s.tail);
      if fill > s.capacity then
        var over := fill - s.capacity;
        s.(tail := WrapAdd(s.tail, over), taken := s.taken + over,
           consumer := Reading(c.frames, WrapAdd(s.tail, over), s.capacity, 0))
      else s.(consumer := Reading(c.frames, s.tail, fill, 0))
    case ReadSample =>
      var c := s.consumer;
      s.(out := s.out + [s.slots[Slot(c.base, c.read, s.capacity)]], consumer := c.(read := c.read + 1))
    case PublishTail =>
      var consumed := Wanted(s.consumer.frames, s.consumer.available) / CHANNELS;
      s.(tail := WrapAdd(s.consumer.base, consumed), taken := s.taken + consumed, consumer := Waiting)
  }

  // ---- what holds while every push has met enough room -----------------------------------

  /** How far into the stream the slots are written. */
  function Written(s: State): nat {
    CHANNELS * s.published + (if s.producer.Copying? then s.producer.copied else 0)
  }

  ghost predicate Counted(s: State) {
    && Shaped(s) && Masks(s.capacity) && s.capacity <= AudioRing.MAX_FRAMES
    && CountsTo(s.head, s.published) && CountsTo(s.tail, s.taken)
    && s.taken <= s.published <= s.taken + s.capacity
  }

  ghost predicate ProducerFits(s: State) {
    match s.producer
    case Resting => |s.stream| == CHANNELS * s.published
    case SawHead(block, head) =>
      && |s.stream| == CHANNELS * s.published && head == s.head
      && |block| % CHANNELS == 0 && |block| <= CHANNELS * s.capacity
    case Copying(block, base, copied) =>
      && base == s.head && |block| % CHANNELS == 0 && copied <= |block|
      && |s.stream| == CHANNELS * s.published + |block| && s.stream[CHANNELS * s.published..] == block
      && s.published + |block| / CHANNELS <= s.taken + s.capacity
  }

  ghost predicate ConsumerFits(s: State) {
    match s.consumer
    case Waiting => s.out == Prefix(s.stream, CHANNELS * s.taken)
    case SawFill(_, head, published) =>
      s.out == Prefix(s.stream, CHANNELS * s.taken) && CountsTo(head, published) && s.taken <= published <= s.published
    case Reading(frames, base, available, read) =>
      && base == s.tail && s.taken + available <= s.published && read <= Wanted(frames, available)
      && s.out == Prefix(s.stream, CHANNELS * s.taken + read)
  }

  function Prefix(xs: seq<int>, n: nat): seq<int> {
    if n <= |xs| then xs[..n] else xs
  }

  /** Every unread sample already written is in its place. */
  ghost predicate Held(slots: seq<int>, stream: seq<int>, capacity: nat, from: nat, to: nat)
    requires capacity > 0 && |slots| == CHANNELS * capacity
  {
    forall j {:trigger stream[j]} :: from <= j < to && j < |stream| ==> slots[Place(j, capacity)] == stream[j]
  }

  ghost predicate Faithful(s: State) {
    && Counted(s) && ProducerFits(s) && ConsumerFits(s)
    && Held(s.slots, s.stream, s.capacity, CHANNELS * s.taken, Written(s))
  }

  lemma PlacesDiffer(i: nat, j: nat, capacity: nat)
    requires capacity > 0 && i < j < i + CHANNELS * capacity
    ensures Place(i, capacity) != Place(j, capacity)
  {
    if i % CHANNELS == j % CHANNELS {
      WithinLap(i / CHANNELS, j / CHANNELS, capacity);
    }
  }

  lemma SlotIsPlace(base: nat, count: nat, i: nat, capacity: nat)
    requires Masks(capacity) && CountsTo(base, count)
    ensures Slot(base, i, capacity) == Place(CHANNELS * count + i, capacity)
  {
    SlotOf(base, count, i / CHANNELS, capacity);
    assert (CHANNELS * count + i) / CHANNELS == count + i / CHANNELS;
  }

  lemma CopyKeepsHeld(slots: seq<int>, stream: seq<int>, capacity: nat, from: nat, to: nat)
    requires capacity > 0 && |slots| == CHANNELS * capacity && from <= to < |stream| && to < from + CHANNELS * capacity
    requires Held(slots, stream, capacity, from, to)
    ensures Held(slots[Place(to, capacity) := stream[to]], stream, capacity, from, to + 1)
  {
    hide Place;
    forall j {:trigger stream[j]} | from <= j < to
      ensures Place(j, capacity) != Place(to, capacity)
    {
      PlacesDiffer(j, to, capacity);
    }
  }

  lemma ProducerStep(s: State, a: Action)
    requires Faithful(s) && Can(s, a) && (a.BeginPush? || a.CheckRoom? || a.PublishHead?)
    requires !Do(s, a).overrun
    ensures Faithful(Do(s, a))
  {
    hide CountsTo, Masks, WrapAdd, WrapSub, Place, Held, Prefix;
    var t := Do(s, a);
    match a {
      case BeginPush(block) =>
      case CheckRoom =>
        CountDifference(s.producer.head, s.published, s.tail, s.taken);
        SumFits(s.published - s.taken, |s.producer.block| / CHANNELS);
        LongerStream(s, s.producer.block);
      case PublishHead =>
        CountOn(s.head, s.published, |s.producer.block| / CHANNELS);
    }
  }

  lemma LongerStream(s: State, block: seq<int>)
    requires Counted(s) && ConsumerFits(s) && |s.stream| == CHANNELS * s.published
    requires Held(s.slots, s.stream, s.capacity, CHANNELS * s.taken, CHANNELS * s.published)
    ensures ConsumerFits(s.(stream := s.stream + block))
    ensures Held(s.slots, s.stream + block, s.capacity, CHANNELS * s.taken, CHANNELS * s.published)
  {
    hide CountsTo, Masks;
    var longer := s.stream + block;
    forall j {:trigger longer[j]} | CHANNELS * s.taken <= j < CHANNELS * s.published
      ensures s.slots[Place(j, s.capacity)] == longer[j]
    {
      assert longer[j] == s.stream[j];
    }
  }

  lemma CopyStep(s: State)
    requires Faithful(s) && Can(s, CopySample)
    ensures Faithful(Do(s, CopySample))
  {
    hide CountsTo, Masks, WrapAdd, Place, Held, Prefix, Slot;
    var p := s.producer;
    SlotIsPlace(p.base, s.published, p.copied, s.capacity);
    assert s.stream[Written(s)] == p.block[p.copied];
    CopyKeepsHeld(s.slots, s.stream, s.capacity, CHANNELS * s.taken, Written(s));
  }

  lemma ConsumerStep(s: State, a: Action)
    requires Faithful(s) && Can(s, a) && (a.BeginPull? || a.ReadTail?)
    ensures Faithful(Do(s, a))
  {
    hide CountsTo, Masks, WrapAdd, WrapSub, Place, Held, Prefix;
    if a.ReadTail? {
      CountDifference(s.consumer.head, s.consumer.published, s.tail, s.taken);
    }
  }

  lemma ReadStep(s: State)
    requires Faithful(s) && Can(s, ReadSample)
    ensures Faithful(Do(s, ReadSample))
  {
    hide CountsTo, Masks, WrapAdd, Place, Slot;
    var c := s.consumer;
    var j := CHANNELS * s.taken + c.read;
    SlotIsPlace(c.base, s.taken, c.read, s.capacity);
    assert s.slots[Place(j, s.capacity)] == s.stream[j];
  }

  lemma ReleaseStep(s: State)
    requires Faithful(s) && Can(s, PublishTail)
    ensures Faithful(Do(s, PublishTail))
  {
    hide CountsTo, Masks, WrapAdd, Place, Prefix;
    CountOn(s.tail, s.taken, Wanted(s.consumer.frames, s.consumer.available) / CHANNELS);
  }

  /** Every step keeps it, as long as every push meets enough room. */
  lemma StepFaithful(s: State, a: Action)
    requires Faithful(s) && Can(s, a) && !Do(s, a).overrun
    ensures Faithful(Do(s, a))
  {
    hide Faithful, Do;
    match a {
      case BeginPush(_) => ProducerStep(s, a);
      case CheckRoom => ProducerStep(s, a);
      case PublishHead => ProducerStep(s, a);
      case CopySample => CopyStep(s);
      case BeginPull(_) => ConsumerStep(s, a);
      case ReadTail => ConsumerStep(s, a);
      case ReadSample => ReadStep(s);
      case PublishTail => ReleaseStep(s);
    }
  }

  // ---- what a push and a pull get done -----------------------------------------------------

  /** A push sends its block, or the end of one longer than the ring; it overruns exactly when the unread
      frames and its own do not fit; and publishing makes everything sent readable. */
  lemma PushDelivers(s: State, block: seq<int>)
    requires Faithful(s)
    ensures Can(s, BeginPush(block)) ==>
              var t := Do(s, BeginPush(block));
              && (|block| <= 2 * s.capacity ==> t.producer == SawHead(block, s.head))
              && (|block| > 2 * s.capacity ==> t.producer == SawHead(block[|block| - 2 * s.capacity..], s.head))
              && (t.overrun <==> s.overrun || |block| > 2 * s.capacity)
    ensures Can(s, CheckRoom) ==>
              var t := Do(s, CheckRoom);
              && t.stream == s.stream + s.producer.block && t.producer == Copying(s.producer.block, s.head, 0)
              && (t.overrun <==> s.overrun || 2 * (s.published - s.taken) + |s.producer.block| > 2 * s.capacity)
    ensures Can(s, PublishHead) ==>
              var t := Do(s, PublishHead);
              2 * t.published == |t.stream| == |s.stream| && t.producer.Resting? && t.overrun == s.overrun
  {
    hide Masks, WrapAdd, Place, Held, Prefix, ConsumerFits;
    if Can(s, CheckRoom) {
      CountDifference(s.producer.head, s.published, s.tail, s.taken);
      SumFits(s.published - s.taken, |s.producer.block| / CHANNELS);
      hide CountsTo, WrapSub;
    }
  }

  /** A pull takes all the frames it asks for, or all that were published when it looked. */
  lemma PullDelivers(s: State, frames: nat)
    requires Faithful(s)
    ensures Can(s, BeginPull(frames)) ==> Do(s, BeginPull(frames)).consumer == SawFill(frames, s.head, s.published)
    ensures Can(s, ReadTail) ==>
              var c := s.consumer;
              Do(s, ReadTail) == s.(consumer := Reading(c.frames, s.tail, c.published - s.taken, 0))
    ensures Can(s, PublishTail) ==>
              var c, t := s.consumer, Do(s, PublishTail);
              && t.taken == s.taken + (if c.frames < c.available then c.frames else c.available)
              && |t.out| == 2 * t.taken && t.overrun == s.overrun && t.consumer.Waiting?
  {
    hide Masks, WrapAdd, Place, Held;
    if Can(s, ReadTail) {
      CountDifference(s.consumer.head, s.consumer.published, s.tail, s.taken);
      hide CountsTo, WrapSub;
    }
  }

  // ---- whole runs ----------------------------------------------------------------------

  function Fresh(capacity: nat): State {
    State(capacity, seq(CHANNELS * capacity, _ => 0), 0, 0, Resting, Waiting, [], 0, 0, [], false)
  }

  /** A run starts with nothing pushed, nothing read, and no overrun. */
  lemma FreshSpelled(capacity: nat)
    ensures var s := Fresh(capacity);
            && s.capacity == capacity && !s.overrun && s.stream == s.out == [] && s.head == s.tail == 0
            && s.published == s.taken == 0 && s.producer.Resting? && s.consumer.Waiting?
  {}

  ghost predicate Run(states: seq<State>, actions: seq<Action>) {
    && |states| == |actions| + 1
    && Masks(states[0].capacity) && states[0].capacity <= AudioRing.MAX_FRAMES && states[0] == Fresh(states[0].capacity)
    && forall i :: 0 <= i < |actions| ==>
         Shaped(states[i]) && Can(states[i], actions[i]) && states[i + 1] == Do(states[i], actions[i])
  }

  lemma FreshIsFaithful(capacity: nat)
    requires Masks(capacity) && capacity <= AudioRing.MAX_FRAMES
    ensures Faithful(Fresh(capacity))
  {}

  lemma OverrunStays(s: State, a: Action)
    requires Shaped(s) && Can(s, a) && s.overrun
    ensures Do(s, a).overrun
  {}

  lemma {:induction false} RunFaithful(states: seq<State>, actions: seq<Action>, n: nat)
    requires Run(states, actions) && n < |states| && !states[n].overrun
    ensures Faithful(states[n])
  {
    hide Do, Faithful, Fresh, Masks;
    if n == 0 {
      FreshIsFaithful(states[0].capacity);
    } else {
      if states[n - 1].overrun {
        OverrunStays(states[n - 1], actions[n - 1]);
      }
      RunFaithful(states, actions, n - 1);
      FaithfulIsShaped(states[n - 1]);
      StepFaithful(states[n - 1], actions[n - 1]);
    }
  }

  lemma FaithfulIsShaped(s: State)
    requires Faithful(s)
    ensures Shaped(s)
  {}

  /** In every interleaving in which each push met enough room: what has been read is exactly the start of
      what was pushed, none lost, repeated, torn or reordered, and none before it was published. */
  lemma ReadsArePushes(states: seq<State>, actions: seq<Action>, n: nat)
    requires Run(states, actions) && n < |states| && !states[n].overrun
    ensures |states[n].out| <= CHANNELS * states[n].published <= |states[n].stream|
    ensures states[n].out == states[n].stream[..|states[n].out|]
  {
    RunFaithful(states, actions, n);
  }

  /** Nothing is left behind: with both sides at rest and the ring empty, everything pushed has been read. */
  lemma DrainedIsEverything(states: seq<State>, actions: seq<Action>, n: nat)
    requires Run(states, actions) && n < |states| && !states[n].overrun
    requires states[n].producer.Resting? && states[n].consumer.Waiting? && states[n].head == states[n].tail
    ensures states[n].out == states[n].stream
  {
    RunFaithful(states, actions, n);
    CountDifference(states[n].head, states[n].published, states[n].tail, states[n].taken);
  }

  /** The consumer never jumps ahead, and never sees more than the ring holds. */
  lemma NoSkipWithoutOverrun(states: seq<State>, actions: seq<Action>, n: nat)
    requires Run(states, actions) && n < |states| && !states[n].overrun && states[n].consumer.SawFill?
    ensures WrapSub(states[n].consumer.head, states[n].tail) <= states[n].capacity
  {
    RunFaithful(states, actions, n);
    CountDifference(states[n].consumer.head, states[n].consumer.published, states[n].tail, states[n].taken);
  }
}
