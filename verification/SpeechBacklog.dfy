/** What the UI thread and the speech worker share under one mutex (platform/a11y_speech_worker.c): the
    handoff ring, the generation stamp, the flags and the counters. */
module SpeechBacklog {
  import opened Words

  const BACKLOG_MAX: nat := 8

  /** The shared state, with the ring as the sequence of lines waiting in it. */
  datatype Shared<T> = Shared(queue: seq<T>, generation: nat, speaking: bool, quit: bool, spoken: nat, dropped: nat)

  ghost predicate InRange<T>(s: Shared<T>) {
    |s.queue| <= BACKLOG_MAX && s.generation < WORD && s.spoken < WORD && s.dropped < WORD
  }

  function Bumped(n: nat): (m: nat)
    ensures m < WORD
  {
    (n + 1) % WORD
  }

  /** A full ring gives up its oldest line. */
  function Pushed<T>(s: Shared<T>, line: T): Shared<T> {
    if |s.queue| == BACKLOG_MAX then
      s.(queue := s.queue[1..] + [line], dropped := Bumped(s.dropped))
    else
      s.(queue := s.queue + [line])
  }

  function Discarded<T>(s: Shared<T>): Shared<T> {
    s.(queue := [], generation := Bumped(s.generation))
  }

  function Taken<T>(s: Shared<T>): Shared<T>
    requires |s.queue| > 0
  {
    s.(queue := s.queue[1..], speaking := true)
  }

  function Cancelled<T>(s: Shared<T>): Shared<T> {
    s.(speaking := false, dropped := Bumped(s.dropped))
  }

  function Finished<T>(s: Shared<T>): Shared<T> {
    s.(speaking := false, spoken := Bumped(s.spoken))
  }

  /** The newest eight of these. */
  function Newest<T>(lines: seq<T>): seq<T> {
    if |lines| > 8 then lines[|lines| - 8..] else lines
  }

  /** The waiting lines, oldest first. */
  function Lines(slots: seq<string>, head: nat, count: nat): (lines: seq<string>)
    requires |slots| == BACKLOG_MAX && head < BACKLOG_MAX
    ensures |lines| == count
    decreases count
  {
    if count == 0 then [] else [slots[head]] + Lines(slots, (head + 1) % BACKLOG_MAX, count - 1)
  }

  lemma {:induction false} LineAt(slots: seq<string>, head: nat, count: nat, i: nat)
    requires |slots| == BACKLOG_MAX && head < BACKLOG_MAX && i < count
    ensures Lines(slots, head, count)[i] == slots[(head + i) % BACKLOG_MAX]
    decreases count
  {
    if i > 0 {
      LineAt(slots, (head + 1) % BACKLOG_MAX, count - 1, i - 1);
      assert ((head + 1) % BACKLOG_MAX + (i - 1)) % BACKLOG_MAX == (head + i) % BACKLOG_MAX;
    }
  }

  lemma LinesTail(slots: seq<string>, head: nat, count: nat)
    requires |slots| == BACKLOG_MAX && head < BACKLOG_MAX && count > 0
    ensures Lines(slots, (head + 1) % BACKLOG_MAX, count - 1) == Lines(slots, head, count)[1..]
  {}

  /** The slot after the last waiting line is free while the ring is not full. */
  lemma LinesAppend(slots: seq<string>, head: nat, count: nat, line: string)
    requires |slots| == BACKLOG_MAX && head < BACKLOG_MAX && count < BACKLOG_MAX
    ensures Lines(slots[(head + count) % BACKLOG_MAX := line], head, count + 1) == Lines(slots, head, count) + [line]
  {
    hide Lines;
    var slot := (head + count) % BACKLOG_MAX;
    var written := slots[slot := line];
    var before, after := Lines(slots, head, count), Lines(written, head, count + 1);
    LineAt(written, head, count + 1, count);
    forall i | 0 <= i < count ensures after[i] == before[i] {
      LineAt(written, head, count + 1, i);
      LineAt(slots, head, count, i);
      SlotsDiffer(head, i, count);
    }
    assert after == before + [line];
  }

  lemma SlotsDiffer(head: nat, i: nat, j: nat)
    requires head < BACKLOG_MAX && i < j < BACKLOG_MAX
    ensures (head + i) % BACKLOG_MAX != (head + j) % BACKLOG_MAX
  {}

  /** The ring and its companions, one method for each time the mutex is held. */
  class Backlog {
    const text: array<string>
    var head: nat
    var count: nat
    var generation: nat
    var speaking: bool
    var quit: bool
    var spoken: nat
    var dropped: nat

    ghost predicate Valid()
      reads this
    {
      && text.Length == BACKLOG_MAX && head < BACKLOG_MAX && count <= BACKLOG_MAX
      && generation < WORD && spoken < WORD && dropped < WORD
    }

    ghost function View(): (v: Shared<string>)
      requires Valid()
      reads this, text
      ensures InRange(v) && |v.queue| == count
    {
      Shared(Lines(text[..], head, count), generation, speaking, quit, spoken, dropped)
    }

    constructor ()
      ensures Valid() && fresh(text)
      ensures View() == Shared([], 0, false, false, 0, 0)
    {
      text := new string[BACKLOG_MAX];
      head, count, generation, speaking, quit, spoken, dropped := 0, 0, 0, false, false, 0, 0;
    }

    method Push(line: string)
      requires Valid()
      modifies this`head, this`count, this`dropped, text
      ensures Valid() && View() == Pushed(old(View()), line)
      ensures var was := old(View());
              if |was.queue| < 8 then View() == was.(queue := was.queue + [line])
              else View() == was.(queue := was.queue[1..8] + [line], dropped := (was.dropped + 1) % 0x1_0000_0000)
      ensures View().queue == Newest(old(View()).queue + [line])
    {
      hide Lines;
      ghost var slots := text[..];
      if count == BACKLOG_MAX {
        LinesTail(slots, head, count);
        head := (head + 1) % BACKLOG_MAX;
        count := count - 1;
        dropped := (dropped + 1) % WORD;
      }
      var index := (head + count) % BACKLOG_MAX;
      LinesAppend(slots, head, count, line);
      text[index] := line;
      assert text[..] == slots[index := line];
      count := count + 1;
    }

    method Discard()
      requires Valid()
      modifies this`head, this`count, this`generation
      ensures Valid() && View() == Discarded(old(View()))
      ensures View() == old(View()).(queue := [], generation := (old(generation) + 1) % 0x1_0000_0000)
    {
      head := 0;
      count := 0;
      generation := (generation + 1) % WORD;
    }

    /** Nothing is queued and nothing is in the worker's hand. */
    method Idle() returns (idle: bool)
      requires Valid()
      ensures idle <==> View().queue == [] && !speaking
    {
      idle := count == 0 && !speaking;
    }

    /** The worker takes the oldest line and the stamp of the moment it took it. */
    method Take() returns (line: string, stamp: nat)
      requires Valid() && count > 0 && !quit
      modifies this`head, this`count, this`speaking
      ensures Valid() && View() == Taken(old(View()))
      ensures View() == old(View()).(queue := old(View()).queue[1..], speaking := true)
      ensures line == old(View()).queue[0] && stamp == generation
    {
      line := text[head];
      head := (head + 1) % BACKLOG_MAX;
      count := count - 1;
      speaking := true;
      stamp := generation;
    }

    /** The re-check before speaking: has anything been thrown away since the line was taken? */
    method Recheck(stamp: nat) returns (cancelled: bool)
      requires Valid()
      modifies this`speaking, this`dropped
      ensures Valid() && (cancelled <==> old(generation) != stamp)
      ensures View() == if cancelled then Cancelled(old(View())) else old(View())
      ensures cancelled ==> View() == old(View()).(speaking := false, dropped := (old(dropped) + 1) % 0x1_0000_0000)
    {
      cancelled := generation != stamp;
      if cancelled {
        speaking := false;
        dropped := (dropped + 1) % WORD;
      }
    }

    method Finish()
      requires Valid()
      modifies this`speaking, this`spoken
      ensures Valid() && View() == Finished(old(View()))
      ensures View() == old(View()).(speaking := false, spoken := (old(spoken) + 1) % 0x1_0000_0000)
    {
      speaking := false;
      spoken := (spoken + 1) % WORD;
    }

    /** The critical section of reaping the worker. */
    method RequestQuit()
      requires Valid()
      modifies this`head, this`count, this`generation, this`quit
      ensures Valid() && View() == Discarded(old(View())).(quit := true)
      ensures View() == old(View()).(queue := [], generation := (old(generation) + 1) % 0x1_0000_0000, quit := true)
    {
      quit := true;
      Discard();
    }

    /** What starting the service resets; the generation is never reset. */
    method Restart()
      requires Valid()
      modifies this`head, this`count, this`generation, this`speaking, this`quit
      ensures Valid() && View() == Discarded(old(View())).(speaking := false, quit := false)
      ensures View().queue == [] && View().generation == (old(generation) + 1) % 0x1_0000_0000
      ensures !speaking && !quit && spoken == old(spoken) && dropped == old(dropped)
    {
      Discard();
      speaking := false;
      quit := false;
    }
  }
}
