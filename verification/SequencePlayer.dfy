/** The routines of platform/audio_seqplayer.c and platform/audio_cspplayer.c that edit a player's
    event queue in place, and the player's clock. */
module SequencePlayer {
  import opened Agenda
  import opened AudioEventQueue
  import opened Retiming
  import PlayerRun
  import TempoChange

  const AL_NOTE_END_EVT := 5
  const AL_SEQP_ENV_EVT := 6
  const AL_TREM_OSC_EVT := 22
  const AL_VIB_OSC_EVT := 23

  /** The events of a kind that name a voice: only envelope and note-end events do. */
  function VoiceEvents(voice: int, kind: int): Pattern {
    if kind == AL_SEQP_ENV_EVT || kind == AL_NOTE_END_EVT then KindOf(kind, voice) else Nothing
  }

  function OscillatorEvents(voiceState: int): Pattern {
    Either(KindOf(AL_TREM_OSC_EVT, voiceState), KindOf(AL_VIB_OSC_EVT, voiceState))
  }

  lemma VoiceMatches(e: Event, voice: int, kind: int)
    ensures Matches(Other(VoiceEvents(voice, kind)), e) <==>
            !(e.kind == kind && (kind == 6 || kind == 5) && e.subject == voice)
  {
    assert Matches(Other(VoiceEvents(voice, kind)), e) == !Matches(VoiceEvents(voice, kind), e);
  }

  lemma OscillatorMatches(e: Event, voiceState: int)
    ensures Matches(OscillatorEvents(voiceState), e) <==> (e.kind == 22 || e.kind == 23) && e.subject == voiceState
    ensures Matches(Other(OscillatorEvents(voiceState)), e) <==>
            !((e.kind == 22 || e.kind == 23) && e.subject == voiceState)
  {
    var p := OscillatorEvents(voiceState);
    assert Matches(Other(p), e) == !Matches(p, e);
    assert Matches(p, e) == (Matches(p.first, e) || Matches(p.second, e));
  }

  /** The removal for a voice, spelled out: of kind 6, envelopes, or 5, note ends, it takes the events that
      name the voice; of any other kind it takes none. All others stay at their times, in their order. */
  lemma VoiceEventsGone(t: seq<Timed>, voice: int, kind: int)
    ensures var left := Filter(t, Other(VoiceEvents(voice, kind)));
            exists kept :: KeptAt(t, left, kept) && forall i: nat :: i < |t| ==>
              (i !in kept <==> t[i].evt.kind == kind && (kind == 6 || kind == 5) && t[i].evt.subject == voice)
  {
    hide *;
    var kept := FilterKeeps(t, Other(VoiceEvents(voice, kind)));
    forall i: nat | i < |t|
      ensures i !in kept <==> t[i].evt.kind == kind && (kind == 6 || kind == 5) && t[i].evt.subject == voice
    {
      VoiceMatches(t[i].evt, voice, kind);
    }
  }

  /** Stopping oscillators, spelled out: of kinds 22 and 23 it takes the events of the voice state. */
  lemma OscillatorsGone(t: seq<Timed>, voiceState: int)
    ensures var left := Filter(t, Other(OscillatorEvents(voiceState)));
            exists kept :: KeptAt(t, left, kept) && forall i: nat :: i < |t| ==>
              (i !in kept <==> (t[i].evt.kind == 22 || t[i].evt.kind == 23) && t[i].evt.subject == voiceState)
  {
    hide *;
    var kept := FilterKeeps(t, Other(OscillatorEvents(voiceState)));
    forall i: nat | i < |t|
      ensures i !in kept <==> (t[i].evt.kind == 22 || t[i].evt.kind == 23) && t[i].evt.subject == voiceState
    {
      OscillatorMatches(t[i].evt, voiceState);
    }
  }

  /** The oscillator states handed to the stop callback, spelled out: those of the events taken, in order. */
  lemma StopCallsAre(t: seq<Timed>, voiceState: int)
    ensures var calls := StopCalls(t, voiceState, true);
            exists gone :: Picks(gone, |t|) && |calls| == |gone|
              && (forall k :: 0 <= k < |calls| ==> calls[k] == t[gone[k]].evt.payload)
              && (forall i: nat :: i < |t| ==>
                    (i in gone <==> (t[i].evt.kind == 22 || t[i].evt.kind == 23) && t[i].evt.subject == voiceState))
  {
    var gone := FilterKeeps(t, OscillatorEvents(voiceState));
    CallsOfTaken(t, voiceState);
    var calls, taken := StopCalls(t, voiceState, true), Filter(t, OscillatorEvents(voiceState));
    assert forall k :: 0 <= k < |taken| ==> taken[k] == t[gone[k]];
    assert Picks(gone, |t|);
    hide *;
    forall i: nat | i < |t|
      ensures i in gone <==> (t[i].evt.kind == 22 || t[i].evt.kind == 23) && t[i].evt.subject == voiceState
    {
      OscillatorMatches(t[i].evt, voiceState);
    }
  }

  lemma NoCalls(t: seq<Timed>, voiceState: int)
    ensures StopCalls(t, voiceState, false) == []
  {}

  lemma {:induction false} CallsOfTaken(t: seq<Timed>, voiceState: int)
    ensures var calls, taken := StopCalls(t, voiceState, true), Filter(t, OscillatorEvents(voiceState));
            |calls| == |taken| && forall k :: 0 <= k < |calls| ==> calls[k] == taken[k].evt.payload
  {
    if t != [] {
      CallsOfTaken(t[1..], voiceState);
    }
  }

  /** `native_seqp_remove_event_for_voice`: the named voice's envelopes or note ends are gone, and all other
      events keep their time and order. */
  method RemoveEventForVoice(q: EventQueue, voice: int, kind: int)
    requires q.Valid()
    modifies q, q.pool, q.track
    ensures q.Valid() && q.Due() == Filter(old(q.Due()), Other(VoiceEvents(voice, kind)))
    ensures var was := old(q.Due());
            exists kept :: KeptAt(was, q.Due(), kept) && forall i: nat :: i < |was| ==>
              (i !in kept <==> was[i].evt.kind == kind && (kind == 6 || kind == 5) && was[i].evt.subject == voice)
  {
    VoiceEventsGone(q.Due(), voice, kind);
    ghost var keep, was := Other(VoiceEvents(voice, kind)), q.Due();
    ghost var j, k := 0, 0;
    var node := q.allocList.next;
    assert q.Cursor(node, 0) && Sifted(was, 0, q.Due(), 0, keep);
    hide Chained, Distinct, Sifted, Filter, Timeline, Span, Without, With;
    while node != null
      invariant q.Valid() && q.Cursor(node, k) && Sifted(was, j, q.Due(), k, keep)
      decreases |was| - j
    {
      var namesVoice := (node.evt.kind == AL_SEQP_ENV_EVT || node.evt.kind == AL_NOTE_END_EVT) &&
                        node.evt.subject == voice;
      var drop := node.evt.kind == kind && namesVoice;
      node := q.Sift(node, drop, k, was, j, keep);
      j, k := j + 1, if drop then k else k + 1;
    }
    SiftDone(was, j, q.Due(), k, keep);
  }

  /** The oscillator states, named by the payloads, that the stop callback is called with. */
  function StopCalls(t: seq<Timed>, voiceState: int, haveCallback: bool): (r: seq<int>)
    ensures |r| <= |t|
  {
    if t == [] || !haveCallback then []
    else (if Matches(OscillatorEvents(voiceState), t[0].evt) then [t[0].evt.payload] else [])
         + StopCalls(t[1..], voiceState, haveCallback)
  }

  lemma {:induction false} StopCallsStep(t: seq<Timed>, voiceState: int, haveCallback: bool, j: nat)
    requires j < |t|
    ensures StopCalls(t[..j + 1], voiceState, haveCallback) == StopCalls(t[..j], voiceState, haveCallback) +
      if haveCallback && Matches(OscillatorEvents(voiceState), t[j].evt) then [t[j].evt.payload] else []
  {
    if j > 0 && haveCallback {
      StopCallsStep(t[1..], voiceState, haveCallback, j - 1);
      assert t[..j][1..] == t[1..][..j - 1] && t[..j + 1][1..] == t[1..][..j];
    }
  }

  predicate IsOscillatorOf(voiceState: int, e: Event) {
    (e.kind == AL_TREM_OSC_EVT || e.kind == AL_VIB_OSC_EVT) && e.subject == voiceState
  }

  /** One step of the stop loop, on values. */
  lemma StopStep(was: seq<Timed>, j: nat, now: seq<Timed>, k: nat, voiceState: int, haveCallback: bool, e: Event)
    requires Sifted(was, j, now, k, Other(OscillatorEvents(voiceState))) && k < |now| && now[k].evt == e
    ensures j < |was| && Matches(Other(OscillatorEvents(voiceState)), e) == !IsOscillatorOf(voiceState, e)
    ensures StopCalls(was[..j + 1], voiceState, haveCallback) ==
            StopCalls(was[..j], voiceState, haveCallback) +
              (if IsOscillatorOf(voiceState, e) && haveCallback then [e.payload] else [])
  {
    hide StopCalls, Sifted;
    assert Matches(OscillatorEvents(voiceState), e) == IsOscillatorOf(voiceState, e);
    SiftNext(was, j, now, k, Other(OscillatorEvents(voiceState)));
    StopCallsStep(was, voiceState, haveCallback, j);
  }

  /** `__seqpStopOsc`; `stopped` lists the oscillator states handed to the stop callback, in order. */
  method StopOsc(q: EventQueue, voiceState: int, haveCallback: bool) returns (stopped: seq<int>)
    requires q.Valid()
    modifies q, q.pool, q.track
    ensures q.Valid() && q.Due() == Filter(old(q.Due()), Other(OscillatorEvents(voiceState)))
    ensures stopped == StopCalls(old(q.Due()), voiceState, haveCallback) && (!haveCallback ==> stopped == [])
    ensures var was := old(q.Due());
            exists kept :: KeptAt(was, q.Due(), kept) && forall i: nat :: i < |was| ==>
              (i !in kept <==> (was[i].evt.kind == 22 || was[i].evt.kind == 23) && was[i].evt.subject == voiceState)
  {
    OscillatorsGone(q.Due(), voiceState);
    NoCalls(q.Due(), voiceState);
    ghost var keep, was := Other(OscillatorEvents(voiceState)), q.Due();
    ghost var j, k := 0, 0;
    stopped := [];
    var node := q.allocList.next;
    assert q.Cursor(node, 0) && Sifted(was, 0, q.Due(), 0, keep) && StopCalls(was[..0], voiceState, haveCallback) == [];
    hide Chained, Distinct, Sifted, Filter, Timeline, Span, Without, With, StopCalls, Matches;
    while node != null
      invariant q.Valid() && q.Cursor(node, k) && Sifted(was, j, q.Due(), k, keep)
      invariant j <= |was| && stopped == StopCalls(was[..j], voiceState, haveCallback)
      decreases |was| - j
    {
      var e := node.evt;
      q.CursorHead(node, k);
      StopStep(was, j, q.Due(), k, voiceState, haveCallback, e);
      var drop := IsOscillatorOf(voiceState, e);
      if drop && haveCallback {
        stopped := stopped + [e.payload];
      }
      node := q.Sift(node, drop, k, was, j, keep);
      j, k := j + 1, if drop then k else k + 1;
    }
    SiftDone(was, j, q.Due(), k, keep);
    assert was[..j] == was;
  }

  /** `__voiceNeedsNoteKill`: the first note-end of the voice is removed exactly when it is due later
      than `killTime`; the answer is no exactly when it is due by then. */
  method VoiceNeedsNoteKill(q: EventQueue, voice: int, killTime: int) returns (needed: bool)
    requires q.Valid()
    modifies q, q.pool, q.track
    ensures q.Valid()
    ensures var was := old(q.Due());
            var i := FirstMatch(was, KindOf(AL_NOTE_END_EVT, voice));
            && (i < |was| ==> was[i].evt.kind == 5 && was[i].evt.subject == voice)
            && (forall j :: 0 <= j < i ==> !(was[j].evt.kind == 5 && was[j].evt.subject == voice))
            && needed == (i == |was| || was[i].at > killTime)
            && q.Due() == if needed && i < |was| then was[..i] + was[i + 1..] else was
  {
    ghost var p, was := KindOf(AL_NOTE_END_EVT, voice), q.Due();
    ghost var k := 0;
    var eventTime := 0;
    var node := q.allocList.next;
    assert q.Cursor(node, 0);
    hide Chained, Distinct, Timeline, Without, With;
    while node != null
      invariant q.Valid() && q.Cursor(node, k) && q.Due() == was && k <= |was|
      invariant eventTime == LastTime(was[..k], 0)
      invariant forall i :: 0 <= i < k ==> !Matches(p, was[i].evt)
      decreases |was| - k
    {
      var next := q.Successor(node, k);
      eventTime := eventTime + node.delta;
      if node.evt.kind == AL_NOTE_END_EVT && node.evt.subject == voice {
        FirstMatchAt(was, p, k);
        if eventTime <= killTime {
          return false;
        }
        q.DropAt(node, next, k);
        return true;
      }
      node, k := next, k + 1;
    }
    FirstMatchNone(was, p);
    return true;
  }

  lemma FirstMatchAt(t: seq<Timed>, p: Pattern, k: nat)
    requires k < |t| && Matches(p, t[k].evt)
    requires forall i :: 0 <= i < k ==> !Matches(p, t[i].evt)
    ensures FirstMatch(t, p) == k
  {
    var f := FirstMatch(t, p);
  }

  lemma FirstMatchNone(t: seq<Timed>, p: Pattern)
    requires forall i :: 0 <= i < |t| ==> !Matches(p, t[i].evt)
    ensures FirstMatch(t, p) == |t|
  {
    var f := FirstMatch(t, p);
  }

  const AL_SEQP_API_EVT := 9

  /** No event has the kind the queue uses to say that it is empty. */
  ghost predicate Proper(t: seq<Timed>) {
    forall i :: 0 <= i < |t| ==> t[i].evt.kind != EMPTY_EVENT
  }

  lemma {:induction false} ProperInsert(t: seq<Timed>, x: Timed)
    requires Proper(t) && x.evt.kind != EMPTY_EVENT
    ensures Proper(StableInsert(t, x))
  {
    if t != [] && x.at >= t[0].at {
      ProperInsert(t[1..], x);
      var r := StableInsert(t[1..], x);
      assert StableInsert(t, x) == [t[0]] + r;
      forall i | 0 <= i < |r| + 1 ensures ([t[0]] + r)[i].evt.kind != EMPTY_EVENT {
        assert i > 0 ==> ([t[0]] + r)[i] == r[i - 1];
      }
    }
  }

  lemma ProperFilter(t: seq<Timed>, p: Pattern)
    requires Proper(t)
    ensures Proper(Filter(t, p))
  {
    var f := Filter(t, p);
    forall i | 0 <= i < |f| ensures f[i] in t {
      assert f[i] in f;
      FilterMember(t, p, f[i]);
    }
  }

  lemma ProperAppend(t: seq<Timed>, x: Timed)
    requires Proper(t) && x.evt.kind != EMPTY_EVENT
    ensures Proper(t + [x])
  {}

  /** Where an event queued at the end is due, counted from the clock or in absolute time. */
  lemma EndShift(t: seq<Timed>, clock: int, evt: Event)
    ensures Shift(t + [Timed(LastTime(t, 0), evt)], clock)
         == Shift(t, clock) + [Timed(LastTime(Shift(t, clock), clock), evt)]
  {}

  /** A post, counted from the clock or in absolute time. */
  lemma PostShift(t: seq<Timed>, s: PlayerRun.State, evt: Event, delta: int, room: bool)
    requires s.agenda == Shift(t, s.clock) && Proper(s.agenda) && evt.kind != EMPTY_EVENT
    ensures var r := PlayerRun.Step(s, PlayerRun.Post(evt, delta, room));
      && r.agenda == Shift(if room then Placed(t, evt, delta, delta == AL_EVTQ_END) else t, s.clock)
      && Proper(r.agenda) && r.clock == s.clock
  {
    hide Shift, Proper, StableInsert, LastTime;
    if room && delta == AL_EVTQ_END {
      EndShift(t, s.clock, evt);
      ProperAppend(s.agenda, Timed(LastTime(s.agenda, s.clock), evt));
    } else if room {
      ShiftInsert(t, Timed(delta, evt), s.clock);
      ProperInsert(s.agenda, Timed(s.clock + delta, evt));
    }
  }

  lemma FlushShift(s: PlayerRun.State)
    ensures var r := PlayerRun.Step(s, PlayerRun.FlushAll);
            r.agenda == Shift([], s.clock) && Proper(r.agenda) && r.clock == s.clock
  {}

  /** Taking the first event out, counted from the clock or in absolute time. */
  lemma NextShift(t: seq<Timed>, s: PlayerRun.State, frameTime: int)
    requires s.agenda == Shift(t, s.clock) && Proper(s.agenda)
    ensures var r := PlayerRun.Step(s, PlayerRun.Next(frameTime));
      && Proper(r.agenda)
      && (t == [] ==> r.agenda == [] && r.clock == s.clock + HeartbeatDelay(frameTime))
      && (t != [] ==> t[0].evt.kind != EMPTY_EVENT && s.agenda[0] == Timed(r.clock, t[0].evt))
      && (t != [] ==> r.clock == s.clock + t[0].at && r.agenda == Shift(Shift(t[1..], -t[0].at), r.clock))
  {
    if t != [] {
      ShiftPop(t, s.clock);
      assert s.agenda[0].evt == t[0].evt;
    }
  }

  /** What came out of the queue, and what is left in it, is what the run dispatches and keeps. */
  lemma NextAgrees(t: seq<Timed>, s: PlayerRun.State, frameTime: int, evt: Event, delta: int, left: seq<Timed>)
    requires s.agenda == Shift(t, s.clock) && Proper(s.agenda)
    requires t == [] ==> evt == Event(9, 0, 0) && left == []
    requires t == [] ==> delta == if frameTime > 0 then frameTime else 16000
    requires t != [] && t[0].evt.kind != -1 ==> Timed(delta, evt) == t[0] && left == Shift(t[1..], -delta)
    ensures var r := PlayerRun.Step(s, PlayerRun.Next(frameTime));
      && r.clock == s.clock + delta && r.agenda == Shift(left, r.clock) && Proper(r.agenda)
      && (s.agenda != [] ==> Timed(r.clock, evt) == s.agenda[0])
      && (s.agenda == [] ==> evt.kind == 9 && delta == if frameTime > 0 then frameTime else 16000)
  {
    NextShift(t, s, frameTime);
    assert |s.agenda| == |t|;
  }

  lemma ApiEvent()
    ensures AL_SEQP_API_EVT == 9
  {}

  /** Takes the next event of the queue that holds what the run `s` still has to dispatch. */
  method NextOf(q: EventQueue, ghost s: PlayerRun.State, frameTime: int) returns (evt: Event, delta: int)
    requires q.Valid() && s.agenda == Shift(q.Due(), s.clock) && Proper(s.agenda)
    modifies q, q.pool, q.track
    ensures var r := PlayerRun.Step(s, PlayerRun.Next(frameTime));
      && q.Valid() && r.clock == s.clock + delta && r.agenda == Shift(q.Due(), r.clock) && Proper(r.agenda)
      && (s.agenda != [] ==> Timed(r.clock, evt) == s.agenda[0])
      && (s.agenda == [] ==> evt.kind == 9 && delta == if frameTime > 0 then frameTime else 16000)
  {
    hide *;
    ghost var t := q.Due();
    evt, delta := q.NextOrHeartbeat(AL_SEQP_API_EVT, frameTime);
    ApiEvent();
    NextAgrees(t, s, frameTime, evt, delta, q.Due());
  }

  lemma RemoveShift(t: seq<Timed>, s: PlayerRun.State, p: Pattern)
    requires s.agenda == Shift(t, s.clock) && Proper(s.agenda)
    ensures var r := PlayerRun.Step(s, PlayerRun.Remove(p));
            r.agenda == Shift(Filter(t, Other(p)), s.clock) && Proper(r.agenda) && r.clock == s.clock
  {
    FilterShift(t, Other(p), s.clock);
    ProperFilter(s.agenda, Other(p));
  }

  lemma AfterRemove(s: PlayerRun.State, p: Pattern)
    ensures PlayerRun.Step(s, PlayerRun.Remove(p)).agenda == Filter(s.agenda, Other(p))
  {}

  lemma RemoveOneShift(t: seq<Timed>, s: PlayerRun.State, k: nat)
    requires s.agenda == Shift(t, s.clock) && Proper(s.agenda) && k < |t|
    ensures var r := PlayerRun.Step(s, PlayerRun.RemoveOne(k));
            r.agenda == Shift(t[..k] + t[k + 1..], s.clock) && Proper(r.agenda) && r.clock == s.clock
  {
    assert Shift(t, s.clock)[..k] + Shift(t, s.clock)[k + 1..] == Shift(t[..k] + t[k + 1..], s.clock);
  }

  lemma {:induction false} FirstMatchShift(t: seq<Timed>, p: Pattern, clock: int)
    ensures FirstMatch(Shift(t, clock), p) == FirstMatch(t, p)
  {
    if t != [] {
      FirstMatchShift(t[1..], p, clock);
      assert Shift(t, clock)[1..] == Shift(t[1..], clock);
    }
  }

  /** The event a note kill looks at, counted from the clock or in absolute time. */
  lemma KillShift(t: seq<Timed>, s: PlayerRun.State, p: Pattern) returns (r: PlayerRun.State)
    requires s.agenda == Shift(t, s.clock) && Proper(s.agenda)
    ensures var i := FirstMatch(t, p);
      && FirstMatch(s.agenda, p) == i && |s.agenda| == |t|
      && (i < |t| ==> s.agenda[i].at == s.clock + t[i].at)
      && (i < |t| ==> r == PlayerRun.Step(s, PlayerRun.RemoveOne(i)))
      && (i < |t| ==> r.clock == s.clock && r.agenda == Shift(t[..i] + t[i + 1..], s.clock) && Proper(r.agenda))
  {
    var i := FirstMatch(t, p);
    FirstMatchShift(t, p, s.clock);
    r := s;
    if i < |t| {
      r := PlayerRun.Step(s, PlayerRun.RemoveOne(i));
      RemoveOneShift(t, s, i);
    }
  }

  lemma ProperRetimed(t: seq<Timed>, clock: int, oldUspt: int, newUspt: int)
    requires oldUspt > 0 && Proper(t)
    ensures Proper(RetimedFrom(t, clock, oldUspt, newUspt))
  {
    var r := RetimedFrom(t, clock, oldUspt, newUspt);
    var offs, kept := Filter(t, NOTE_OFFS), Filter(t, Other(NOTE_OFFS));
    ProperFilter(t, NOTE_OFFS);
    ProperFilter(t, Other(NOTE_OFFS));
    hide Filter, Rescaled;
    ProperInsertAll(kept, RescaleFrom(offs, clock, oldUspt, newUspt));
  }

  lemma {:induction false} ProperInsertAll(t: seq<Timed>, xs: seq<Timed>)
    requires Proper(t) && Proper(xs)
    ensures Proper(InsertAll(t, xs))
    decreases xs
  {
    if xs != [] {
      ProperInsert(t, xs[0]);
      ProperInsertAll(StableInsert(t, xs[0]), xs[1..]);
    }
  }

  /** A tempo change, counted from the clock or in absolute time. */
  lemma TempoShift(t: seq<Timed>, s: PlayerRun.State, oldUspt: int, newUspt: int)
    requires s.agenda == Shift(t, s.clock) && Proper(s.agenda)
    ensures var r := PlayerRun.Step(s, PlayerRun.Retime(oldUspt, newUspt));
      && r.agenda == Shift(if oldUspt > 0 then Retimed(t, oldUspt, newUspt) else t, s.clock)
      && Proper(r.agenda) && r.clock == s.clock
  {
    if oldUspt > 0 {
      RetimeShift(t, s.clock, oldUspt, newUspt);
      ProperRetimed(s.agenda, s.clock, oldUspt, newUspt);
    }
  }

  /** The part of a sequence player its queue and clock live in. `ops` is what has been done to it so far, and
      `run` that history in absolute times. */
  class Player {
    const evtq: EventQueue
    var curTime: int
    var nextEvent: Event
    var nextDelta: int
    var frameTime: int
    var uspt: int   // microseconds per tick
    ghost var ops: seq<PlayerRun.Op>
    ghost var run: PlayerRun.State

    /** The queue holds what the run still has to dispatch. */
    ghost predicate Valid()
      reads this, evtq, evtq.pool, evtq.track
    {
      && evtq.Valid() && run.clock == curTime && run.agenda == Shift(evtq.Due(), curTime) && Proper(run.agenda)
      && run == PlayerRun.Run(PlayerRun.START, ops)
    }

    lemma Unfold()
      requires Valid()
      ensures evtq.Valid() && run.clock == curTime && run.agenda == Shift(evtq.Due(), curTime) && Proper(run.agenda)
      ensures run == PlayerRun.Run(PlayerRun.START, ops)
    {}

    lemma Fold()
      requires evtq.Valid() && run.clock == curTime && run.agenda == Shift(evtq.Due(), curTime) && Proper(run.agenda)
      requires run == PlayerRun.Run(PlayerRun.START, ops)
      ensures Valid()
    {}

    constructor (queue: EventQueue, frameTime: int)
      requires queue.Valid() && queue.Due() == []
      ensures Valid() && evtq == queue && ops == [] && run == PlayerRun.START && uspt == 488
    {
      evtq := queue;
      curTime, nextDelta, this.frameTime := 0, 0, frameTime;
      nextEvent := Event(AL_SEQP_API_EVT, 0, 0);
      uspt := 488;
      ops, run := [], PlayerRun.START;
    }

    /** A post from the voice handler or from the game. */
    method Post(evt: Event, delta: int)
      requires Valid() && evt.kind != EMPTY_EVENT
      modifies this`run, this`ops, evtq, evtq.pool, evtq.track
      ensures Valid() && run == PlayerRun.Step(old(run), PlayerRun.Post(evt, delta, old(|evtq.spare|) > 1))
      ensures ops == old(ops) + [PlayerRun.Post(evt, delta, old(|evtq.spare|) > 1)]
    {
      hide *;
      Unfold();
      ghost var op := PlayerRun.Post(evt, delta, |evtq.spare| > 1);
      PostShift(evtq.Due(), run, evt, delta, |evtq.spare| > 1);
      evtq.PostEvent(evt, delta);
      PlayerRun.RunAppend(PlayerRun.START, ops, op);
      run, ops := PlayerRun.Step(run, op), ops + [op];
      Fold();
    }

    /** The end of a turn of the voice handler's loop: the next event comes out, and the clock moves to
        the time it is due. */
    method Next()
      requires Valid()
      modifies this`curTime, this`nextEvent, this`nextDelta, this`run, this`ops, evtq, evtq.pool, evtq.track
      ensures Valid() && run == PlayerRun.Step(old(run), PlayerRun.Next(frameTime))
      ensures ops == old(ops) + [PlayerRun.Next(frameTime)]
      ensures nextDelta == curTime - old(curTime)
      ensures old(run).agenda != [] ==> Timed(curTime, nextEvent) == old(run).agenda[0]
      ensures old(run).agenda == [] ==>
                nextEvent.kind == 9 && curTime == old(curTime) + if frameTime > 0 then frameTime else 16000
    {
      hide *;
      Unfold();
      var evt, delta := NextOf(evtq, run, frameTime);
      ghost var op := PlayerRun.Next(frameTime);
      PlayerRun.RunAppend(PlayerRun.START, ops, op);
      nextEvent, nextDelta, curTime := evt, delta, curTime + delta;
      run, ops := PlayerRun.Step(run, op), ops + [op];
      Fold();
    }

    /** `alEvtqFlushType` on the player's queue. */
    method FlushType(kind: int)
      requires Valid()
      modifies this`run, this`ops, evtq, evtq.pool, evtq.track
      ensures Valid() && run == PlayerRun.Step(old(run), PlayerRun.Remove(Kind(kind)))
      ensures ops == old(ops) + [PlayerRun.Remove(Kind(kind))]
      ensures var was := old(run.agenda);
              exists kept :: KeptAt(was, run.agenda, kept) &&
                forall i: nat :: i < |was| ==> (i !in kept <==> was[i].evt.kind == kind)
    {
      hide *;
      Unfold();
      KindGone(run.agenda, kind);
      AfterRemove(run, Kind(kind));
      RemoveShift(evtq.Due(), run, Kind(kind));
      evtq.FlushType(kind);
      PlayerRun.RunAppend(PlayerRun.START, ops, PlayerRun.Remove(Kind(kind)));
      run, ops := PlayerRun.Step(run, PlayerRun.Remove(Kind(kind))), ops + [PlayerRun.Remove(Kind(kind))];
      Fold();
    }

    /** `native_seqp_remove_event_for_voice` on the player's queue. */
    method RemoveForVoice(voice: int, kind: int)
      requires Valid()
      modifies this`run, this`ops, evtq, evtq.pool, evtq.track
      ensures Valid() && run == PlayerRun.Step(old(run), PlayerRun.Remove(VoiceEvents(voice, kind)))
      ensures ops == old(ops) + [PlayerRun.Remove(VoiceEvents(voice, kind))]
      ensures var was := old(run.agenda);
              exists kept :: KeptAt(was, run.agenda, kept) && forall i: nat :: i < |was| ==>
                (i !in kept <==> was[i].evt.kind == kind && (kind == 6 || kind == 5) && was[i].evt.subject == voice)
    {
      hide *;
      Unfold();
      VoiceEventsGone(run.agenda, voice, kind);
      AfterRemove(run, VoiceEvents(voice, kind));
      RemoveShift(evtq.Due(), run, VoiceEvents(voice, kind));
      RemoveEventForVoice(evtq, voice, kind);
      ghost var op := PlayerRun.Remove(VoiceEvents(voice, kind));
      PlayerRun.RunAppend(PlayerRun.START, ops, op);
      run, ops := PlayerRun.Step(run, op), ops + [op];
      Fold();
    }

    /** `__seqpStopOsc` on the player's queue. */
    method StopOscillators(voiceState: int, haveCallback: bool) returns (stopped: seq<int>)
      requires Valid()
      modifies this`run, this`ops, evtq, evtq.pool, evtq.track
      ensures Valid() && run == PlayerRun.Step(old(run), PlayerRun.Remove(OscillatorEvents(voiceState)))
      ensures ops == old(ops) + [PlayerRun.Remove(OscillatorEvents(voiceState))]
      ensures stopped == StopCalls(old(evtq.Due()), voiceState, haveCallback) && (!haveCallback ==> stopped == [])
      ensures var was := old(run.agenda);
              exists kept :: KeptAt(was, run.agenda, kept) && forall i: nat :: i < |was| ==>
                (i !in kept <==> (was[i].evt.kind == 22 || was[i].evt.kind == 23) && was[i].evt.subject == voiceState)
    {
      hide *;
      Unfold();
      OscillatorsGone(run.agenda, voiceState);
      AfterRemove(run, OscillatorEvents(voiceState));
      RemoveShift(evtq.Due(), run, OscillatorEvents(voiceState));
      stopped := StopOsc(evtq, voiceState, haveCallback);
      ghost var op := PlayerRun.Remove(OscillatorEvents(voiceState));
      PlayerRun.RunAppend(PlayerRun.START, ops, op);
      run, ops := PlayerRun.Step(run, op), ops + [op];
      Fold();
    }

    /** `__voiceNeedsNoteKill` on the player's queue. */
    method NeedsNoteKill(voice: int, killTime: int) returns (needed: bool)
      requires Valid()
      modifies this`run, this`ops, evtq, evtq.pool, evtq.track
      ensures Valid()
      ensures var was, i := old(run.agenda), FirstMatch(old(run.agenda), KindOf(AL_NOTE_END_EVT, voice));
              && needed == (i == |was| || was[i].at > curTime + killTime)
              && run == (if needed && i < |was| then PlayerRun.Step(old(run), PlayerRun.RemoveOne(i)) else old(run))
              && ops == old(ops) + if needed && i < |was| then [PlayerRun.RemoveOne(i)] else []
    {
      hide *;
      Unfold();
      ghost var removed := KillShift(evtq.Due(), run, KindOf(AL_NOTE_END_EVT, voice));
      ghost var i := FirstMatch(run.agenda, KindOf(AL_NOTE_END_EVT, voice));
      ghost var found := i < |run.agenda|;
      needed := VoiceNeedsNoteKill(evtq, voice, killTime);
      if needed && found {
        PlayerRun.RunAppend(PlayerRun.START, ops, PlayerRun.RemoveOne(i));
        run, ops := removed, ops + [PlayerRun.RemoveOne(i)];
      }
      Fold();
    }

    /** `alEvtqFlush` on the player's queue. */
    method Flush()
      requires Valid()
      modifies this`run, this`ops, evtq, evtq.pool, evtq.track
      ensures Valid() && run == PlayerRun.Step(old(run), PlayerRun.FlushAll)
      ensures ops == old(ops) + [PlayerRun.FlushAll]
    {
      hide *;
      Unfold();
      FlushShift(run);
      evtq.Flush();
      PlayerRun.RunAppend(PlayerRun.START, ops, PlayerRun.FlushAll);
      run, ops := PlayerRun.Step(run, PlayerRun.FlushAll), ops + [PlayerRun.FlushAll];
      Fold();
    }

    /** `native_csp_handle_meta` for a tempo event that makes a tick `newUspt` microseconds long. */
    method HandleTempo(newUspt: int)
      requires Valid()
      modifies this`run, this`ops, this`uspt, evtq, evtq.pool, evtq.track
      ensures Valid() && uspt == newUspt && run == PlayerRun.Step(old(run), PlayerRun.Retime(old(uspt), newUspt))
      ensures ops == old(ops) + [PlayerRun.Retime(old(uspt), newUspt)]
    {
      hide *;
      Unfold();
      ghost var op := PlayerRun.Retime(uspt, newUspt);
      var oldUspt := uspt;
      uspt := newUspt;
      TempoShift(evtq.Due(), run, oldUspt, newUspt);
      TempoChange.HandleTempo(evtq, oldUspt, newUspt);
      PlayerRun.RunAppend(PlayerRun.START, ops, op);
      run, ops := PlayerRun.Step(run, op), ops + [op];
      Fold();
    }

    /** So what the run promises holds of the player: nothing it still has to dispatch is overdue, and what it
        has dispatched and what waits are in order, if the game numbers its posts and no tempo change turned
        a rescaled product negative. */
    lemma KeepsTime()
      requires Valid() && PlayerRun.Numbered(ops, 0) && PlayerRun.Tame(PlayerRun.START, ops)
      ensures forall i :: 0 <= i < |evtq.Due()| ==> evtq.Due()[i].at >= 0
      ensures PlayerRun.Fifo(run.log + Shift(evtq.Due(), curTime), PlayerRun.Moved(run.moves))
    {
      hide *;
      Unfold();
      PlayerRun.DispatchedOnTimeInOrder(ops);
      var t := evtq.Due();
      assert forall i :: 0 <= i < |t| ==> run.agenda[i] == Timed(t[i].at + curTime, t[i].evt);
    }
  }
}
