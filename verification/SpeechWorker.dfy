/** The speech drain protocol (platform/a11y_speech_worker.c): a UI thread that queues lines and barges in,
    and a worker that takes, re-checks and speaks them. One action is one critical section or one call
    outside it, so a run is any interleaving the two threads can produce. */
module SpeechWorker {
  import opened SpeechBacklog
  import opened Words

  /** Where the worker is. A line is known by its serial number, the count of lines pushed before it;
      `at` is how often the backlog had really been thrown away when the line was taken. */
  datatype Worker =
    | Opening
    | Looking
    | Asleep
    | Holding(line: nat, stamp: nat, at: nat)
    | Approved(line: nat)
    | Speaking(line: nat)
    | Exited

  /** What the UI thread still has to do before it can act again. */
  datatype Ui = Off | Free | OweSignal | OweStop | ReapOweStop | ReapOweBroadcast | Joining

  /** `pushed` counts the lines ever pushed, `discards` the times the backlog was thrown away, `thrown` the
      lines lost in that, `said` and `lost` what the two wrapping counters really count; `begun` lists the
      lines handed to the engine, in order. */
  datatype State = State(shared: Shared<nat>, worker: Worker, ui: Ui, pushed: nat, discards: nat, thrown: nat,
                         said: nat, lost: nat, begun: seq<nat>)

  datatype Action =
    | Start | Push | Signal | Purge | Stop | Reap(cut: bool) | ReapStop | Broadcast | Join
    | Open(ok: bool) | Look | Spurious | Recheck | Begin | Finish

  const INITIAL: State := State(Shared([], 0, false, false, 0, 0), Exited, Off, 0, 0, 0, 0, 0, [])

  predicate Can(s: State, a: Action) {
    match a
    case Start => s.ui.Off?
    case Push => s.ui.Free?
    case Signal => s.ui.OweSignal?
    case Purge => s.ui.Free?
    case Stop => s.ui.OweStop?
    case Reap(_) => s.ui.Free?
    case ReapStop => s.ui.ReapOweStop?
    case Broadcast => s.ui.ReapOweBroadcast?
    case Join => s.ui.Joining? && s.worker.Exited?
    case Open(_) => s.worker.Opening?
    case Look => s.worker.Looking?
    case Spurious => s.worker.Asleep?
    case Recheck => s.worker.Holding?
    case Begin => s.worker.Approved?
    case Finish => s.worker.Speaking?
  }

  function Woken(w: Worker): Worker {
    if w.Asleep? then Looking else w
  }

  function Thrown(s: State): State {
    s.(shared := Discarded(s.shared), discards := s.discards + 1, thrown := s.thrown + |s.shared.queue|)
  }

  function Do(s: State, a: Action): State
    requires Can(s, a)
  {
    match a
    case Start =>
      Thrown(s).(shared := Discarded(s.shared).(speaking := false, quit := false), worker := Opening, ui := Free)
    case Push =>
      s.(shared := Pushed(s.shared, s.pushed), pushed := s.pushed + 1, ui := OweSignal,
         lost := if |s.shared.queue| == BACKLOG_MAX then s.lost + 1 else s.lost)
    case Signal => s.(ui := Free, worker := Woken(s.worker))
    case Purge => Thrown(s).(ui := OweStop)
    case Stop => s.(ui := Free)
    case Reap(cut) =>
      Thrown(s).(shared := Discarded(s.shared).(quit := true), ui := if cut then ReapOweStop else ReapOweBroadcast)
    case ReapStop => s.(ui := ReapOweBroadcast)
    case Broadcast => s.(ui := Joining, worker := Woken(s.worker))
    case Join => s.(ui := Off)
    case Open(ok) => s.(worker := if ok then Looking else Exited)
    case Look =>
      if s.shared.quit then s.(worker := Exited)
      else if |s.shared.queue| == 0 then s.(worker := Asleep)
      else s.(shared := Taken(s.shared), worker := Holding(s.shared.queue[0], s.shared.generation, s.discards))
    case Spurious => s.(worker := Looking)
    case Recheck =>
      if s.shared.generation != s.worker.stamp then
        s.(shared := Cancelled(s.shared), worker := Looking, lost := s.lost + 1)
      else s.(worker := Approved(s.worker.line))
    case Begin => s.(worker := Speaking(s.worker.line), begun := s.begun + [s.worker.line])
    case Finish => s.(shared := Finished(s.shared), worker := Looking, said := s.said + 1)
  }

  // ---- what every step keeps -----------------------------------------------------------

  predicate InHand(w: Worker) {
    w.Holding? || w.Approved? || w.Speaking?
  }

  /** The lines taken but not yet begun, then the lines still queued. */
  function Ahead(s: State): seq<nat> {
    (if s.worker.Holding? || s.worker.Approved? then [s.worker.line] else []) + s.shared.queue
  }

  /** Strictly increasing serial numbers below a bound. */
  ghost predicate Increasing(lines: seq<nat>, bound: nat) {
    && (forall i, j :: 0 <= i < j < |lines| ==> lines[i] < lines[j])
    && (forall i :: 0 <= i < |lines| ==> lines[i] < bound)
  }

  lemma LoseOne(lines: seq<nat>, k: nat, bound: nat)
    requires Increasing(lines, bound) && k < |lines|
    ensures Increasing(lines[..k] + lines[k + 1..], bound)
  {}

  lemma LoseRest(lines: seq<nat>, k: nat, bound: nat)
    requires Increasing(lines, bound) && k <= |lines|
    ensures Increasing(lines[..k], bound)
  {}

  lemma GainNewest(lines: seq<nat>, bound: nat)
    requires Increasing(lines, bound)
    ensures Increasing(lines + [bound], bound + 1)
  {}

  /** Lines are spoken in push order, each at most once, and only lines that were pushed. */
  ghost predicate InOrder(s: State) {
    Increasing(s.begun + Ahead(s), s.pushed)
  }

  /** Every pushed line is spoken, dropped, thrown away, queued or in the worker's hand. */
  predicate Balanced(s: State) {
    s.pushed == s.said + s.lost + s.thrown + |s.shared.queue| + (if InHand(s.worker) then 1 else 0)
  }

  /** The counters and the stamp are the true counts, modulo the machine word. */
  predicate Stamped(s: State) {
    && s.shared.generation == s.discards % WORD
    && s.shared.spoken == s.said % WORD && s.shared.dropped == s.lost % WORD
    && (s.worker.Holding? ==> s.worker.at <= s.discards && s.worker.stamp == s.worker.at % WORD)
    && s.shared.speaking == InHand(s.worker)
    && |s.shared.queue| <= BACKLOG_MAX
  }

  /** A sleeping worker with something to wake for is still owed a wake-up. */
  predicate NoLostWakeup(s: State) {
    && (s.worker.Asleep? && |s.shared.queue| > 0 ==> s.ui.OweSignal?)
    && (s.worker.Asleep? && s.shared.quit ==> s.ui.ReapOweStop? || s.ui.ReapOweBroadcast?)
    && (s.ui.ReapOweStop? || s.ui.ReapOweBroadcast? || s.ui.Joining? ==> s.shared.quit)
    && (s.shared.quit ==> s.ui.ReapOweStop? || s.ui.ReapOweBroadcast? || s.ui.Joining? || s.ui.Off?)
    && (s.ui.Off? ==> s.worker.Exited?)
    && (s.shared.quit ==> |s.shared.queue| == 0)
  }

  /** The waiting lines are the newest ones: numbered without a gap, up to the last one pushed. */
  ghost predicate UpToDate(s: State) {
    |s.shared.queue| <= s.pushed && forall i :: 0 <= i < |s.shared.queue| ==>
      s.shared.queue[i] == s.pushed - |s.shared.queue| + i
  }

  ghost predicate Invariant(s: State) {
    InOrder(s) && Balanced(s) && Stamped(s) && NoLostWakeup(s) && UpToDate(s)
  }

  lemma InitialInvariant()
    ensures Invariant(INITIAL)
  {}

  lemma PushKeepsOrder(s: State)
    requires InOrder(s) && s.ui.Free?
    ensures InOrder(Do(s, Push))
  {
    hide Increasing, Bumped;
    var before, after := s.begun + Ahead(s), Do(s, Push).begun + Ahead(Do(s, Push));
    if |s.shared.queue| == BACKLOG_MAX {
      var oldest := |before| - BACKLOG_MAX;
      LoseOne(before, oldest, s.pushed);
      GainNewest(before[..oldest] + before[oldest + 1..], s.pushed);
      assert after == before[..oldest] + before[oldest + 1..] + [s.pushed];
    } else {
      GainNewest(before, s.pushed);
      assert after == before + [s.pushed];
    }
  }

  lemma RecheckKeepsOrder(s: State)
    requires InOrder(s) && s.worker.Holding?
    ensures InOrder(Do(s, Recheck))
  {
    hide Increasing, Bumped;
    var before, after := s.begun + Ahead(s), Do(s, Recheck).begun + Ahead(Do(s, Recheck));
    if s.shared.generation != s.worker.stamp {
      LoseOne(before, |s.begun|, s.pushed);
      assert after == before[..|s.begun|] + before[|s.begun| + 1..];
    }
  }

  lemma DiscardKeepsOrder(s: State, a: Action)
    requires InOrder(s) && Can(s, a) && (s.ui.Off? ==> s.worker.Exited?)
    requires a.Start? || a.Purge? || a.Reap?
    ensures InOrder(Do(s, a))
  {
    hide Increasing, Bumped;
    var before, after := s.begun + Ahead(s), Do(s, a).begun + Ahead(Do(s, a));
    LoseRest(before, |after|, s.pushed);
    assert after == before[..|after|];
  }

  lemma StepKeepsOrder(s: State, a: Action)
    requires InOrder(s) && Can(s, a) && (s.ui.Off? ==> s.worker.Exited?)
    ensures InOrder(Do(s, a))
  {
    hide Increasing, Bumped;
    match a {
      case Push => PushKeepsOrder(s);
      case Recheck => RecheckKeepsOrder(s);
      case Start => DiscardKeepsOrder(s, a);
      case Purge => DiscardKeepsOrder(s, a);
      case Reap(_) => DiscardKeepsOrder(s, a);
      case _ => assert Do(s, a).begun + Ahead(Do(s, a)) == s.begun + Ahead(s);
    }
  }

  lemma BumpCounts(n: nat)
    ensures Bumped(n % WORD) == (n + 1) % WORD
  {}

  lemma StepKeepsStamp(s: State, a: Action)
    requires Stamped(s) && Can(s, a) && (s.ui.Off? ==> s.worker.Exited?)
    ensures Stamped(Do(s, a))
  {
    hide Bumped;
    BumpCounts(s.discards);
    BumpCounts(s.said);
    BumpCounts(s.lost);
  }

  lemma StepKeepsBalance(s: State, a: Action)
    requires Balanced(s) && Can(s, a) && (s.ui.Off? ==> s.worker.Exited?)
    ensures Balanced(Do(s, a))
  {}

  lemma StepKeepsWakeup(s: State, a: Action)
    requires NoLostWakeup(s) && Can(s, a)
    ensures NoLostWakeup(Do(s, a))
  {}

  /** The line pushed last is the last one queued; what a full ring gives up, and what the worker takes, is
      the oldest. */
  lemma StepKeepsUpToDate(s: State, a: Action)
    requires UpToDate(s) && Can(s, a)
    ensures UpToDate(Do(s, a))
    ensures a.Push? ==> var q := Do(s, a).shared.queue; |q| > 0 && q[|q| - 1] == s.pushed
    ensures a.Look? && Do(s, a).worker.Holding? ==>
              s.shared.queue != [] && Do(s, a).worker.line == s.pushed - |s.shared.queue|
  {
    hide Bumped;
  }

  function Serials(from: nat, to: nat): (lines: seq<nat>)
    requires from <= to
    ensures |lines| == to - from && forall i :: 0 <= i < |lines| ==> lines[i] == from + i
  {
    seq(to - from, i requires 0 <= i => from + i)
  }

  lemma NewestStep(before: seq<nat>, from: nat, to: nat)
    requires from <= to
    ensures Newest(before + Serials(from, to + 1)) == Newest(Newest(before + Serials(from, to)) + [to])
  {
    assert before + Serials(from, to + 1) == before + Serials(from, to) + [to];
  }

  /** While lines are only pushed, the ring fills up to eight of them and then stays full of the newest. */
  lemma {:induction false} PushesKeepNewest(states: seq<State>, actions: seq<Action>, n: nat)
    requires Run(states, actions) && n < |states| && |states[0].shared.queue| <= 8
    requires forall i :: 0 <= i < |actions| ==> actions[i].Push? || actions[i].Signal?
    ensures states[n].pushed >= states[0].pushed
    ensures states[n].shared.queue == Newest(states[0].shared.queue + Serials(states[0].pushed, states[n].pushed))
  {
    hide Bumped, Serials, Newest;
    if n == 0 {
      NothingPushed(states[0].shared.queue, states[0].pushed);
    } else {
      PushesKeepNewest(states, actions, n - 1);
      NewestFew(states[0].shared.queue + Serials(states[0].pushed, states[n - 1].pushed));
      PushOrSignal(states[n - 1], actions[n - 1]);
      NewestStep(states[0].shared.queue, states[0].pushed, states[n - 1].pushed);
    }
  }

  lemma NothingPushed(queue: seq<nat>, pushed: nat)
    requires |queue| <= 8
    ensures Newest(queue + Serials(pushed, pushed)) == queue
  {
    assert queue + Serials(pushed, pushed) == queue;
  }

  lemma NewestFew(lines: seq<nat>)
    ensures |Newest(lines)| <= 8
  {}

  lemma PushOrSignal(s: State, a: Action)
    requires Can(s, a) && (a.Push? || a.Signal?) && |s.shared.queue| <= 8
    ensures a.Push? ==> Do(s, a).pushed == s.pushed + 1
    ensures a.Push? ==> Do(s, a).shared.queue == Newest(s.shared.queue + [s.pushed])
    ensures a.Signal? ==> Do(s, a).pushed == s.pushed && Do(s, a).shared.queue == s.shared.queue
  {
    hide Bumped;
  }

  lemma StepKeepsInvariant(s: State, a: Action)
    requires Invariant(s) && Can(s, a)
    ensures Invariant(Do(s, a))
  {
    hide InOrder, Stamped, Balanced, UpToDate;
    StepKeepsUpToDate(s, a);
    StepKeepsOrder(s, a);
    StepKeepsBalance(s, a);
    StepKeepsStamp(s, a);
    StepKeepsWakeup(s, a);
  }

  // ---- whole runs ----------------------------------------------------------------------

  ghost predicate Run(states: seq<State>, actions: seq<Action>) {
    && |states| == |actions| + 1
    && forall i :: 0 <= i < |actions| ==> Can(states[i], actions[i]) && states[i + 1] == Do(states[i], actions[i])
  }

  lemma {:induction false} RunKeepsInvariant(states: seq<State>, actions: seq<Action>, n: nat)
    requires Run(states, actions) && Invariant(states[0]) && n < |states|
    ensures Invariant(states[n])
  {
    hide Invariant, Do;
    if n > 0 {
      RunKeepsInvariant(states, actions, n - 1);
      StepKeepsInvariant(states[n - 1], actions[n - 1]);
    }
  }

  /** The re-check passes exactly when the backlog was thrown away a multiple of 2^32 times since the line
      was taken: the stamp has no other way to miss a barge-in. */
  lemma RecheckExact(s: State)
    requires Stamped(s) && s.worker.Holding?
    ensures Do(s, Recheck).worker.Approved? <==> (s.discards - s.worker.at) % WORD == 0
  {
    SameRemainder(s.worker.at, s.discards, WORD);
  }

  /** Fewer than 2^32 barge-ins have fallen between taking the line and re-checking it. */
  predicate Timely(s: State) {
    s.worker.Holding? ==> s.discards - s.worker.at < WORD
  }

  /** The one line a barge-in cannot reach: past its re-check, not yet handed to the engine. */
  predicate Escapes(w: Worker, line: nat) {
    w.Approved? && w.line == line
  }

  /** Since a barge-in that found the worker at `w`, `mark` lines pushed and `from` begun, none of those
      `mark` lines has been begun, or still can be, but the one that escapes. */
  ghost predicate CutOff(s: State, w: Worker, mark: nat, from: nat) {
    && mark <= s.pushed && from <= |s.begun|
    && (forall i :: 0 <= i < |s.shared.queue| ==> s.shared.queue[i] >= mark)
    && (s.worker.Holding? ==> s.worker.line >= mark || s.worker.at < s.discards)
    && (s.worker.Approved? ==> s.worker.line >= mark || Escapes(w, s.worker.line))
    && (forall i :: from <= i < |s.begun| ==> s.begun[i] >= mark || Escapes(w, s.begun[i]))
  }

  lemma DiscardCutsOff(s: State, a: Action)
    requires Invariant(s) && Can(s, a) && (a.Purge? || a.Reap?)
    ensures CutOff(Do(s, a), s.worker, s.pushed, |s.begun|)
  {}

  lemma StepKeepsCutOff(s: State, a: Action, w: Worker, mark: nat, from: nat)
    requires Stamped(s) && Can(s, a) && Timely(s) && CutOff(s, w, mark, from)
    ensures CutOff(Do(s, a), w, mark, from)
  {
    if a.Recheck? {
      RecheckExact(s);
    }
  }

  lemma {:induction false} CutOffHolds(states: seq<State>, actions: seq<Action>, n: nat)
    requires Run(states, actions) && Invariant(states[0]) && 0 < n < |states|
    requires actions[0].Purge? || actions[0].Reap?
    requires forall i :: 0 <= i < |states| ==> Timely(states[i])
    ensures CutOff(states[n], states[0].worker, states[0].pushed, |states[0].begun|)
  {
    hide Invariant, Do, CutOff, Timely;
    if n == 1 {
      DiscardCutsOff(states[0], actions[0]);
    } else {
      CutOffHolds(states, actions, n - 1);
      RunKeepsInvariant(states, actions, n - 1);
      InvariantIsStamped(states[n - 1]);
      StepKeepsCutOff(states[n - 1], actions[n - 1], states[0].worker, states[0].pushed, |states[0].begun|);
    }
  }

  lemma InvariantIsStamped(s: State)
    requires Invariant(s)
    ensures Stamped(s)
  {}

  /** After a barge-in, in every interleaving: no line pushed before it is begun, except the single one that
      was already past its re-check, and that one at most once. */
  lemma BargeIn(states: seq<State>, actions: seq<Action>, n: nat, i: nat, j: nat)
    requires Run(states, actions) && Invariant(states[0]) && 0 < n < |states|
    requires actions[0].Purge? || actions[0].Reap?
    requires forall k :: 0 <= k < |states| ==> Timely(states[k])
    requires |states[0].begun| <= i < |states[n].begun| && |states[0].begun| <= j < |states[n].begun|
    ensures states[n].begun[i] < states[0].pushed ==> Escapes(states[0].worker, states[n].begun[i])
    ensures states[n].begun[i] < states[0].pushed && states[n].begun[j] < states[0].pushed ==> i == j
  {
    hide Do, Timely, Stamped, Balanced, NoLostWakeup;
    CutOffHolds(states, actions, n);
    RunKeepsInvariant(states, actions, n);
    assert (states[n].begun + Ahead(states[n]))[i] == states[n].begun[i];
    assert (states[n].begun + Ahead(states[n]))[j] == states[n].begun[j];
  }

  /** The window is real: an approved line is begun after the barge-in, whether that is a purge or a reap. */
  lemma ResidualWindow(s: State, a: Action)
    requires s.ui.Free? && s.worker.Approved? && (a.Purge? || a.Reap?)
    ensures Can(s, a) && Can(Do(s, a), Begin)
    ensures Do(Do(s, a), Begin).begun == s.begun + [s.worker.line]
  {}

  /** A line is pushed, taken and re-checked. */
  lemma ApprovedIsReached() returns (states: seq<State>, actions: seq<Action>)
    ensures Run(states, actions) && states[0] == INITIAL && |actions| == 6
    ensures var s := states[6];
            s.ui.Free? && s.worker == Approved(0) && s.pushed == 1 && s.begun == []
  {
    actions := [Start, Open(true), Push, Look, Signal, Recheck];
    var s1 := Do(INITIAL, Start);
    var s2 := Do(s1, Open(true));
    var s3 := Do(s2, Push);
    var s4 := Do(s3, Look);
    var s5 := Do(s4, Signal);
    states := [INITIAL, s1, s2, s3, s4, s5, Do(s5, Recheck)];
  }

  lemma RunOn(states: seq<State>, actions: seq<Action>, a: Action)
    requires Run(states, actions) && Can(states[|actions|], a)
    ensures Run(states + [Do(states[|actions|], a)], actions + [a])
  {
    hide Do, Can;
    var more, all := states + [Do(states[|actions|], a)], actions + [a];
    forall i | 0 <= i < |all| ensures Can(more[i], all[i]) && more[i + 1] == Do(more[i], all[i]) {
      if i < |actions| {
        assert all[i] == actions[i] && more[i] == states[i] && more[i + 1] == states[i + 1];
      }
    }
  }

  /** And it is reached: then the backlog is thrown away, and the line is begun all the same. */
  lemma WindowIsReached(a: Action) returns (states: seq<State>, actions: seq<Action>)
    requires a.Purge? || a.Reap?
    ensures Run(states, actions) && states[0] == INITIAL && |actions| == 8 && actions[6] == a
    ensures states[6].pushed == 1 && states[6].begun == [] && states[8].begun == [0]
  {
    hide Do, Can, Run;
    states, actions := ApprovedIsReached();
    ResidualWindow(states[6], a);
    RunLength(states, actions);
    RunOn(states, actions, a);
    states, actions := states + [Do(states[6], a)], actions + [a];
    RunOn(states, actions, Begin);
    states, actions := states + [Do(states[7], Begin)], actions + [Begin];
  }

  lemma RunLength(states: seq<State>, actions: seq<Action>)
    requires Run(states, actions)
    ensures |states| == |actions| + 1
  {}

  ghost predicate Closing(s: State, pushed: nat) {
    s.pushed == pushed && (s.ui.ReapOweStop? || s.ui.ReapOweBroadcast? || s.ui.Joining? || s.ui.Off?)
  }

  lemma {:induction false} StaysClosing(states: seq<State>, actions: seq<Action>, n: nat)
    requires Run(states, actions) && 0 < n < |states| && actions[0].Reap?
    requires forall i :: 0 <= i < |actions| ==> !actions[i].Start?
    ensures Closing(states[n], states[0].pushed)
  {
    if n > 1 {
      StaysClosing(states, actions, n - 1);
    }
  }

  /** Once the worker is asked to quit, at most one more line is begun: the one past its re-check. */
  lemma ReapLetsOneThrough(states: seq<State>, actions: seq<Action>, n: nat)
    requires Run(states, actions) && Invariant(states[0]) && 0 < n < |states|
    requires actions[0].Reap? && (forall i :: 0 <= i < |actions| ==> !actions[i].Start?)
    requires forall k :: 0 <= k < |states| ==> Timely(states[k])
    ensures |states[n].begun| <= |states[0].begun| + (if states[0].worker.Approved? then 1 else 0)
  {
    hide Do, Timely, Stamped, Balanced, NoLostWakeup;
    var from := |states[0].begun|;
    StaysClosing(states, actions, n);
    RunKeepsInvariant(states, actions, n);
    var all := states[n].begun + Ahead(states[n]);
    if |states[n].begun| > from {
      BargeIn(states, actions, n, from, from);
      assert all[from] == states[n].begun[from] < states[0].pushed;
      if |states[n].begun| > from + 1 {
        assert all[from + 1] == states[n].begun[from + 1] < states[0].pushed;
        BargeIn(states, actions, n, from, from + 1);
      }
    }
  }

  // ---- progress --------------------------------------------------------------------------

  /** Once the UI thread has nothing left to do, a sleeping worker has nothing to wake for. */
  lemma FreeMeansNothingMissed(s: State)
    requires Invariant(s) && (s.ui.Free? || s.ui.OweStop? || s.ui.Joining?) && s.worker.Asleep?
    ensures |s.shared.queue| == 0 && !s.shared.quit
  {}

  /** Worker steps left before it exits, once it has been asked to quit. */
  function StepsToExit(w: Worker): nat {
    match w
    case Exited => 0
    case Looking => 1
    case Asleep => 2
    case Opening => 2
    case Speaking(_) => 2
    case Approved(_) => 3
    case Holding(_, _, _) => 4
  }

  function WorkerStep(w: Worker): Action
    requires !w.Exited?
  {
    match w
    case Opening => Open(true)
    case Looking => Look
    case Asleep => Spurious
    case Holding(_, _, _) => Recheck
    case Approved(_) => Begin
    case Speaking(_) => Finish
  }

  /** Joining ends: the worker is never asleep then, can always step, and each step brings its exit closer. */
  lemma JoinEnds(s: State, a: Action)
    requires Invariant(s) && s.ui.Joining?
    ensures !s.worker.Asleep?
    ensures s.worker.Exited? ==> Can(s, Join)
    ensures !s.worker.Exited? ==> Can(s, WorkerStep(s.worker))
    ensures Can(s, a) && !a.Join? ==>
              Do(s, a).ui.Joining? && StepsToExit(Do(s, a).worker) < StepsToExit(s.worker)
  {}

  /** What the pump reads as silence is silence: nothing queued and nothing in the worker's hand. */
  lemma IdleIsSilence(s: State)
    requires Invariant(s)
    ensures |s.shared.queue| == 0 && !s.shared.speaking <==> |Ahead(s)| == 0 && !s.worker.Speaking?
  {}
}
