/** Runs of a sequence player's clock and event queue: a scheduler over absolute times, which the
    player's delta-encoded queue refines (see `SequencePlayer.Player`). */
module PlayerRun {
  import opened Agenda
  import opened AudioEventQueue
  import opened Retiming

  /** A tempo change at `clock` took the note-off `from` out and put it back as `to`. */
  datatype Move = Move(clock: int, oldUspt: int, newUspt: int, from: Timed, to: Timed)

  /** `log` lists the events taken out for dispatch with the clock reading at which they are
      dispatched, `gone` the events removed before that, `posted` what every accepted post asked
      for, and `moves` what tempo changes did to waiting note-offs. */
  datatype State = State(clock: int, agenda: seq<Timed>, log: seq<Timed>, gone: seq<Timed>, posted: seq<Timed>,
                         moves: seq<Move>)

  /** What can happen to the queue while a player runs. `room` says that a node was free. */
  datatype Op =
    | Post(evt: Event, delay: int, room: bool)
    | Next(frameTime: int)
    | Remove(what: Pattern)
    | RemoveOne(index: nat)
    | FlushAll
    | Retime(oldUspt: int, newUspt: int)

  const START := State(0, [], [], [], [], [])

  /** When a post asks its event to be dispatched. */
  function Wanted(s: State, delay: int): int {
    if delay == AL_EVTQ_END then LastTime(s.agenda, s.clock) else s.clock + delay
  }

  /** What a tempo change does to the waiting note-offs. */
  function MovesOf(offs: seq<Timed>, clock: int, oldUspt: int, newUspt: int): (r: seq<Move>)
    requires oldUspt > 0
    ensures |r| == |offs|
    ensures forall i :: 0 <= i < |offs| ==>
      r[i] == Move(clock, oldUspt, newUspt, offs[i], RescaleFrom(offs, clock, oldUspt, newUspt)[i])
  {
    var now := RescaleFrom(offs, clock, oldUspt, newUspt);
    seq(|offs|, i requires 0 <= i < |offs| => Move(clock, oldUspt, newUspt, offs[i], now[i]))
  }

  function Step(s: State, op: Op): State {
    match op
    case Post(evt, delay, room) =>
      if !room then s
      else
        var x := Timed(Wanted(s, delay), evt);
        s.(agenda := if delay == AL_EVTQ_END then s.agenda + [x] else StableInsert(s.agenda, x),
           posted := s.posted + [x])
    case Next(frameTime) =>
      if s.agenda == [] then s.(clock := s.clock + HeartbeatDelay(frameTime))
      else s.(clock := s.agenda[0].at, agenda := s.agenda[1..], log := s.log + [s.agenda[0]])
    case Remove(what) =>
      s.(agenda := Filter(s.agenda, Other(what)), gone := s.gone + Filter(s.agenda, what))
    case RemoveOne(index) =>
      if index >= |s.agenda| then s
      else s.(agenda := s.agenda[..index] + s.agenda[index + 1..], gone := s.gone + [s.agenda[index]])
    case FlushAll =>
      s.(agenda := [], gone := s.gone + s.agenda)
    case Retime(oldUspt, newUspt) =>
      if oldUspt <= 0 then s
      else s.(agenda := RetimedFrom(s.agenda, s.clock, oldUspt, newUspt),
              moves := s.moves + MovesOf(Filter(s.agenda, NOTE_OFFS), s.clock, oldUspt, newUspt))
  }

  /** What a post and a dispatch do to the account, spelled out. */
  lemma StepSpelled(s: State, evt: Event, delay: int, frameTime: int)
    ensures delay != 0x7fff_ffff ==>
              Step(s, Post(evt, delay, true)).posted == s.posted + [Timed(s.clock + delay, evt)]
    ensures delay == 0x7fff_ffff ==>
              var at := if s.agenda == [] then s.clock else s.agenda[|s.agenda| - 1].at;
              && Step(s, Post(evt, delay, true)).posted == s.posted + [Timed(at, evt)]
              && Step(s, Post(evt, delay, true)).agenda == s.agenda + [Timed(at, evt)]
    ensures Step(s, Post(evt, delay, false)) == s
    ensures s.agenda == [] ==>
              Step(s, Next(frameTime)) == s.(clock := s.clock + if frameTime > 0 then frameTime else 16000)
    ensures s.agenda != [] ==>
              var x := s.agenda[0];
              Step(s, Next(frameTime)) == s.(clock := x.at, agenda := s.agenda[1..], log := s.log + [x])
  {}

  function Run(s: State, ops: seq<Op>): State
    decreases ops
  {
    if ops == [] then s else Run(Step(s, ops[0]), ops[1..])
  }

  ghost predicate Sooner(a: Timed, b: Timed, moved: set<Event>) {
    a.at < b.at || (a.at == b.at && (a.evt in moved || b.evt in moved || a.evt.payload < b.evt.payload))
  }

  /** Earlier first, and among equal times in post order, except for the note-offs in `moved`. Posts are
      numbered by their payload. */
  ghost predicate Fifo(t: seq<Timed>, moved: set<Event>) {
    forall i, j :: 0 <= i < j < |t| ==> Sooner(t[i], t[j], moved)
  }

  function Moved(moves: seq<Move>): set<Event> {
    set m | m in moves :: m.from.evt
  }

  /** The posts of the run carry the payloads `from`, `from + 1`, and so on, and ask for delays that
      are not negative. */
  ghost predicate Numbered(ops: seq<Op>, from: nat)
    decreases ops
  {
    ops == [] ||
    if ops[0].Post? then
      ops[0].evt.payload == from && ops[0].delay >= 0 && Numbered(ops[1..], from + 1)
    else
      Numbered(ops[1..], from)
  }

  function Froms(moves: seq<Move>): (r: seq<Timed>)
    ensures |r| == |moves|
    ensures forall i :: 0 <= i < |moves| ==> r[i] == moves[i].from
  {
    seq(|moves|, i requires 0 <= i < |moves| => moves[i].from)
  }

  function Tos(moves: seq<Move>): (r: seq<Timed>)
    ensures |r| == |moves|
    ensures forall i :: 0 <= i < |moves| ==> r[i] == moves[i].to
  {
    seq(|moves|, i requires 0 <= i < |moves| => moves[i].to)
  }

  /** Only a waiting note-off moves, and to its time rescaled from the moment of the tempo change. */
  ghost predicate Lawful(m: Move) {
    && Matches(NOTE_OFFS, m.from.evt) && m.oldUspt > 0
    && m.to == Timed(m.clock + Rescaled(m.from.at - m.clock, m.oldUspt, m.newUspt), m.from.evt)
  }

  ghost predicate AllLawful(moves: seq<Move>) {
    forall i :: 0 <= i < |moves| ==> Lawful(moves[i])
  }

  /** What to count in a list: an event due at one time, or an event whatever its time. */
  datatype Query = Exactly(x: Timed) | About(evt: Event)

  function Count(t: seq<Timed>, q: Query): nat {
    if t == [] then 0
    else (if (if q.Exactly? then t[0] == q.x else t[0].evt == q.evt) then 1 else 0) + Count(t[1..], q)
  }

  /** A count is the number of its events, or of the events due at its time. */
  lemma CountSpelled(x: Timed, y: Timed, e: Event)
    ensures Count([], Exactly(y)) == Count([], About(e)) == 0
    ensures Count([x], Exactly(y)) == (if x == y then 1 else 0)
    ensures Count([x], About(e)) == (if x.evt == e then 1 else 0)
  {
    assert [x][1..] == [];
  }

  ghost predicate Accounted(s: State, q: Query) {
    Count(s.posted, q) + Count(Tos(s.moves), q) ==
    Count(s.log, q) + Count(s.agenda, q) + Count(s.gone, q) + Count(Froms(s.moves), q)
  }

  /** Every accepted post, and every note-off put back at a new time, is in exactly one place: dispatched,
      waiting, removed, or taken out by a tempo change to be put back. */
  ghost predicate Balanced(s: State) {
    AllLawful(s.moves) && forall q: Query :: Accounted(s, q)
  }

  ghost predicate Ordered(s: State, next: nat) {
    && Fifo(s.log + s.agenda, Moved(s.moves))
    && (forall i :: 0 <= i < |s.log| ==> s.log[i].at <= s.clock && s.log[i].evt.payload < next)
    && (forall i :: 0 <= i < |s.agenda| ==> s.agenda[i].at >= s.clock && s.agenda[i].evt.payload < next)
  }

  ghost predicate Ahead(t: seq<Timed>, clock: int, oldUspt: int, newUspt: int)
    requires oldUspt > 0
  {
    forall i :: 0 <= i < |t| && Matches(NOTE_OFFS, t[i].evt) ==> Rescaled(t[i].at - clock, oldUspt, newUspt) >= 0
  }

  /** A tempo change puts no waiting note-off behind the clock: the top bit of every rescaled product
      is clear. */
  ghost predicate LooksAhead(s: State, op: Op) {
    op.Retime? && op.oldUspt > 0 ==> Ahead(s.agenda, s.clock, op.oldUspt, op.newUspt)
  }

  /** All tempo changes of a run do so. */
  ghost predicate Tame(s: State, ops: seq<Op>)
    decreases ops
  {
    ops == [] || (LooksAhead(s, ops[0]) && Tame(Step(s, ops[0]), ops[1..]))
  }

  function NumberAfter(op: Op, next: nat): nat {
    if op.Post? then next + 1 else next
  }

  /** The events are in order at every point of a run. */
  ghost predicate OrderedThroughout(s: State, ops: seq<Op>, next: nat)
    decreases ops
  {
    Ordered(s, next) && (ops == [] || OrderedThroughout(Step(s, ops[0]), ops[1..], NumberAfter(ops[0], next)))
  }

  // ---- conservation ---------------------------------------------------------------

  lemma {:induction false} CountAppend(a: seq<Timed>, b: seq<Timed>, q: Query)
    ensures Count(a + b, q) == Count(a, q) + Count(b, q)
  {
    if a == [] {
      assert a + b == b;
    } else {
      assert (a + b)[1..] == a[1..] + b;
      CountAppend(a[1..], b, q);
    }
  }

  lemma {:induction false} CountFilter(t: seq<Timed>, what: Pattern, q: Query)
    ensures Count(t, q) == Count(Filter(t, what), q) + Count(Filter(t, Other(what)), q)
  {
    if t != [] {
      CountFilter(t[1..], what, q);
    }
  }

  lemma {:induction false} CountInsert(t: seq<Timed>, x: Timed, q: Query)
    ensures Count(StableInsert(t, x), q) == Count(t, q) + Count([x], q)
  {
    var r := StableInsert(t, x);
    if t != [] && x.at >= t[0].at {
      CountInsert(t[1..], x, q);
      assert r[1..] == StableInsert(t[1..], x);
    } else {
      assert r[1..] == t;
    }
  }

  lemma {:induction false} CountInsertAll(t: seq<Timed>, xs: seq<Timed>, q: Query)
    ensures Count(InsertAll(t, xs), q) == Count(t, q) + Count(xs, q)
    decreases xs
  {
    if xs != [] {
      CountInsert(t, xs[0], q);
      CountInsertAll(StableInsert(t, xs[0]), xs[1..], q);
      CountAppend([xs[0]], xs[1..], q);
      assert xs == [xs[0]] + xs[1..];
    }
  }

  lemma CountRemove(t: seq<Timed>, k: nat, q: Query)
    requires k < |t|
    ensures Count(t, q) == Count(t[..k] + t[k + 1..], q) + Count([t[k]], q)
  {
    assert t == t[..k] + ([t[k]] + t[k + 1..]);
    CountAppend(t[..k], [t[k]] + t[k + 1..], q);
    CountAppend([t[k]], t[k + 1..], q);
    CountAppend(t[..k], t[k + 1..], q);
  }

  lemma PostKeepsAccount(s: State, evt: Event, delay: int, q: Query)
    requires Accounted(s, q)
    ensures Accounted(Step(s, Post(evt, delay, true)), q)
  {
    var x := Timed(Wanted(s, delay), evt);
    CountInsert(s.agenda, x, q);
    CountAppend(s.agenda, [x], q);
    CountAppend(s.posted, [x], q);
    hide Count, Wanted, StableInsert;
  }

  lemma NextKeepsAccount(s: State, frameTime: int, q: Query)
    requires Accounted(s, q)
    ensures Accounted(Step(s, Next(frameTime)), q)
  {
    if s.agenda != [] {
      CountRemove(s.agenda, 0, q);
      assert s.agenda[..0] + s.agenda[1..] == s.agenda[1..];
      CountAppend(s.log, [s.agenda[0]], q);
      hide Count;
    }
  }

  lemma RemoveKeepsAccount(s: State, what: Pattern, q: Query)
    requires Accounted(s, q)
    ensures Accounted(Step(s, Remove(what)), q)
  {
    CountFilter(s.agenda, what, q);
    CountAppend(s.gone, Filter(s.agenda, what), q);
    hide Count, Filter;
  }

  lemma RemoveOneKeepsAccount(s: State, index: nat, q: Query)
    requires Accounted(s, q)
    ensures Accounted(Step(s, RemoveOne(index)), q)
  {
    if index < |s.agenda| {
      CountRemove(s.agenda, index, q);
      CountAppend(s.gone, [s.agenda[index]], q);
      hide Count;
    }
  }

  lemma FlushKeepsAccount(s: State, q: Query)
    requires Accounted(s, q)
    ensures Accounted(Step(s, FlushAll), q)
  {
    CountAppend(s.gone, s.agenda, q);
    assert Count([], q) == 0;
    hide Count;
  }

  lemma MovesAppend(a: seq<Move>, b: seq<Move>)
    ensures Froms(a + b) == Froms(a) + Froms(b) && Tos(a + b) == Tos(a) + Tos(b)
    ensures Moved(a + b) == Moved(a) + Moved(b)
  {}

  /** What a tempo change does to the counts of the waiting events. */
  lemma CountRetimed(t: seq<Timed>, clock: int, oldUspt: int, newUspt: int, q: Query)
    requires oldUspt > 0
    ensures var offs := Filter(t, NOTE_OFFS);
            Count(t, q) + Count(RescaleFrom(offs, clock, oldUspt, newUspt), q)
              == Count(RetimedFrom(t, clock, oldUspt, newUspt), q) + Count(offs, q)
  {
    CountFilter(t, NOTE_OFFS, q);
    CountInsertAll(Filter(t, Other(NOTE_OFFS)), RescaleFrom(Filter(t, NOTE_OFFS), clock, oldUspt, newUspt), q);
  }

  lemma CountMoves(moves: seq<Move>, offs: seq<Timed>, clock: int, oldUspt: int, newUspt: int, q: Query)
    requires oldUspt > 0
    ensures var more := moves + MovesOf(offs, clock, oldUspt, newUspt);
      && Count(Froms(more), q) == Count(Froms(moves), q) + Count(offs, q)
      && Count(Tos(more), q) == Count(Tos(moves), q) + Count(RescaleFrom(offs, clock, oldUspt, newUspt), q)
  {
    var more, now := MovesOf(offs, clock, oldUspt, newUspt), RescaleFrom(offs, clock, oldUspt, newUspt);
    hide Count, Rescaled;
    MovesAppend(moves, more);
    assert Froms(more) == offs && Tos(more) == now;
    CountAppend(Froms(moves), offs, q);
    CountAppend(Tos(moves), now, q);
  }

  lemma RetimeKeepsAccount(s: State, oldUspt: int, newUspt: int, q: Query)
    requires Accounted(s, q) && oldUspt > 0
    ensures Accounted(Step(s, Retime(oldUspt, newUspt)), q)
  {
    hide Count, Filter, RetimedFrom, Froms, Tos;
    CountRetimed(s.agenda, s.clock, oldUspt, newUspt, q);
    CountMoves(s.moves, Filter(s.agenda, NOTE_OFFS), s.clock, oldUspt, newUspt, q);
  }

  lemma StepKeepsAccount(s: State, op: Op, q: Query)
    requires Accounted(s, q)
    ensures Accounted(Step(s, op), q)
  {
    hide Accounted;
    match op
    case Post(evt, delay, room) =>
      if room {
        PostKeepsAccount(s, evt, delay, q);
      }
    case Next(frameTime) => NextKeepsAccount(s, frameTime, q);
    case Remove(what) => RemoveKeepsAccount(s, what, q);
    case RemoveOne(index) => RemoveOneKeepsAccount(s, index, q);
    case FlushAll => FlushKeepsAccount(s, q);
    case Retime(oldUspt, newUspt) =>
      if oldUspt > 0 {
        RetimeKeepsAccount(s, oldUspt, newUspt, q);
      }
  }

  /** A step only ever moves note-offs, and only as it should. */
  lemma StepKeepsLaw(s: State, op: Op)
    requires AllLawful(s.moves)
    ensures AllLawful(Step(s, op).moves)
  {
    if op.Retime? && op.oldUspt > 0 {
      var offs := Filter(s.agenda, NOTE_OFFS);
      var moves := MovesOf(offs, s.clock, op.oldUspt, op.newUspt);
      forall i | 0 <= i < |offs| ensures Lawful(moves[i]) { FilterAllMatch(s.agenda, NOTE_OFFS, i); }
      hide Filter, RetimedFrom, Rescaled, Lawful;
      assert forall i :: 0 <= i < |s.moves + moves| ==>
        (s.moves + moves)[i] == if i < |s.moves| then s.moves[i] else moves[i - |s.moves|];
    }
  }

  lemma StepKeepsBalance(s: State, op: Op)
    requires Balanced(s)
    ensures Balanced(Step(s, op))
  {
    hide Accounted, AllLawful, Step;
    StepKeepsLaw(s, op);
    forall q: Query ensures Accounted(Step(s, op), q) { StepKeepsAccount(s, op, q); }
  }

  /** Putting note-offs back elsewhere changes no count but theirs, and no count of an event. */
  lemma {:induction false} MovesCount(moves: seq<Move>, q: Query)
    requires AllLawful(moves) && (q.Exactly? ==> q.x.evt !in Moved(moves))
    ensures Count(Froms(moves), q) == Count(Tos(moves), q)
  {
    if moves != [] {
      assert Lawful(moves[0]) && moves[0].from.evt in Moved(moves);
      assert Moved(moves[1..]) <= Moved(moves);
      forall i | 0 <= i < |moves| - 1 ensures Lawful(moves[1..][i]) { assert Lawful(moves[i + 1]); }
      MovesCount(moves[1..], q);
      assert Froms(moves)[1..] == Froms(moves[1..]) && Tos(moves)[1..] == Tos(moves[1..]);
    }
  }

  lemma MovedAreNoteOffs(moves: seq<Move>, e: Event)
    requires AllLawful(moves) && e in Moved(moves)
    ensures Matches(NOTE_OFFS, e)
  {
    var m :| m in moves && m.from.evt == e;
    assert Lawful(m);
  }

  /** No event is lost or doubled, note-offs included, and whatever no tempo change has moved keeps the
      time it was posted for. */
  lemma BalancedMeans(s: State, q: Query)
    requires Balanced(s) && (q.Exactly? ==> q.x.evt !in Moved(s.moves))
    ensures Count(s.posted, q) == Count(s.log, q) + Count(s.agenda, q) + Count(s.gone, q)
  {
    assert Accounted(s, q);
    MovesCount(s.moves, q);
  }

  // ---- order ----------------------------------------------------------------------

  lemma FifoSorted(log: seq<Timed>, t: seq<Timed>, moved: set<Event>)
    requires Fifo(log + t, moved)
    ensures Sorted(t) && Fifo(t, moved)
  {
    forall i, j | 0 <= i < j < |t| ensures Sooner(t[i], t[j], moved) {
      assert (log + t)[|log| + i] == t[i] && (log + t)[|log| + j] == t[j];
    }
  }

  lemma FifoGrows(t: seq<Timed>, moved: set<Event>, more: set<Event>)
    requires Fifo(t, moved) && moved <= more
    ensures Fifo(t, more)
  {
    forall i, j | 0 <= i < j < |t| ensures Sooner(t[i], t[j], more) {
      assert Sooner(t[i], t[j], moved);
    }
  }

  /** A later post, or a note-off that has moved, goes in behind everything wanted no later. */
  lemma FifoInsert(t: seq<Timed>, k: nat, x: Timed, moved: set<Event>)
    requires Fifo(t, moved) && k <= |t|
    requires forall j :: 0 <= j < k ==> t[j].at <= x.at && (x.evt in moved || t[j].evt.payload < x.evt.payload)
    requires forall j :: k <= j < |t| ==> x.at < t[j].at
    ensures Fifo(t[..k] + [x] + t[k..], moved)
  {
    var r := t[..k] + [x] + t[k..];
    forall i, j | 0 <= i < j < |r| ensures Sooner(r[i], r[j], moved) {
      assert i != k ==> r[i] == t[if i < k then i else i - 1];
      assert j != k ==> r[j] == t[if j < k then j else j - 1];
    }
  }

  lemma FifoRemove(t: seq<Timed>, k: nat, moved: set<Event>)
    requires Fifo(t, moved) && k < |t|
    ensures Fifo(t[..k] + t[k + 1..], moved)
  {
    var r := t[..k] + t[k + 1..];
    forall i, j | 0 <= i < j < |r| ensures Sooner(r[i], r[j], moved) {
      assert r[i] == t[if i < k then i else i + 1];
      assert r[j] == t[if j < k then j else j + 1];
    }
  }

  lemma {:induction false} FifoFilter(log: seq<Timed>, t: seq<Timed>, what: Pattern, moved: set<Event>)
    requires Fifo(log + t, moved)
    ensures Fifo(log + Filter(t, what), moved)
    decreases t
  {
    if t != [] {
      if Matches(what, t[0].evt) {
        assert log + t == (log + [t[0]]) + t[1..];
        FifoFilter(log + [t[0]], t[1..], what, moved);
        assert (log + [t[0]]) + Filter(t[1..], what) == log + Filter(t, what);
      } else {
        FifoRemove(log + t, |log|, moved);
        assert (log + t)[..|log|] + (log + t)[|log| + 1..] == log + t[1..];
        FifoFilter(log, t[1..], what, moved);
      }
    }
  }

  lemma FifoPost(log: seq<Timed>, t: seq<Timed>, k: nat, x: Timed, moved: set<Event>)
    requires Fifo(log + t, moved) && k <= |t|
    requires forall i :: 0 <= i < |log| ==> log[i].at <= x.at && (x.evt in moved || log[i].evt.payload < x.evt.payload)
    requires forall i :: 0 <= i < k ==> t[i].at <= x.at && (x.evt in moved || t[i].evt.payload < x.evt.payload)
    requires forall i :: k <= i < |t| ==> x.at < t[i].at
    ensures Fifo(log + (t[..k] + [x] + t[k..]), moved)
  {
    var all, m := log + t, |log| + k;
    assert log + (t[..k] + [x] + t[k..]) == all[..m] + [x] + all[m..];
    FifoInsert(all, m, x, moved);
  }

  ghost predicate AllMoved(xs: seq<Timed>, clock: int, moved: set<Event>) {
    forall i :: 0 <= i < |xs| ==> xs[i].at >= clock && xs[i].evt in moved
  }

  /** Note-offs that have moved go in one after the other. */
  lemma {:induction false} FifoMoveAll(log: seq<Timed>, t: seq<Timed>, xs: seq<Timed>, clock: int, moved: set<Event>)
    requires Fifo(log + t, moved) && AllMoved(xs, clock, moved)
    requires forall i :: 0 <= i < |log| ==> log[i].at <= clock
    ensures Fifo(log + InsertAll(t, xs), moved)
    decreases xs
  {
    if xs != [] {
      var x := xs[0];
      FifoSorted(log, t, moved);
      StableInsertPlaces(t, x);
      hide Fifo;
      FifoPost(log, t, PlaceFor(t, x.at), x, moved);
      FifoMoveAll(log, StableInsert(t, x), xs[1..], clock, moved);
    }
  }

  /** Where a post goes. */
  lemma PostPlaces(s: State, evt: Event, delay: int) returns (k: nat)
    requires Sorted(s.agenda)
    ensures var x := Timed(Wanted(s, delay), evt);
      && k <= |s.agenda| && Step(s, Post(evt, delay, true)).agenda == s.agenda[..k] + [x] + s.agenda[k..]
      && (forall i :: 0 <= i < k ==> s.agenda[i].at <= x.at)
      && (forall i :: k <= i < |s.agenda| ==> x.at < s.agenda[i].at)
  {
    var x := Timed(Wanted(s, delay), evt);
    if delay == AL_EVTQ_END {
      k := |s.agenda|;
      assert s.agenda[..k] + [x] + s.agenda[k..] == s.agenda + [x];
    } else {
      StableInsertPlaces(s.agenda, x);
      k := PlaceFor(s.agenda, x.at);
    }
  }

  lemma PostKeepsOrder(s: State, evt: Event, delay: int, next: nat)
    requires Ordered(s, next) && delay >= 0 && evt.payload == next
    ensures Ordered(Step(s, Post(evt, delay, true)), next + 1)
  {
    var x := Timed(Wanted(s, delay), evt);
    FifoSorted(s.log, s.agenda, Moved(s.moves));
    var k := PostPlaces(s, evt, delay);
    assert x.at >= s.clock;
    hide Fifo;
    FifoPost(s.log, s.agenda, k, x, Moved(s.moves));
    var a := Step(s, Post(evt, delay, true)).agenda;
    assert Fifo(s.log + a, Moved(s.moves));
    hide Step, Wanted, StableInsert;
    forall i | 0 <= i < |a| ensures a[i].at >= s.clock && a[i].evt.payload < next + 1 {
      assert a[i] == if i < k then s.agenda[i] else if i == k then x else s.agenda[i - 1];
    }
  }

  lemma NextKeepsOrder(s: State, frameTime: int, next: nat)
    requires Ordered(s, next)
    ensures Ordered(Step(s, Next(frameTime)), next)
  {
    if s.agenda != [] {
      FifoSorted(s.log, s.agenda, Moved(s.moves));
      assert (s.log + [s.agenda[0]]) + s.agenda[1..] == s.log + s.agenda;
    }
  }

  lemma RemoveKeepsOrder(s: State, what: Pattern, next: nat)
    requires Ordered(s, next)
    ensures Ordered(Step(s, Remove(what)), next)
  {
    var f := Filter(s.agenda, Other(what));
    FifoFilter(s.log, s.agenda, Other(what), Moved(s.moves));
    forall i | 0 <= i < |f| ensures f[i] in s.agenda {
      assert f[i] in f;
      FilterMember(s.agenda, Other(what), f[i]);
    }
  }

  lemma RemoveOneKeepsOrder(s: State, index: nat, next: nat)
    requires Ordered(s, next)
    ensures Ordered(Step(s, RemoveOne(index)), next)
  {
    if index < |s.agenda| {
      var t, m, a := s.log + s.agenda, |s.log| + index, s.agenda[..index] + s.agenda[index + 1..];
      FifoRemove(t, m, Moved(s.moves));
      assert t[..m] + t[m + 1..] == s.log + a;
      hide Fifo;
      forall i | 0 <= i < |a| ensures a[i] in s.agenda {
        assert a[i] == s.agenda[if i < index then i else i + 1];
      }
    }
  }

  lemma FlushKeepsOrder(s: State, next: nat)
    requires Ordered(s, next)
    ensures Ordered(Step(s, FlushAll), next)
  {
    var t := s.log + s.agenda;
    assert forall i :: 0 <= i < |s.log| ==> t[i] == s.log[i];
    assert s.log + [] == s.log;
  }

  ghost predicate MovedTo(y: Timed, clock: int, oldUspt: int, newUspt: int, x: Timed)
    requires oldUspt > 0
  {
    Matches(NOTE_OFFS, y.evt) && x == Timed(clock + Rescaled(y.at - clock, oldUspt, newUspt), y.evt)
  }

  lemma MovedFrom(t: seq<Timed>, clock: int, oldUspt: int, newUspt: int, x: Timed) returns (y: Timed)
    requires oldUspt > 0 && x in RescaleFrom(Filter(t, NOTE_OFFS), clock, oldUspt, newUspt)
    ensures y in t && MovedTo(y, clock, oldUspt, newUspt, x)
  {
    var offs := Filter(t, NOTE_OFFS);
    hide Filter, Rescaled;
    var i :| 0 <= i < |offs| && RescaleFrom(offs, clock, oldUspt, newUspt)[i] == x;
    y := offs[i];
    FilterMember(t, NOTE_OFFS, y);
  }

  /** Nothing waits for a time the clock has passed, after a tempo change that looks ahead. */
  lemma RetimedAhead(t: seq<Timed>, clock: int, oldUspt: int, newUspt: int, x: Timed, next: nat)
    requires oldUspt > 0 && Ahead(t, clock, oldUspt, newUspt) && x in RetimedFrom(t, clock, oldUspt, newUspt)
    requires forall i :: 0 <= i < |t| ==> t[i].at >= clock && t[i].evt.payload < next
    ensures x.at >= clock && x.evt.payload < next
  {
    var now := RescaleFrom(Filter(t, NOTE_OFFS), clock, oldUspt, newUspt);
    InsertAllMember(Filter(t, Other(NOTE_OFFS)), now, x);
    FilterMember(t, Other(NOTE_OFFS), x);
    hide RetimedFrom, RescaleFrom, Rescaled, Filter;
    if x in now {
      var y := MovedFrom(t, clock, oldUspt, newUspt, x);
    }
  }

  lemma RetimeKeepsAhead(s: State, op: Op, next: nat)
    requires Ordered(s, next) && op.Retime? && op.oldUspt > 0 && LooksAhead(s, op)
    ensures var a := Step(s, op).agenda;
            forall i :: 0 <= i < |a| ==> a[i].at >= s.clock && a[i].evt.payload < next
  {
    var a := RetimedFrom(s.agenda, s.clock, op.oldUspt, op.newUspt);
    hide RetimedFrom, Rescaled, Ahead, Fifo;
    forall i | 0 <= i < |a| ensures a[i].at >= s.clock && a[i].evt.payload < next {
      RetimedAhead(s.agenda, s.clock, op.oldUspt, op.newUspt, a[i], next);
    }
  }

  /** The note-offs of a list go back at or after the clock, and count as moved. */
  lemma MovesGoAhead(offs: seq<Timed>, moves: seq<Move>, clock: int, oldUspt: int, newUspt: int)
    requires oldUspt > 0 && Ahead(offs, clock, oldUspt, newUspt)
    requires forall i :: 0 <= i < |offs| ==> Matches(NOTE_OFFS, offs[i].evt)
    ensures AllMoved(RescaleFrom(offs, clock, oldUspt, newUspt), clock,
                     Moved(moves + MovesOf(offs, clock, oldUspt, newUspt)))
  {
    var now, more := RescaleFrom(offs, clock, oldUspt, newUspt), MovesOf(offs, clock, oldUspt, newUspt);
    forall i | 0 <= i < |now| ensures now[i].evt in Moved(moves + more) {
      assert (moves + more)[|moves| + i] == more[i];
    }
  }

  lemma NoteOffsAhead(t: seq<Timed>, clock: int, oldUspt: int, newUspt: int)
    requires oldUspt > 0 && Ahead(t, clock, oldUspt, newUspt)
    ensures Ahead(Filter(t, NOTE_OFFS), clock, oldUspt, newUspt)
  {
    var offs := Filter(t, NOTE_OFFS);
    forall i | 0 <= i < |offs| ensures Rescaled(offs[i].at - clock, oldUspt, newUspt) >= 0 {
      FilterMember(t, NOTE_OFFS, offs[i]);
      hide Filter, Rescaled;
    }
  }

  lemma KeptFifo(log: seq<Timed>, t: seq<Timed>, moves: seq<Move>, more: seq<Move>)
    requires Fifo(log + t, Moved(moves))
    ensures Fifo(log + Filter(t, Other(NOTE_OFFS)), Moved(moves + more))
  {
    FifoFilter(log, t, Other(NOTE_OFFS), Moved(moves));
    MovesAppend(moves, more);
    hide Fifo, Filter, Moved;
    FifoGrows(log + Filter(t, Other(NOTE_OFFS)), Moved(moves), Moved(moves + more));
  }

  /** A tempo change that looks ahead keeps the order of what has been dispatched and what waits. */
  lemma RetimedFifo(log: seq<Timed>, t: seq<Timed>, moves: seq<Move>, clock: int, oldUspt: int, newUspt: int)
    requires oldUspt > 0 && Fifo(log + t, Moved(moves))
    requires forall i :: 0 <= i < |log| ==> log[i].at <= clock
    requires Ahead(t, clock, oldUspt, newUspt)
    ensures Fifo(log + RetimedFrom(t, clock, oldUspt, newUspt),
                 Moved(moves + MovesOf(Filter(t, NOTE_OFFS), clock, oldUspt, newUspt)))
  {
    var offs, kept := Filter(t, NOTE_OFFS), Filter(t, Other(NOTE_OFFS));
    var more := MovesOf(offs, clock, oldUspt, newUspt);
    NoteOffsAhead(t, clock, oldUspt, newUspt);
    KeptFifo(log, t, moves, more);
    forall i | 0 <= i < |offs| ensures Matches(NOTE_OFFS, offs[i].evt) { FilterAllMatch(t, NOTE_OFFS, i); }
    hide Fifo, Filter, InsertAll, Rescaled, Moved, Matches, AllMoved, Ahead;
    MovesGoAhead(offs, moves, clock, oldUspt, newUspt);
    FifoMoveAll(log, kept, RescaleFrom(offs, clock, oldUspt, newUspt), clock, Moved(moves + more));
  }

  /** Where a waiting note-off ends up. */
  lemma MovedIn(t: seq<Timed>, clock: int, oldUspt: int, newUspt: int, y: Timed)
    requires oldUspt > 0 && y in t && Matches(NOTE_OFFS, y.evt)
    ensures Timed(clock + Rescaled(y.at - clock, oldUspt, newUspt), y.evt) in RetimedFrom(t, clock, oldUspt, newUspt)
  {
    var offs, kept := Filter(t, NOTE_OFFS), Filter(t, Other(NOTE_OFFS));
    var now := RescaleFrom(offs, clock, oldUspt, newUspt);
    var x := Timed(clock + Rescaled(y.at - clock, oldUspt, newUspt), y.evt);
    FilterMember(t, NOTE_OFFS, y);
    hide Filter, Rescaled, Matches, InsertAll;
    var i :| 0 <= i < |offs| && offs[i] == y;
    assert now[i] == x;
    InsertAllMember(kept, now, x);
  }

  /** A tempo change that does not look ahead leaves a note-off behind the clock. */
  lemma RetimeBreaksOrder(s: State, op: Op, next: nat)
    requires op.Retime? && !LooksAhead(s, op)
    ensures !Ordered(Step(s, op), next)
  {
    var k :| 0 <= k < |s.agenda| && Matches(NOTE_OFFS, s.agenda[k].evt)
             && Rescaled(s.agenda[k].at - s.clock, op.oldUspt, op.newUspt) < 0;
    hide RetimedFrom, Rescaled, Fifo, Matches;
    MovedIn(s.agenda, s.clock, op.oldUspt, op.newUspt, s.agenda[k]);
  }

  /** A step keeps events in order, except for a tempo change whose rescaled product turns negative. */
  lemma StepKeepsOrder(s: State, op: Op, next: nat)
    requires Ordered(s, next) && Numbered([op], next)
    ensures Ordered(Step(s, op), NumberAfter(op, next)) <==> LooksAhead(s, op)
  {
    match op
    case Post(evt, delay, room) =>
      if room {
        PostKeepsOrder(s, evt, delay, next);
      }
    case Next(frameTime) => NextKeepsOrder(s, frameTime, next);
    case Remove(what) => RemoveKeepsOrder(s, what, next);
    case RemoveOne(index) => RemoveOneKeepsOrder(s, index, next);
    case FlushAll => FlushKeepsOrder(s, next);
    case Retime(oldUspt, newUspt) =>
      if !LooksAhead(s, op) {
        RetimeBreaksOrder(s, op, next);
      } else if oldUspt > 0 {
        RetimeKeepsAhead(s, op, next);
        RetimedFifo(s.log, s.agenda, s.moves, s.clock, oldUspt, newUspt);
      }
  }

  /** Products that fit in 32 bits look ahead. */
  lemma FittingLooksAhead(s: State, oldUspt: int, newUspt: int)
    requires oldUspt > 0 && newUspt >= 0 && forall i :: 0 <= i < |s.agenda| ==> s.agenda[i].at >= s.clock
    requires Fits(Shift(s.agenda, -s.clock), oldUspt, newUspt)
    ensures LooksAhead(s, Retime(oldUspt, newUspt))
  {
    var t := Shift(s.agenda, -s.clock);
    forall i | 0 <= i < |s.agenda| && Matches(NOTE_OFFS, s.agenda[i].evt)
      ensures Rescaled(s.agenda[i].at - s.clock, oldUspt, newUspt) >= 0
    {
      assert Matches(NOTE_OFFS, t[i].evt);
      RescaledExactly(t[i].at, oldUspt, newUspt);
      RescaleMonotone(0, t[i].at, oldUspt, newUspt);
    }
  }

  /** Over every run the account balances, and the events are in order throughout if and only if every
      tempo change looks ahead. */
  lemma {:induction false} RunInvariant(s: State, ops: seq<Op>, next: nat)
    requires Balanced(s) && Ordered(s, next) && Numbered(ops, next)
    ensures Balanced(Run(s, ops))
    ensures OrderedThroughout(s, ops, next) <==> Tame(s, ops)
    decreases ops
  {
    if ops != [] {
      StepKeepsBalance(s, ops[0]);
      StepKeepsOrder(s, ops[0], next);
      if LooksAhead(s, ops[0]) {
        RunInvariant(Step(s, ops[0]), ops[1..], NumberAfter(ops[0], next));
      } else {
        RunKeepsBalance(Step(s, ops[0]), ops[1..]);
      }
    }
  }

  lemma {:induction false} RunKeepsBalance(s: State, ops: seq<Op>)
    requires Balanced(s)
    ensures Balanced(Run(s, ops))
    decreases ops
  {
    if ops != [] {
      StepKeepsBalance(s, ops[0]);
      RunKeepsBalance(Step(s, ops[0]), ops[1..]);
    }
  }

  lemma {:induction false} OrderedAtTheEnd(s: State, ops: seq<Op>, next: nat) returns (n: nat)
    requires OrderedThroughout(s, ops, next)
    ensures Ordered(Run(s, ops), n)
    decreases ops
  {
    n := next;
    if ops != [] {
      n := OrderedAtTheEnd(Step(s, ops[0]), ops[1..], NumberAfter(ops[0], next));
    }
  }

  /** What a player's run dispatches, tempo changes included. Nothing is lost, and every event that no tempo
      change has moved is dispatched at the time its post asked for. Only note-offs move, and each time to
      their due time rescaled from that tempo change. As long as rescaled products do not turn negative,
      and only then, no event is ever waiting behind the clock, and dispatches come in time order and,
      but for note-offs that have moved, first in, first out among equal times. */
  lemma DispatchedOnTimeInOrder(ops: seq<Op>)
    requires Numbered(ops, 0)
    ensures var r := Run(START, ops);
      && (forall q: Query :: (q.Exactly? ==> q.x.evt !in Moved(r.moves)) ==>
            Count(r.posted, q) == Count(r.log, q) + Count(r.agenda, q) + Count(r.gone, q))
      && (forall q: Query :: Accounted(r, q)) && AllLawful(r.moves)
      && (forall e :: e in Moved(r.moves) ==> Matches(NOTE_OFFS, e))
      && (OrderedThroughout(START, ops, 0) <==> Tame(START, ops))
      && (Tame(START, ops) ==>
            && Fifo(r.log + r.agenda, Moved(r.moves))
            && (forall i :: 0 <= i < |r.log| ==> r.log[i].at <= r.clock)
            && (forall i :: 0 <= i < |r.agenda| ==> r.clock <= r.agenda[i].at))
  {
    hide *;
    var r := Run(START, ops);
    StartIsSound();
    RunInvariant(START, ops, 0);
    BalancedParts(r);
    forall q: Query | q.Exactly? ==> q.x.evt !in Moved(r.moves)
      ensures Count(r.posted, q) == Count(r.log, q) + Count(r.agenda, q) + Count(r.gone, q)
    {
      BalancedMeans(r, q);
    }
    forall e | e in Moved(r.moves) ensures Matches(NOTE_OFFS, e) { MovedAreNoteOffs(r.moves, e); }
    if Tame(START, ops) {
      var n := OrderedAtTheEnd(START, ops, 0);
      OrderedParts(r, n);
    }
  }

  /** A run may end with one more step. */
  lemma {:induction false} RunAppend(s: State, ops: seq<Op>, op: Op)
    ensures Run(s, ops + [op]) == Step(Run(s, ops), op)
    decreases ops
  {
    hide Step;
    if ops == [] {
      assert Run(Step(s, op), []) == Step(s, op);
      assert [] + [op] == [op] && [op][1..] == [];
    } else {
      assert (ops + [op])[1..] == ops[1..] + [op];
      RunAppend(Step(s, ops[0]), ops[1..], op);
    }
  }

  /** A note-off due 2^30 ticks of one microsecond from now, when a tick becomes two microseconds long: the
      product has its top bit set, and the note-off waits behind the clock. */
  lemma TopBitRunsBack()
    ensures var ops := [Post(Event(AL_CSP_NOTEOFF_EVT, 0, 0), 0x4000_0000, true), Retime(1, 2)];
      && Numbered(ops, 0) && !Tame(START, ops) && !OrderedThroughout(START, ops, 0)
      && Run(START, ops).agenda == [Timed(-0x8000_0000, Event(AL_CSP_NOTEOFF_EVT, 0, 0))] && Run(START, ops).clock == 0
  {
    var x := Timed(0x4000_0000, Event(AL_CSP_NOTEOFF_EVT, 0, 0));
    var ops := [Post(x.evt, x.at, true), Retime(1, 2)];
    TopBitPosted(x);
    TopBitRetimed(x);
    RunOfTwo(ops);
    StartIsSound();
    hide *;
    RunInvariant(START, ops, 0);
  }

  lemma TopBitPosted(x: Timed)
    requires x == Timed(0x4000_0000, Event(AL_CSP_NOTEOFF_EVT, 0, 0))
    ensures var s := Step(START, Post(x.evt, x.at, true));
            s.agenda == [x] && s.clock == 0 && !LooksAhead(s, Retime(1, 2))
  {
    var s := Step(START, Post(x.evt, x.at, true));
    assert s.agenda[0] == x;
    assert Rescaled(x.at, 1, 2) == -0x8000_0000;
  }

  lemma TopBitRetimed(x: Timed)
    requires x == Timed(0x4000_0000, Event(AL_CSP_NOTEOFF_EVT, 0, 0))
    ensures RetimedFrom([x], 0, 1, 2) == [Timed(-0x8000_0000, x.evt)]
  {
    var y := Timed(-0x8000_0000, x.evt);
    assert Filter([x], NOTE_OFFS) == [x] && Filter([x], Other(NOTE_OFFS)) == [] by { assert [x][1..] == []; }
    assert RescaleFrom([x], 0, 1, 2) == [y];
    assert InsertAll([], [y]) == [y] by { assert [y][1..] == [] && StableInsert([], y) == [y]; }
  }

  lemma RunOfTwo(ops: seq<Op>)
    requires |ops| == 2
    ensures Run(START, ops) == Step(Step(START, ops[0]), ops[1])
    ensures ops[0].Post? && ops[0].evt.payload == 0 && ops[0].delay >= 0 && !ops[1].Post? ==> Numbered(ops, 0)
    ensures !LooksAhead(Step(START, ops[0]), ops[1]) ==> !Tame(START, ops)
  {
    hide Step, LooksAhead;
    var more := ops[1..];
    assert more[0] == ops[1] && more[1..] == [];
    if !ops[1].Post? {
      assert Numbered(more[1..], 1);
      assert Numbered(more, 1);
    }
    assert Run(Step(START, ops[0]), more) == Run(Step(Step(START, ops[0]), ops[1]), []);
  }

  lemma StartIsSound()
    ensures Balanced(START) && Ordered(START, 0)
  {}

  lemma BalancedParts(s: State)
    requires Balanced(s)
    ensures AllLawful(s.moves) && forall q: Query :: Accounted(s, q)
  {}

  lemma OrderedParts(s: State, next: nat)
    requires Ordered(s, next)
    ensures Fifo(s.log + s.agenda, Moved(s.moves))
    ensures forall i :: 0 <= i < |s.log| ==> s.log[i].at <= s.clock
    ensures forall i :: 0 <= i < |s.agenda| ==> s.clock <= s.agenda[i].at
  {}
}
