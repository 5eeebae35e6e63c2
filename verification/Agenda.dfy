/** The meaning of a delta-encoded event list: a list of events with absolute due times.

    A queue stores, for each event, only the time that passes after the event before it.
    `Timeline` decodes such a list; the rest of the module says what inserting, removing and
    re-timing do to the decoded list. */
module Agenda {

  /** One queued event. `subject` is the voice or voice state the message names, and
      `payload` stands for the rest of the message. */
  datatype Event = Event(kind: int, subject: int, payload: int)

  /** What a queue node stores. */
  datatype Entry = Entry(delta: int, evt: Event)

  /** What it means: the event is due `at` that time. */
  datatype Timed = Timed(at: int, evt: Event)

  /** The event classes the player code picks out of a queue: all of one kind, those of one kind about
      one subject, none, the union of two classes and the complement of one. */
  datatype Pattern =
    | Nothing
    | Kind(kind: int)
    | KindOf(kind: int, subject: int)
    | Either(first: Pattern, second: Pattern)
    | Other(than: Pattern)

  predicate Matches(p: Pattern, e: Event) {
    match p
    case Nothing => false
    case Kind(kind) => e.kind == kind
    case KindOf(kind, subject) => e.kind == kind && e.subject == subject
    case Either(first, second) => Matches(first, e) || Matches(second, e)
    case Other(than) => !Matches(than, e)
  }

  function Span(es: seq<Entry>): int {
    if es == [] then 0 else es[0].delta + Span(es[1..])
  }

  function Timeline(es: seq<Entry>, base: int): (t: seq<Timed>)
    ensures |t| == |es|
  {
    if es == [] then []
    else [Timed(base + es[0].delta, es[0].evt)] + Timeline(es[1..], base + es[0].delta)
  }

  /** Non-decreasing due times. */
  ghost predicate Sorted(t: seq<Timed>) {
    forall i, j :: 0 <= i < j < |t| ==> t[i].at <= t[j].at
  }

  /** Inserts after everything due no later: first in, first out among equal times. */
  function StableInsert(t: seq<Timed>, x: Timed): (r: seq<Timed>)
    ensures |r| == |t| + 1
  {
    if t == [] then [x]
    else if x.at < t[0].at then [x] + t
    else [t[0]] + StableInsert(t[1..], x)
  }

  function Filter(t: seq<Timed>, keep: Pattern): (r: seq<Timed>)
    ensures |r| <= |t|
  {
    if t == [] then []
    else if Matches(keep, t[0].evt) then [t[0]] + Filter(t[1..], keep)
    else Filter(t[1..], keep)
  }

  /** The due time an event posted "at the end" gets: that of the last queued event. */
  function LastTime(t: seq<Timed>, base: int): int {
    if t == [] then base else t[|t| - 1].at
  }

  /** Moves every due time by the same amount. */
  function Shift(t: seq<Timed>, shift: int): (r: seq<Timed>)
    ensures |r| == |t|
    ensures forall i :: 0 <= i < |t| ==> r[i] == Timed(t[i].at + shift, t[i].evt)
  {
    seq(|t|, i requires 0 <= i < |t| => Timed(t[i].at + shift, t[i].evt))
  }

  // ---- decoding -------------------------------------------------------------------

  lemma {:induction false} SpanAppend(a: seq<Entry>, b: seq<Entry>)
    ensures Span(a + b) == Span(a) + Span(b)
  {
    if a == [] {
      assert a + b == b;
    } else {
      assert (a + b)[1..] == a[1..] + b;
      SpanAppend(a[1..], b);
    }
  }

  lemma {:induction false} TimelineAppend(a: seq<Entry>, b: seq<Entry>, base: int)
    ensures Timeline(a + b, base) == Timeline(a, base) + Timeline(b, base + Span(a))
  {
    if a == [] {
      assert a + b == b;
    } else {
      assert (a + b)[1..] == a[1..] + b;
      TimelineAppend(a[1..], b, base + a[0].delta);
    }
  }

  /** The due time of an entry is the base plus every delta up to and including its own. */
  lemma {:induction false} TimelineAt(es: seq<Entry>, base: int, k: nat)
    requires k < |es|
    ensures Timeline(es, base)[k] == Timed(base + Span(es[..k]) + es[k].delta, es[k].evt)
  {
    if k > 0 {
      TimelineAt(es[1..], base + es[0].delta, k - 1);
      assert es[..k][1..] == es[1..][..k - 1];
    }
  }

  /** Each entry is due its delta after the one before it. */
  lemma TimelineStep(es: seq<Entry>, k: nat)
    requires k < |es|
    ensures Timeline(es, 0)[k] == Timed(LastTime(Timeline(es, 0)[..k], 0) + es[k].delta, es[k].evt)
  {
    var t := Timeline(es, 0);
    TimelineAt(es, 0, k);
    if k == 0 {
      assert t[..0] == [] && es[..0] == [];
    } else {
      TimelineAt(es, 0, k - 1);
      assert es[..k] == es[..k - 1] + [es[k - 1]];
      SpanAppend(es[..k - 1], [es[k - 1]]);
      assert Span([es[k - 1]]) == es[k - 1].delta;
      hide Timeline, Span;
      assert LastTime(t[..k], 0) == t[k - 1].at;
    }
  }

  /** Re-basing a list shifts every due time. */
  lemma {:induction false} TimelineShift(es: seq<Entry>, base: int, shift: int)
    ensures Timeline(es, base + shift) == Shift(Timeline(es, base), shift)
  {
    if es != [] {
      TimelineShift(es[1..], base + es[0].delta, shift);
    }
  }

  lemma TimelineTail(es: seq<Entry>)
    requires es != []
    ensures Timeline(es, 0)[0] == Timed(es[0].delta, es[0].evt)
    ensures Timeline(es, 0)[1..] == Timeline(es[1..], es[0].delta)
  {}

  /** Taking the first entry off and counting from its due time on. */
  lemma PopTimeline(es: seq<Entry>)
    requires es != []
    ensures Timeline(es, 0)[0] == Timed(es[0].delta, es[0].evt)
    ensures Timeline(es[1..], 0) == Shift(Timeline(es, 0)[1..], -es[0].delta)
  {
    var d := es[0].delta;
    TimelineTail(es);
    hide Timeline, Shift;
    TimelineShift(es[1..], d, -d);
    assert d + -d == 0;
  }

  // ---- the two edits the player code performs on the encoded list ---------------

  /** The list after a node with delta `d` went in before position `k` and the node behind it,
      if any, gave up `d`. */
  function InsertedAt(es: seq<Entry>, k: nat, d: int, evt: Event): (r: seq<Entry>)
    requires k <= |es|
    ensures |r| == |es| + 1
    ensures forall i {:trigger r[i]} :: 0 <= i < |r| ==>
      r[i] == if i < k then es[i] else if i == k then Entry(d, evt)
              else es[i - 1].(delta := es[i - 1].delta - if i == k + 1 then d else 0)
  {
    es[..k] + [Entry(d, evt)] +
    if k == |es| then [] else [es[k].(delta := es[k].delta - d)] + es[k + 1..]
  }

  /** The list after the node at `k` went out and the node behind it, if any, took over its delta. */
  function RemovedAt(es: seq<Entry>, k: nat): (r: seq<Entry>)
    requires k < |es|
    ensures |r| == |es| - 1
    ensures forall i {:trigger r[i]} :: 0 <= i < |r| ==>
      r[i] == if i < k then es[i] else es[i + 1].(delta := es[i + 1].delta + if i == k then es[k].delta else 0)
  {
    es[..k] +
    if k + 1 == |es| then [] else [es[k + 1].(delta := es[k + 1].delta + es[k].delta)] + es[k + 2..]
  }

  /** Removing a node this way changes no other event's due time. */
  lemma RemoveKeepsTimes(es: seq<Entry>, k: nat, base: int)
    requires k < |es|
    ensures Timeline(RemovedAt(es, k), base) == Timeline(es, base)[..k] + Timeline(es, base)[k + 1..]
  {
    var a, b := es[..k], es[k..];
    assert es == a + b;
    TimelineAppend(a, b, base);
    var rest := if |b| == 1 then [] else [b[1].(delta := b[1].delta + b[0].delta)] + b[2..];
    assert RemovedAt(es, k) == a + rest;
    TimelineAppend(a, rest, base);
    if |b| > 1 {
      assert rest[1..] == b[1..][1..];
      assert b[1..][0] == b[1];
    }
    assert Timeline(rest, base + Span(a)) == Timeline(b, base + Span(a))[1..];
  }

  /** Where an insertion walk stops: everything before is due no later than `d`, what follows is
      due later. `d` is relative to the same base as the list. */
  ghost predicate StopsAt(es: seq<Entry>, k: nat, d: int) {
    && k <= |es|
    && (forall j :: 0 <= j < k ==> Span(es[..j]) + es[j].delta <= d)
    && (k < |es| ==> d < Span(es[..k]) + es[k].delta)
  }

  /** A node put in front takes from its successor exactly what it adds. */
  lemma InsertInFront(b: seq<Entry>, e: int, evt: Event, base: int)
    ensures var rest := [Entry(e, evt)] + if b == [] then [] else [b[0].(delta := b[0].delta - e)] + b[1..];
            Timeline(rest, base) == [Timed(base + e, evt)] + Timeline(b, base)
  {
    var tail := if b == [] then [] else [b[0].(delta := b[0].delta - e)] + b[1..];
    assert ([Entry(e, evt)] + tail)[1..] == tail;
    if b != [] {
      assert tail[1..] == b[1..];
    }
  }

  lemma Splice(a: seq<Timed>, b: seq<Timed>, x: Timed)
    ensures (a + b)[..|a|] + [x] + (a + b)[|a|..] == a + ([x] + b)
  {}

  lemma InsertedAtSplits(es: seq<Entry>, k: nat, e: int, evt: Event)
    requires k <= |es|
    ensures var b := es[k..];
            InsertedAt(es, k, e, evt) ==
            es[..k] + ([Entry(e, evt)] + if b == [] then [] else [b[0].(delta := b[0].delta - e)] + b[1..])
  {}

  /** Inserting a node this way changes no other event's due time. */
  lemma InsertKeepsTimes(es: seq<Entry>, k: nat, d: int, evt: Event, base: int)
    requires k <= |es|
    ensures var t := Timeline(es, base);
            Timeline(InsertedAt(es, k, d - Span(es[..k]), evt), base) == t[..k] + [Timed(base + d, evt)] + t[k..]
  {
    var a, b := es[..k], es[k..];
    var e := d - Span(a);
    var rest := [Entry(e, evt)] + if b == [] then [] else [b[0].(delta := b[0].delta - e)] + b[1..];
    assert es == a + b;
    InsertedAtSplits(es, k, e, evt);
    hide Timeline, Span, InsertedAt;
    TimelineAppend(a, b, base);
    TimelineAppend(a, rest, base);
    InsertInFront(b, e, evt, base + Span(a));
    Splice(Timeline(a, base), Timeline(b, base + Span(a)), Timed(base + d, evt));
  }

  /** Stable insertion is decided by its place: the first entry due later than the new one. */
  lemma {:induction false} StableInsertAt(t: seq<Timed>, x: Timed, k: nat)
    requires k <= |t|
    requires forall j :: 0 <= j < k ==> t[j].at <= x.at
    requires k < |t| ==> x.at < t[k].at
    ensures StableInsert(t, x) == t[..k] + [x] + t[k..]
  {
    if k == 0 {
      assert t[..0] + [x] + t[0..] == [x] + t;
    } else {
      StableInsertAt(t[1..], x, k - 1);
      assert t[..k] + [x] + t[k..] == [t[0]] + (t[1..][..k - 1] + [x] + t[1..][k - 1..]);
    }
  }

  /** Wherever the walk stops, the decoded list is the stable insertion. */
  lemma InsertIsStable(es: seq<Entry>, k: nat, d: int, evt: Event, base: int)
    requires StopsAt(es, k, d)
    ensures Timeline(InsertedAt(es, k, d - Span(es[..k]), evt), base)
         == StableInsert(Timeline(es, base), Timed(base + d, evt))
  {
    var t := Timeline(es, base);
    InsertKeepsTimes(es, k, d, evt, base);
    forall j | 0 <= j < |es| ensures t[j] == Timed(base + Span(es[..j]) + es[j].delta, es[j].evt) {
      TimelineAt(es, base, j);
    }
    StableInsertAt(t, Timed(base + d, evt), k);
  }

  /** A node appended with delta zero is due together with the last one. */
  lemma AppendAtEnd(es: seq<Entry>, evt: Event, base: int)
    ensures Timeline(es + [Entry(0, evt)], base)
         == Timeline(es, base) + [Timed(LastTime(Timeline(es, base), base), evt)]
  {
    TimelineAppend(es, [Entry(0, evt)], base);
    if es != [] {
      var n := |es| - 1;
      TimelineAt(es, base, n);
      assert es == es[..n] + [es[n]];
      SpanAppend(es[..n], [es[n]]);
    }
  }

  // ---- stable insertion -----------------------------------------------------------

  /** How many entries are due no later than `at`. */
  function PlaceFor(t: seq<Timed>, at: int): (k: nat)
    ensures k <= |t|
    ensures forall j :: 0 <= j < k ==> t[j].at <= at
    ensures k < |t| ==> at < t[k].at
  {
    if t == [] || at < t[0].at then 0 else 1 + PlaceFor(t[1..], at)
  }

  /** What stable insertion into a sorted list means: nothing is lost or reordered, everything due
      no later stays ahead, everything due later stays behind. */
  lemma StableInsertPlaces(t: seq<Timed>, x: Timed)
    requires Sorted(t)
    ensures var k := PlaceFor(t, x.at);
            && StableInsert(t, x) == t[..k] + [x] + t[k..]
            && (forall j :: 0 <= j < k ==> t[j].at <= x.at)
            && (forall j :: k <= j < |t| ==> x.at < t[j].at)
  {
    StableInsertAt(t, x, PlaceFor(t, x.at));
  }

  lemma StableInsertSorted(t: seq<Timed>, x: Timed)
    requires Sorted(t)
    ensures Sorted(StableInsert(t, x))
  {
    StableInsertPlaces(t, x);
    var k, r := PlaceFor(t, x.at), StableInsert(t, x);
    hide StableInsert, PlaceFor;
    forall i, j | 0 <= i < j < |r| ensures r[i].at <= r[j].at {
      assert i < k ==> r[i] == t[i];
      assert i > k ==> r[i] == t[i - 1];
      assert j < k ==> r[j] == t[j];
      assert j > k ==> r[j] == t[j - 1];
    }
  }

  lemma {:induction false} InsertMember(t: seq<Timed>, x: Timed, y: Timed)
    ensures y in StableInsert(t, x) <==> y in t || y == x
  {
    if t != [] && x.at >= t[0].at {
      InsertMember(t[1..], x, y);
      assert t == [t[0]] + t[1..];
    }
  }

  lemma {:induction false} ShiftInsert(t: seq<Timed>, x: Timed, shift: int)
    ensures Shift(StableInsert(t, x), shift) == StableInsert(Shift(t, shift), Timed(x.at + shift, x.evt))
  {
    if t == [] || x.at < t[0].at {
      ShiftCons(x, t, shift);
    } else {
      ShiftInsert(t[1..], x, shift);
      ShiftTail(t, shift);
      ShiftCons(t[0], StableInsert(t[1..], x), shift);
    }
  }

  lemma ShiftCons(x: Timed, t: seq<Timed>, shift: int)
    ensures Shift([x] + t, shift) == [Timed(x.at + shift, x.evt)] + Shift(t, shift)
  {}

  lemma ShiftTail(t: seq<Timed>, shift: int)
    requires t != []
    ensures Shift(t, shift)[1..] == Shift(t[1..], shift)
  {}

  /** Counting from the first due time on changes no absolute time. */
  lemma ShiftPop(t: seq<Timed>, clock: int)
    requires t != []
    ensures Shift(Shift(t[1..], -t[0].at), clock + t[0].at) == Shift(t, clock)[1..]
  {}

  // ---- filtering ------------------------------------------------------------------

  lemma {:induction false} FilterAppend(a: seq<Timed>, b: seq<Timed>, keep: Pattern)
    ensures Filter(a + b, keep) == Filter(a, keep) + Filter(b, keep)
  {
    if a == [] {
      assert a + b == b;
    } else {
      assert (a + b)[1..] == a[1..] + b;
      FilterAppend(a[1..], b, keep);
    }
  }

  lemma {:induction false} FilterShift(t: seq<Timed>, p: Pattern, shift: int)
    ensures Filter(Shift(t, shift), p) == Shift(Filter(t, p), shift)
  {
    if t != [] {
      FilterShift(t[1..], p, shift);
      ShiftTail(t, shift);
      if Matches(p, t[0].evt) {
        ShiftCons(t[0], Filter(t[1..], p), shift);
      }
    }
  }

  lemma FilterStep(t: seq<Timed>, j: nat, keep: Pattern)
    requires j < |t|
    ensures Filter(t[..j + 1], keep) == Filter(t[..j], keep) + if Matches(keep, t[j].evt) then [t[j]] else []
  {
    assert t[..j + 1] == t[..j] + [t[j]];
    FilterAppend(t[..j], [t[j]], keep);
  }

  /** `now` is `was` with the first `j` entries already sifted; `k` of them were kept. */
  ghost predicate Sifted(was: seq<Timed>, j: nat, now: seq<Timed>, k: nat, keep: Pattern) {
    && j <= |was| && k <= |now|
    && now[..k] == Filter(was[..j], keep)
    && now[k..] == was[j..]
  }

  lemma SiftKeep(was: seq<Timed>, j: nat, now: seq<Timed>, k: nat, keep: Pattern)
    requires Sifted(was, j, now, k, keep) && k < |now| && Matches(keep, now[k].evt)
    ensures j < |was| && Sifted(was, j + 1, now, k + 1, keep)
  {
    assert now[k] == now[k..][0] == was[j];
    FilterStep(was, j, keep);
    assert now[..k + 1] == now[..k] + [now[k]];
    assert now[k + 1..] == now[k..][1..];
  }

  lemma SiftDrop(was: seq<Timed>, j: nat, now: seq<Timed>, k: nat, keep: Pattern)
    requires Sifted(was, j, now, k, keep) && k < |now| && !Matches(keep, now[k].evt)
    ensures j < |was| && Sifted(was, j + 1, now[..k] + now[k + 1..], k, keep)
  {
    assert now[k] == now[k..][0] == was[j];
    FilterStep(was, j, keep);
    var r := now[..k] + now[k + 1..];
    assert r[..k] == now[..k];
    assert r[k..] == now[k..][1..];
  }

  lemma SiftNext(was: seq<Timed>, j: nat, now: seq<Timed>, k: nat, keep: Pattern)
    requires Sifted(was, j, now, k, keep) && k < |now|
    ensures j < |was| && was[j] == now[k]
  {
    assert now[k] == now[k..][0] == was[j];
  }

  lemma SiftDone(was: seq<Timed>, j: nat, now: seq<Timed>, k: nat, keep: Pattern)
    requires Sifted(was, j, now, k, keep) && k == |now|
    ensures now == Filter(was, keep) && j == |was|
  {
    assert was[..j] == was && now[..k] == now;
  }

  lemma {:induction false} FilterMember(t: seq<Timed>, keep: Pattern, x: Timed)
    ensures x in Filter(t, keep) <==> x in t && Matches(keep, x.evt)
  {
    if t != [] {
      FilterMember(t[1..], keep, x);
    }
  }

  /** Places in a list of n, from front to back. */
  ghost predicate Picks(places: seq<nat>, n: nat) {
    && (forall k :: 0 <= k < |places| ==> places[k] < n)
    && (forall k, m :: 0 <= k < m < |places| ==> places[k] < places[m])
  }

  /** What is left is what stood at these places, each with its time, in its old order. */
  ghost predicate KeptAt(was: seq<Timed>, now: seq<Timed>, kept: seq<nat>) {
    Picks(kept, |was|) && |now| == |kept| && forall k :: 0 <= k < |now| ==> now[k] == was[kept[k]]
  }

  /** Filtering keeps exactly the matching events. */
  lemma {:induction false} FilterKeeps(t: seq<Timed>, keep: Pattern) returns (kept: seq<nat>)
    ensures KeptAt(t, Filter(t, keep), kept)
    ensures forall i: nat :: i < |t| ==> (i in kept <==> Matches(keep, t[i].evt))
  {
    kept := [];
    if t != [] {
      var n := |t| - 1;
      var before := FilterKeeps(t[..n], keep);
      FilterStep(t, n, keep);
      assert t[..n + 1] == t;
      kept := before + if Matches(keep, t[n].evt) then [n] else [];
      hide Matches, Filter;
      forall i: nat | i < |t| ensures i in kept <==> Matches(keep, t[i].evt) {
        if i < n {
          assert t[..n][i] == t[i];
        }
      }
    }
  }

  lemma KindMatches(e: Event, kind: int)
    ensures Matches(Other(Kind(kind)), e) <==> !(e.kind == kind)
  {
    assert Matches(Other(Kind(kind)), e) == !Matches(Kind(kind), e);
  }

  /** Flushing a kind, spelled out. */
  lemma KindGone(t: seq<Timed>, kind: int)
    ensures var left := Filter(t, Other(Kind(kind)));
            exists kept :: KeptAt(t, left, kept) &&
              forall i: nat :: i < |t| ==> (i !in kept <==> t[i].evt.kind == kind)
  {
    hide *;
    var kept := FilterKeeps(t, Other(Kind(kind)));
    forall i: nat | i < |t| ensures i !in kept <==> t[i].evt.kind == kind {
      KindMatches(t[i].evt, kind);
    }
  }

  lemma {:induction false} FilterSorted(t: seq<Timed>, keep: Pattern)
    requires Sorted(t)
    ensures Sorted(Filter(t, keep))
  {
    if t != [] {
      var rest := Filter(t[1..], keep);
      FilterSorted(t[1..], keep);
      forall j | 0 <= j < |rest| ensures t[0].at <= rest[j].at {
        assert rest[j] in rest;
        FilterMember(t[1..], keep, rest[j]);
        var i :| 0 <= i < |t[1..]| && t[1..][i] == rest[j];
        assert t[i + 1] == rest[j];
      }
    }
  }

  /** Inserting an event of the other class does not disturb a class. */
  lemma {:induction false} FilterInsertOther(t: seq<Timed>, x: Timed, keep: Pattern)
    requires !Matches(keep, x.evt)
    ensures Filter(StableInsert(t, x), keep) == Filter(t, keep)
  {
    if t == [] || x.at < t[0].at {
      assert ([x] + t)[1..] == t;
    } else {
      FilterInsertOther(t[1..], x, keep);
      assert ([t[0]] + StableInsert(t[1..], x))[1..] == StableInsert(t[1..], x);
    }
  }

  /** Inserting an event of a class into a sorted list inserts it into that class. */
  lemma {:induction false} FilterInsertSame(t: seq<Timed>, x: Timed, keep: Pattern)
    requires Sorted(t) && Matches(keep, x.evt)
    ensures Filter(StableInsert(t, x), keep) == StableInsert(Filter(t, keep), x)
  {
    if t == [] || x.at < t[0].at {
      assert ([x] + t)[1..] == t;
      var f := Filter(t, keep);
      if f != [] {
        assert f[0] in f;
        FilterMember(t, keep, f[0]);
      }
    } else {
      FilterInsertSame(t[1..], x, keep);
      assert ([t[0]] + StableInsert(t[1..], x))[1..] == StableInsert(t[1..], x);
      if Matches(keep, t[0].evt) {
        assert ([t[0]] + Filter(t[1..], keep))[1..] == Filter(t[1..], keep);
      }
    }
  }

  /** The first event of a class; the length of the list if there is none. */
  function FirstMatch(t: seq<Timed>, p: Pattern): (k: nat)
    ensures k <= |t| && (k < |t| ==> Matches(p, t[k].evt))
    ensures forall i :: 0 <= i < k ==> !Matches(p, t[i].evt)
  {
    if t == [] || Matches(p, t[0].evt) then 0 else 1 + FirstMatch(t[1..], p)
  }
}
