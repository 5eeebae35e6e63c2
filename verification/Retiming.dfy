/** What a tempo change does to a player's due list (native_csp_handle_meta in
    platform/audio_cspplayer.c): note-offs come out, get rescaled times and go back in one by one. */
module Retiming {
  import opened Agenda
  import opened Words

  const AL_CSP_NOTEOFF_EVT := 21

  /** Whole old ticks, then new ticks' worth of microseconds: the product is taken in 32 bits. */
  function Rescaled(at: int, oldUspt: int, newUspt: int): int
    requires oldUspt > 0
  {
    ToS32(TruncDiv(at, oldUspt) % WORD * (newUspt % WORD))
  }

  function RescaleAll(t: seq<Timed>, oldUspt: int, newUspt: int): (r: seq<Timed>)
    requires oldUspt > 0
    ensures |r| == |t|
    ensures forall i :: 0 <= i < |t| ==> r[i] == Timed(Rescaled(t[i].at, oldUspt, newUspt), t[i].evt)
  {
    seq(|t|, i requires 0 <= i < |t| => Timed(Rescaled(t[i].at, oldUspt, newUspt), t[i].evt))
  }

  /** Stable insertion of several events, one after the other. */
  function InsertAll(t: seq<Timed>, xs: seq<Timed>): (r: seq<Timed>)
    decreases xs
  {
    if xs == [] then t else InsertAll(StableInsert(t, xs[0]), xs[1..])
  }

  const NOTE_OFFS := Kind(AL_CSP_NOTEOFF_EVT)

  function Retimed(t: seq<Timed>, oldUspt: int, newUspt: int): seq<Timed>
    requires oldUspt > 0
  {
    InsertAll(Filter(t, Other(NOTE_OFFS)), RescaleAll(Filter(t, NOTE_OFFS), oldUspt, newUspt))
  }

  /** The same with times counted from anywhere: `clock` is when the tempo changes. */
  function RescaleFrom(t: seq<Timed>, clock: int, oldUspt: int, newUspt: int): (r: seq<Timed>)
    requires oldUspt > 0
    ensures |r| == |t|
    ensures forall i :: 0 <= i < |t| ==> r[i] == Timed(clock + Rescaled(t[i].at - clock, oldUspt, newUspt), t[i].evt)
  {
    seq(|t|, i requires 0 <= i < |t| => Timed(clock + Rescaled(t[i].at - clock, oldUspt, newUspt), t[i].evt))
  }

  function RetimedFrom(t: seq<Timed>, clock: int, oldUspt: int, newUspt: int): seq<Timed>
    requires oldUspt > 0
  {
    InsertAll(Filter(t, Other(NOTE_OFFS)), RescaleFrom(Filter(t, NOTE_OFFS), clock, oldUspt, newUspt))
  }

  // ---- insertion of several events ------------------------------------------------

  lemma {:induction false} InsertAllSorted(t: seq<Timed>, xs: seq<Timed>)
    requires Sorted(t)
    ensures Sorted(InsertAll(t, xs))
    decreases xs
  {
    if xs != [] {
      StableInsertSorted(t, xs[0]);
      InsertAllSorted(StableInsert(t, xs[0]), xs[1..]);
    }
  }

  lemma {:induction false} InsertAllOther(t: seq<Timed>, xs: seq<Timed>, keep: Pattern)
    requires forall i :: 0 <= i < |xs| ==> !Matches(keep, xs[i].evt)
    ensures Filter(InsertAll(t, xs), keep) == Filter(t, keep)
    decreases xs
  {
    if xs != [] {
      FilterInsertOther(t, xs[0], keep);
      InsertAllOther(StableInsert(t, xs[0]), xs[1..], keep);
    }
  }

  lemma {:induction false} InsertAllSame(t: seq<Timed>, xs: seq<Timed>, keep: Pattern)
    requires Sorted(t) && forall i :: 0 <= i < |xs| ==> Matches(keep, xs[i].evt)
    ensures Filter(InsertAll(t, xs), keep) == InsertAll(Filter(t, keep), xs)
    decreases xs
  {
    if xs != [] {
      FilterInsertSame(t, xs[0], keep);
      StableInsertSorted(t, xs[0]);
      InsertAllSame(StableInsert(t, xs[0]), xs[1..], keep);
    }
  }

  /** Events inserted in time order behind earlier ones simply line up. */
  lemma {:induction false} InsertAllLinesUp(t: seq<Timed>, xs: seq<Timed>)
    requires Sorted(t + xs)
    ensures InsertAll(t, xs) == t + xs
    decreases xs
  {
    if xs == [] {
      assert t + xs == t;
    } else {
      assert (t + xs)[|t|] == xs[0];
      forall j | 0 <= j < |t| ensures t[j].at <= xs[0].at { assert (t + xs)[j] == t[j]; }
      StableInsertAt(t, xs[0], |t|);
      assert t[..|t|] + [xs[0]] + t[|t|..] == t + [xs[0]];
      assert (t + [xs[0]]) + xs[1..] == t + xs;
      InsertAllLinesUp(t + [xs[0]], xs[1..]);
    }
  }

  lemma {:induction false} FilterDisjoint(t: seq<Timed>, keep: Pattern)
    ensures Filter(Filter(t, Other(keep)), keep) == []
    ensures Filter(Filter(t, Other(keep)), Other(keep)) == Filter(t, Other(keep))
  {
    if t != [] {
      FilterDisjoint(t[1..], keep);
    }
  }

  lemma FilterAllMatch(t: seq<Timed>, keep: Pattern, i: nat)
    requires i < |Filter(t, keep)|
    ensures Matches(keep, Filter(t, keep)[i].evt)
  {
    assert Filter(t, keep)[i] in Filter(t, keep);
    FilterMember(t, keep, Filter(t, keep)[i]);
  }

  // ---- the tempo change -----------------------------------------------------------

  /** Everything that is not a note-off keeps its due time and its place among the others. */
  lemma OthersUntouched(t: seq<Timed>, oldUspt: int, newUspt: int)
    requires oldUspt > 0
    ensures Filter(Retimed(t, oldUspt, newUspt), Other(NOTE_OFFS)) == Filter(t, Other(NOTE_OFFS))
  {
    var offs := Filter(t, NOTE_OFFS);
    forall i | 0 <= i < |offs| ensures Matches(NOTE_OFFS, offs[i].evt) { FilterAllMatch(t, NOTE_OFFS, i); }
    InsertAllOther(Filter(t, Other(NOTE_OFFS)), RescaleAll(offs, oldUspt, newUspt), Other(NOTE_OFFS));
    FilterDisjoint(t, NOTE_OFFS);
  }

  /** The note-offs afterwards are the rescaled note-offs in their old order, ties included, exactly
      when rescaling kept their times in order. */
  lemma NoteOffsKeepOrder(t: seq<Timed>, oldUspt: int, newUspt: int)
    requires oldUspt > 0 && Sorted(t)
    ensures var offs := RescaleAll(Filter(t, NOTE_OFFS), oldUspt, newUspt);
            Filter(Retimed(t, oldUspt, newUspt), NOTE_OFFS) == offs <==> Sorted(offs)
    ensures Sorted(Retimed(t, oldUspt, newUspt))
  {
    var kept, offs := Filter(t, Other(NOTE_OFFS)), RescaleAll(Filter(t, NOTE_OFFS), oldUspt, newUspt);
    forall i | 0 <= i < |offs| ensures Matches(NOTE_OFFS, offs[i].evt) { FilterAllMatch(t, NOTE_OFFS, i); }
    FilterSorted(t, Other(NOTE_OFFS));
    InsertAllSame(kept, offs, NOTE_OFFS);
    FilterDisjoint(t, NOTE_OFFS);
    InsertAllSorted(kept, offs);
    FilterSorted(Retimed(t, oldUspt, newUspt), NOTE_OFFS);
    if Sorted(offs) {
      assert [] + offs == offs;
      InsertAllLinesUp([], offs);
    }
  }

  /** The 32-bit product is the true one whenever that is a signed 32-bit value. */
  lemma ProductFits(x: int, y: int)
    requires IsS32(x * y)
    ensures ToS32(x % WORD * (y % WORD)) == x * y
  {
    var u, v, a, b := x % WORD, y % WORD, x / WORD, y / WORD;
    assert x * y - u * v == (a * y + b * u) * WORD by {
      assert x == a * WORD + u && y == b * WORD + v;
      ProductSplits(a, u, b, v, y);
    }
    RemainderIs(x * y - u * v, a * y + b * u, 0, WORD);
    SameRemainder(u * v, x * y, WORD);
  }

  lemma ProductSplits(a: int, u: int, b: int, v: int, y: int)
    requires y == b * WORD + v
    ensures (a * WORD + u) * y - u * v == (a * y + b * u) * WORD
  {
    calc {
      (a * WORD + u) * y;
      a * y * WORD + u * y;
      a * y * WORD + u * (b * WORD + v);
      (a * y + b * u) * WORD + u * v;
    }
  }

  lemma TruncDivSign(a: int, c: int)
    requires c > 0
    ensures if a >= 0 then TruncDiv(a, c) >= 0 else TruncDiv(a, c) <= 0
  {}

  lemma TruncDivMonotone(a: int, b: int, c: int)
    requires a <= b && c > 0
    ensures TruncDiv(a, c) <= TruncDiv(b, c)
  {
    if a >= 0 {
      DivMonotone(a, b, c);
    } else if b < 0 {
      DivMonotone(-b, -a, c);
    } else {
      TruncDivSign(a, c);
      TruncDivSign(b, c);
      hide TruncDiv;
    }
  }

  lemma DivMonotone(a: nat, b: nat, c: nat)
    requires a <= b && c > 0
    ensures a / c <= b / c
  {
    var p, q := a / c, b / c;
    if p > q {
      ProductMonotone(q + 1, p, c);
      assert false;
    }
  }

  /** Where a note-off due at `at` ought to move. */
  function Exact(at: int, oldUspt: int, newUspt: int): int
    requires oldUspt > 0
  {
    TruncDiv(at, oldUspt) * newUspt
  }

  lemma RescaledExactly(at: int, oldUspt: int, newUspt: int)
    requires oldUspt > 0 && IsS32(Exact(at, oldUspt, newUspt))
    ensures Rescaled(at, oldUspt, newUspt) == Exact(at, oldUspt, newUspt)
  {
    ProductFits(TruncDiv(at, oldUspt), newUspt);
  }

  lemma RescaleMonotone(a: int, b: int, oldUspt: int, newUspt: int)
    requires oldUspt > 0 && newUspt >= 0 && a <= b
    ensures Exact(a, oldUspt, newUspt) <= Exact(b, oldUspt, newUspt)
  {
    TruncDivMonotone(a, b, oldUspt);
    ProductMonotone(TruncDiv(a, oldUspt), TruncDiv(b, oldUspt), newUspt);
  }

  /** Where the note-offs of a list ought to move. */
  function ExactAll(t: seq<Timed>, oldUspt: int, newUspt: int): (r: seq<Timed>)
    requires oldUspt > 0
    ensures |r| == |t|
    ensures forall i :: 0 <= i < |t| ==> r[i] == Timed(Exact(t[i].at, oldUspt, newUspt), t[i].evt)
  {
    seq(|t|, i requires 0 <= i < |t| => Timed(Exact(t[i].at, oldUspt, newUspt), t[i].evt))
  }

  /** Rescaling within 32 bits keeps times in order. */
  lemma RescaleKeepsOrder(before: seq<Timed>, oldUspt: int, newUspt: int)
    requires oldUspt > 0 && newUspt >= 0 && Sorted(before)
    requires forall i :: 0 <= i < |before| ==> IsS32(Exact(before[i].at, oldUspt, newUspt))
    ensures var offs := RescaleAll(before, oldUspt, newUspt);
            Sorted(offs) && offs == ExactAll(before, oldUspt, newUspt)
  {
    var offs := RescaleAll(before, oldUspt, newUspt);
    forall i | 0 <= i < |before| ensures offs[i].at == Exact(before[i].at, oldUspt, newUspt) {
      RescaledExactly(before[i].at, oldUspt, newUspt);
    }
    forall i, j | 0 <= i < j < |before|
      ensures Exact(before[i].at, oldUspt, newUspt) <= Exact(before[j].at, oldUspt, newUspt)
    {
      RescaleMonotone(before[i].at, before[j].at, oldUspt, newUspt);
    }
    hide Rescaled, Exact;
  }

  /** Every note-off's product is a signed 32-bit value. */
  ghost predicate Fits(t: seq<Timed>, oldUspt: int, newUspt: int)
    requires oldUspt > 0
  {
    forall i :: 0 <= i < |t| && Matches(NOTE_OFFS, t[i].evt) ==> IsS32(Exact(t[i].at, oldUspt, newUspt))
  }

  lemma FitsFilter(t: seq<Timed>, oldUspt: int, newUspt: int)
    requires oldUspt > 0
    ensures Fits(Filter(t, NOTE_OFFS), oldUspt, newUspt) <==> Fits(t, oldUspt, newUspt)
  {
    var offs := Filter(t, NOTE_OFFS);
    hide Exact, Filter, Matches;
    forall x ensures x in offs <==> x in t && Matches(NOTE_OFFS, x.evt) { FilterMember(t, NOTE_OFFS, x); }
    if Fits(offs, oldUspt, newUspt) {
      forall i | 0 <= i < |t| && Matches(NOTE_OFFS, t[i].evt) ensures IsS32(Exact(t[i].at, oldUspt, newUspt)) {
        assert t[i] in offs;
      }
    }
    if Fits(t, oldUspt, newUspt) {
      forall i | 0 <= i < |offs| ensures IsS32(Exact(offs[i].at, oldUspt, newUspt)) {
        assert offs[i] in t;
      }
    }
  }

  /** Every entry of a stable insertion of several comes from one of the two lists. */
  lemma {:induction false} InsertAllMember(t: seq<Timed>, xs: seq<Timed>, x: Timed)
    ensures x in InsertAll(t, xs) <==> x in t || x in xs
    decreases xs
  {
    if xs != [] {
      InsertMember(t, xs[0], x);
      InsertAllMember(StableInsert(t, xs[0]), xs[1..], x);
      assert xs == [xs[0]] + xs[1..];
    }
  }

  lemma {:induction false} InsertAllLength(t: seq<Timed>, xs: seq<Timed>)
    ensures |InsertAll(t, xs)| == |t| + |xs|
    decreases xs
  {
    if xs != [] {
      InsertAllLength(StableInsert(t, xs[0]), xs[1..]);
    }
  }

  lemma {:induction false} FilterLengths(t: seq<Timed>, keep: Pattern)
    ensures |Filter(t, keep)| + |Filter(t, Other(keep))| == |t|
  {
    if t != [] {
      FilterLengths(t[1..], keep);
    }
  }

  /** The 32-bit product moves a note-off to a signed 32-bit time. */
  lemma NoNoteOffBeyond(t: seq<Timed>, oldUspt: int, newUspt: int, x: Timed)
    requires oldUspt > 0 && !IsS32(x.at) && Matches(NOTE_OFFS, x.evt)
    ensures x !in Retimed(t, oldUspt, newUspt)
  {
    var kept, now := Filter(t, Other(NOTE_OFFS)), RescaleAll(Filter(t, NOTE_OFFS), oldUspt, newUspt);
    assert x !in now;
    FilterMember(t, Other(NOTE_OFFS), x);
    InsertAllMember(kept, now, x);
  }

  lemma FitsMovesExactly(t: seq<Timed>, oldUspt: int, newUspt: int)
    requires oldUspt > 0 && newUspt >= 0 && Sorted(t) && Fits(t, oldUspt, newUspt)
    ensures Filter(Retimed(t, oldUspt, newUspt), NOTE_OFFS) == ExactAll(Filter(t, NOTE_OFFS), oldUspt, newUspt)
  {
    var offs := Filter(t, NOTE_OFFS);
    FitsFilter(t, oldUspt, newUspt);
    FilterSorted(t, NOTE_OFFS);
    NoteOffsKeepOrder(t, oldUspt, newUspt);
    forall i | 0 <= i < |offs| ensures Matches(NOTE_OFFS, offs[i].evt) { FilterAllMatch(t, NOTE_OFFS, i); }
    hide Exact, Rescaled, Filter, Matches, Retimed;
    RescaleKeepsOrder(offs, oldUspt, newUspt);
  }

  lemma ExactMoveFits(t: seq<Timed>, oldUspt: int, newUspt: int)
    requires oldUspt > 0
    requires Filter(Retimed(t, oldUspt, newUspt), NOTE_OFFS) == ExactAll(Filter(t, NOTE_OFFS), oldUspt, newUspt)
    ensures Fits(t, oldUspt, newUspt)
  {
    var offs, r := Filter(t, NOTE_OFFS), Retimed(t, oldUspt, newUspt);
    FitsFilter(t, oldUspt, newUspt);
    hide Exact, Retimed, Filter;
    forall i | 0 <= i < |offs| && Matches(NOTE_OFFS, offs[i].evt) ensures IsS32(Exact(offs[i].at, oldUspt, newUspt)) {
      var x := ExactAll(offs, oldUspt, newUspt)[i];
      assert x in Filter(r, NOTE_OFFS);
      FilterMember(r, NOTE_OFFS, x);
      if !IsS32(x.at) {
        NoNoteOffBeyond(t, oldUspt, newUspt, x);
      }
    }
  }

  /** A tempo change moves every note-off due at `A` to `(A / old) * new`, all note-offs in their old
      order and ties included, if and only if every such product is a signed 32-bit value. Either way
      no event is lost, and the others stay put. */
  lemma TempoChange(t: seq<Timed>, oldUspt: int, newUspt: int)
    requires oldUspt > 0 && newUspt >= 0 && Sorted(t)
    ensures var r := Retimed(t, oldUspt, newUspt);
      && |r| == |t| && Sorted(r)
      && Filter(r, Other(NOTE_OFFS)) == Filter(t, Other(NOTE_OFFS))
      && (Filter(r, NOTE_OFFS) == ExactAll(Filter(t, NOTE_OFFS), oldUspt, newUspt) <==> Fits(t, oldUspt, newUspt))
  {
    OthersUntouched(t, oldUspt, newUspt);
    NoteOffsKeepOrder(t, oldUspt, newUspt);
    RetimedLength(t, oldUspt, newUspt);
    hide *;
    if Fits(t, oldUspt, newUspt) {
      FitsMovesExactly(t, oldUspt, newUspt);
    }
    if Filter(Retimed(t, oldUspt, newUspt), NOTE_OFFS) == ExactAll(Filter(t, NOTE_OFFS), oldUspt, newUspt) {
      ExactMoveFits(t, oldUspt, newUspt);
    }
  }

  lemma RetimedLength(t: seq<Timed>, oldUspt: int, newUspt: int)
    requires oldUspt > 0
    ensures |Retimed(t, oldUspt, newUspt)| == |t|
  {
    InsertAllLength(Filter(t, Other(NOTE_OFFS)), RescaleAll(Filter(t, NOTE_OFFS), oldUspt, newUspt));
    FilterLengths(t, NOTE_OFFS);
  }

  lemma {:induction false} ShiftInsertAll(t: seq<Timed>, xs: seq<Timed>, shift: int)
    ensures Shift(InsertAll(t, xs), shift) == InsertAll(Shift(t, shift), Shift(xs, shift))
    decreases xs
  {
    if xs != [] {
      ShiftInsert(t, xs[0], shift);
      ShiftInsertAll(StableInsert(t, xs[0]), xs[1..], shift);
      assert Shift(xs, shift)[1..] == Shift(xs[1..], shift);
    }
  }

  /** Counting from another moment does not change what a tempo change does. */
  lemma RetimeShift(t: seq<Timed>, clock: int, oldUspt: int, newUspt: int)
    requires oldUspt > 0
    ensures Shift(Retimed(t, oldUspt, newUspt), clock) == RetimedFrom(Shift(t, clock), clock, oldUspt, newUspt)
  {
    var offs := Filter(t, NOTE_OFFS);
    hide Rescaled;
    FilterShift(t, NOTE_OFFS, clock);
    FilterShift(t, Other(NOTE_OFFS), clock);
    ShiftInsertAll(Filter(t, Other(NOTE_OFFS)), RescaleAll(offs, oldUspt, newUspt), clock);
    assert RescaleFrom(Shift(offs, clock), clock, oldUspt, newUspt) == Shift(RescaleAll(offs, oldUspt, newUspt), clock);
  }

  /** In numbers: note-offs are the events of kind 21, one due at A is put at A / old * new, and that is exact
      as long as the product stays within -2^31 and 2^31. */
  lemma RescaledSpelled(at: nat, oldUspt: int, newUspt: nat)
    requires oldUspt > 0
    ensures at / oldUspt * newUspt < 0x8000_0000 ==> Rescaled(at, oldUspt, newUspt) == at / oldUspt * newUspt
    ensures at / oldUspt * newUspt <= 0x8000_0000 ==> Rescaled(0 - at, oldUspt, newUspt) == 0 - at / oldUspt * newUspt
    ensures forall e :: Matches(NOTE_OFFS, e) <==> e.kind == 21
  {
    var q := at / oldUspt;
    assert TruncDiv(at, oldUspt) == q && TruncDiv(0 - at, oldUspt) == 0 - q;
    ProductSign(q, newUspt);
    if q * newUspt < 0x8000_0000 {
      RescaledExactly(at, oldUspt, newUspt);
    }
    if q * newUspt <= 0x8000_0000 {
      RescaledExactly(0 - at, oldUspt, newUspt);
    }
    hide Rescaled;
  }

  lemma ProductSign(q: nat, n: nat)
    ensures (0 - q) * n == 0 - q * n <= 0
  {}

  /** Beyond that the product wraps: two note-offs one microsecond apart change places. */
  lemma WrappedProductReorders()
    ensures var a, b := Event(AL_CSP_NOTEOFF_EVT, 0, 0), Event(AL_CSP_NOTEOFF_EVT, 1, 0);
            Retimed([Timed(0x3fff_ffff, a), Timed(0x4000_0000, b)], 1, 2) ==
            [Timed(-0x8000_0000, b), Timed(0x7fff_fffe, a)]
  {
    var a, b := Event(AL_CSP_NOTEOFF_EVT, 0, 0), Event(AL_CSP_NOTEOFF_EVT, 1, 0);
    var t := [Timed(0x3fff_ffff, a), Timed(0x4000_0000, b)];
    assert t[1..] == [t[1]];
    assert Filter(t[1..], NOTE_OFFS) == t[1..] && Filter(t, NOTE_OFFS) == t;
    assert !Matches(Other(NOTE_OFFS), a) && !Matches(Other(NOTE_OFFS), b);
    assert Filter(t[1..], Other(NOTE_OFFS)) == [] && Filter(t, Other(NOTE_OFFS)) == [];
    var offs := RescaleAll(t, 1, 2);
    assert offs == [Timed(0x7fff_fffe, a), Timed(-0x8000_0000, b)];
    var one := StableInsert([], offs[0]);
    assert one == [offs[0]] && offs[1..] == [offs[1]];
    assert InsertAll([], offs) == InsertAll(one, offs[1..]) == InsertAll(StableInsert(one, offs[1]), []);
  }
}
