/** What playing a sequence's tracks together means: the stable merge of the tracks by tick. */
module SequenceMerge {
  import opened Wrappers
  import opened TrackBytes

  datatype Tagged = Tagged(track: nat, due: Due)

  /** The track among the first n whose head is due first, the lowest numbered of equals. */
  function EarliestOf(tracks: seq<seq<Due>>, n: nat): (r: Option<nat>)
    requires n <= |tracks|
    ensures r.Some? ==> r.value < n && |tracks[r.value]| > 0
  {
    if n == 0 then None
    else
      var before := EarliestOf(tracks, n - 1);
      if |tracks[n - 1]| > 0 && (before.None? || tracks[n - 1][0].tick < tracks[before.value][0].tick) then Some(n - 1)
      else before
  }

  /** Due first means before every lower track and no later than any other. */
  lemma {:induction false} EarliestIsFirst(tracks: seq<seq<Due>>, n: nat, i: nat)
    requires n <= |tracks| && i < n && |tracks[i]| > 0
    ensures EarliestOf(tracks, n).Some?
    ensures var e := EarliestOf(tracks, n).value;
            tracks[e][0].tick <= tracks[i][0].tick && (i < e ==> tracks[e][0].tick < tracks[i][0].tick)
  {
    if i < n - 1 {
      EarliestIsFirst(tracks, n - 1, i);
    } else if EarliestOf(tracks, n - 1).Some? {
      EarliestIsFirst(tracks, n - 1, EarliestOf(tracks, n - 1).value);
    }
  }

  function Earliest(tracks: seq<seq<Due>>): (r: Option<nat>)
    ensures r.Some? ==> r.value < |tracks| && |tracks[r.value]| > 0
  {
    EarliestOf(tracks, |tracks|)
  }

  function Left(tracks: seq<seq<Due>>): nat {
    if |tracks| == 0 then 0 else |tracks[0]| + Left(tracks[1..])
  }

  lemma {:induction false} LeftDrops(tracks: seq<seq<Due>>, i: nat)
    requires i < |tracks| && |tracks[i]| > 0
    ensures Left(tracks[i := tracks[i][1..]]) == Left(tracks) - 1
  {
    if i > 0 {
      LeftDrops(tracks[1..], i - 1);
      assert tracks[i := tracks[i][1..]][1..] == tracks[1..][i - 1 := tracks[i][1..]];
    }
  }

  function Advance(tracks: seq<seq<Due>>, i: nat): (after: seq<seq<Due>>)
    requires i < |tracks| && |tracks[i]| > 0
    ensures |after| == |tracks|
    ensures Left(after) == Left(tracks) - 1
  {
    LeftDrops(tracks, i);
    tracks[i := tracks[i][1..]]
  }

  function Merge(tracks: seq<seq<Due>>): seq<Tagged>
    decreases Left(tracks)
  {
    match Earliest(tracks)
    case None => []
    case Some(i) => [Tagged(i, tracks[i][0])] + Merge(Advance(tracks, i))
  }

  function OfTrack(events: seq<Tagged>, i: nat): seq<Due> {
    if |events| == 0 then []
    else (if events[0].track == i then [events[0].due] else []) + OfTrack(events[1..], i)
  }

  lemma AllEmpty(tracks: seq<seq<Due>>, i: nat)
    requires i < |tracks| && Earliest(tracks).None?
    ensures tracks[i] == []
  {
    if |tracks[i]| > 0 {
      EarliestIsFirst(tracks, |tracks|, i);
    }
  }

  /** The merge loses and invents nothing: each track comes out whole and in its own order. */
  lemma {:induction false} MergeKeepsTracks(tracks: seq<seq<Due>>, i: nat)
    requires i < |tracks|
    ensures OfTrack(Merge(tracks), i) == tracks[i]
    decreases Left(tracks)
  {
    match Earliest(tracks) {
      case None => AllEmpty(tracks, i);
      case Some(e) =>
        MergeKeepsTracks(Advance(tracks, e), i);
        assert Merge(tracks)[1..] == Merge(Advance(tracks, e));
    }
  }

  predicate NoLater(a: Tagged, b: Tagged) {
    a.due.tick < b.due.tick || (a.due.tick == b.due.tick && a.track <= b.track)
  }

  ghost predicate AllSorted(tracks: seq<seq<Due>>) {
    forall i :: 0 <= i < |tracks| ==> Sorted(tracks[i])
  }

  /** Everything still to come in a merge is some track's event, no earlier than that track's head. */
  lemma {:induction false} MergeFrom(tracks: seq<seq<Due>>, k: nat)
    requires AllSorted(tracks) && k < |Merge(tracks)|
    ensures var m := Merge(tracks)[k];
            m.track < |tracks| && |tracks[m.track]| > 0 && tracks[m.track][0].tick <= m.due.tick
    decreases Left(tracks)
  {
    var e := Earliest(tracks).value;
    if k > 0 {
      var after := Advance(tracks, e);
      assert Merge(tracks)[k] == Merge(after)[k - 1];
      AdvanceSorted(tracks, e);
      MergeFrom(after, k - 1);
    }
  }

  lemma AdvanceSorted(tracks: seq<seq<Due>>, e: nat)
    requires AllSorted(tracks) && e < |tracks| && |tracks[e]| > 0
    ensures AllSorted(Advance(tracks, e))
  {}

  /** Events come out in tick order, and events of equal tick in track order. */
  lemma {:induction false} MergeOrdered(tracks: seq<seq<Due>>, j: nat, k: nat)
    requires AllSorted(tracks) && j < k < |Merge(tracks)|
    ensures NoLater(Merge(tracks)[j], Merge(tracks)[k])
    decreases Left(tracks)
  {
    var e := Earliest(tracks).value;
    var after := Advance(tracks, e);
    AdvanceSorted(tracks, e);
    assert forall i :: 0 < i < |Merge(tracks)| ==> Merge(tracks)[i] == Merge(after)[i - 1];
    if j > 0 {
      MergeOrdered(after, j - 1, k - 1);
    } else {
      MergeFrom(tracks, k);
      EarliestIsFirst(tracks, |tracks|, Merge(tracks)[k].track);
    }
  }
}
