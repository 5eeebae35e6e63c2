/** The compressed sequence reader (platform/audio_sequence.c): sixteen track cursors over one block of
    bytes, read one event at a time in tick order, and a peek at the next delta. */
module SequenceReader {
  import opened Wrappers
  import opened Words
  import opened TrackBytes
  import opened SequenceMerge

  const TRACKS: nat := 16
  const NEVER: nat := 0xFFFF_FFFF

  /** Where a track's expansion stops, and whether a number follows its end of track. */
  datatype Extent = Extent(end: nat, more: bool)

  /** One column of the reader's per-track arrays. `delta` is evtDeltaTicks. */
  datatype Track = Track(cursor: Cursor, lastStatus: byte, delta: nat)

  datatype Kind =
    | MidiEvent(status: byte, byte1: byte, byte2: byte, duration: nat)
    | TempoEvent(hi: byte, mid: byte, lo: byte)
    | LoopStartEvent
    | TrackEnd
    | SequenceEnd

  datatype Event = Event(kind: Kind, ticks: int)

  function KindOf(m: Message, last: bool): Kind {
    match m
    case Midi(status, byte1, byte2, duration) => MidiEvent(status, byte1, byte2, duration)
    case Tempo(hi, mid, lo) => TempoEvent(hi, mid, lo)
    case LoopStart => LoopStartEvent
    case EndOfTrack => if last then SequenceEnd else TrackEnd
    case UnknownMeta => TrackEnd
  }

  /** Ticks a 32-bit reader can tell from the "no track" value. */
  ghost predicate Playable(events: seq<Due>) {
    forall i :: 0 <= i < |events| ==> events[i].tick < NEVER
  }

  /** The bytes at a cursor parse to these events. */
  ghost predicate Yields(data: seq<byte>, c: Cursor, status: byte, end: Extent, at: nat, events: seq<Due>) {
    && Remaining(data, c, end.end).Some?
    && Parse(Remaining(data, c, end.end).value, status, at, end.more) == Some(events)
  }

  /** A valid track's cursor reads its pending events, the next of them due at its delta; never in the past. */
  ghost predicate Waits(data: seq<byte>, t: Track, valid: bool, end: Extent, origin: int, now: nat, events: seq<Due>) {
    if valid then
      && now <= origin + t.delta && Playable(events)
      && Yields(data, t.cursor, t.lastStatus, end, origin + t.delta, events)
    else events == []
  }

  /** The message a waiting track has next. */
  lemma WaitingHead(data: seq<byte>, t: Track, end: Extent, origin: int, now: nat, events: seq<Due>)
    requires Waits(data, t, true, end, origin, now, events)
    ensures var bytes := Remaining(data, t.cursor, end.end).value;
            && Decode(bytes, t.lastStatus).Some? && |events| > 0
            && events[0] == Due(origin + t.delta, Decode(bytes, t.lastStatus).value.message)
            && events[0].tick < NEVER
  {
    hide Remaining, Decode;
    ParseStep(Remaining(data, t.cursor, end.end).value, t.lastStatus, origin + t.delta, end.more);
  }

  lemma StillWaits(data: seq<byte>, t: Track, valid: bool, end: Extent, origin: int, now: nat, later: nat,
                   events: seq<Due>)
    requires Waits(data, t, valid, end, origin, now, events)
    requires valid && |events| > 0 ==> later <= events[0].tick
    ensures Waits(data, t, valid, end, origin, later, events)
  {
    if valid {
      WaitingHead(data, t, end, origin, now, events);
    }
  }

  /** The track `after` has read one message of `t`, not its end, and the delta that follows it. */
  ghost predicate FollowsOn(data: seq<byte>, t: Track, after: Track, end: Extent) {
    Remaining(data, t.cursor, end.end).Some? &&
    var bytes := Remaining(data, t.cursor, end.end).value;
    Decode(bytes, t.lastStatus).Some? &&
    var d := Decode(bytes, t.lastStatus).value;
    && after.lastStatus == d.status && !d.message.EndOfTrack?
    && (d.message.UnknownMeta? ==>
          after.delta == t.delta && Remaining(data, after.cursor, end.end) == Some(bytes[d.used..]))
    && (!d.message.UnknownMeta? ==>
          var rest := bytes[d.used..];
          VarLen(rest).Some? &&
          var number := VarLen(rest).value;
          after.delta == WrapAdd(t.delta, number.value) &&
          Remaining(data, after.cursor, end.end) == Some(rest[number.used..]))
  }

  /** Past a message that is not the end, the track waits for the next. */
  lemma WaitsForNext(data: seq<byte>, t: Track, after: Track, end: Extent, origin: int, now: nat, events: seq<Due>)
    requires Waits(data, t, true, end, origin, now, events) && FollowsOn(data, t, after, end) && origin >= 0
    ensures |events| > 0 && Waits(data, after, true, end, origin, events[0].tick, events[1..])
  {
    hide Remaining, Decode, VarLen, WrapAdd, Parse;
    var bytes := Remaining(data, t.cursor, end.end).value;
    var d := Decode(bytes, t.lastStatus).value;
    var at := origin + t.delta;
    ParseStep(bytes, t.lastStatus, at, end.more);
    ParseShape(bytes, t.lastStatus, at, end.more);
    if !d.message.UnknownMeta? {
      var number := VarLen(bytes[d.used..]).value;
      ParseStep(bytes[d.used..][number.used..], d.status, at + number.value, end.more);
      assert events[1].tick == at + number.value < NEVER;
      SumFits(t.delta, number.value);
    }
  }

  /** The clock moves to the event due first; everyone else still waits. */
  lemma OthersWait(data: seq<byte>, tracks: seq<Track>, valid: seq<bool>, ends: seq<Extent>, origin: int, now: nat,
                   events: seq<seq<Due>>, first: nat)
    requires |tracks| == |valid| == |ends| == |events| && Earliest(events) == Some(first)
    requires forall i :: 0 <= i < |tracks| ==> Waits(data, tracks[i], valid[i], ends[i], origin, now, events[i])
    ensures forall i :: 0 <= i < |tracks| ==>
              Waits(data, tracks[i], valid[i], ends[i], origin, events[first][0].tick, events[i])
  {
    hide Waits;
    forall i | 0 <= i < |tracks|
      ensures Waits(data, tracks[i], valid[i], ends[i], origin, events[first][0].tick, events[i])
    {
      if |events[i]| > 0 {
        EarliestIsFirst(events, |events|, i);
      }
      StillWaits(data, tracks[i], valid[i], ends[i], origin, now, events[first][0].tick, events[i]);
    }
  }

  /** An absent track, or one whose expansion up to `end` is a first delta and then the song. */
  ghost predicate Opens(data: seq<byte>, offset: nat, end: Extent, song: seq<Due>) {
    if offset == 0 then song == []
    else
      match Expand(data, offset, end.end)
      case None => false
      case Some(bytes) =>
        match VarLen(bytes)
        case None => false
        case Some(delta) => Parse(bytes[delta.used..], 0, delta.value, end.more) == Some(song) && Playable(song)
  }

  /** A number follows the end of the track that is the last to end. */
  ghost predicate LastGoesOn(songs: seq<seq<Due>>, ends: seq<Extent>)
    requires |songs| == |ends|
  {
    var all := Merge(songs);
    |all| > 0 ==> LastTrack(all) < |ends| && ends[LastTrack(all)].more
  }

  function LastTrack(all: seq<Tagged>): nat
    requires |all| > 0
  {
    all[|all| - 1].track
  }

  lemma MergeStep(songs: seq<seq<Due>>, i: nat)
    requires Earliest(songs) == Some(i)
    ensures Merge(songs) == [Tagged(i, songs[i][0])] + Merge(Advance(songs, i))
    ensures Merge(Advance(songs, i)) == [] <==> Earliest(Advance(songs, i)).None?
  {}

  lemma StillGoesOn(songs: seq<seq<Due>>, ends: seq<Extent>, i: nat)
    requires |songs| == |ends| && LastGoesOn(songs, ends) && Earliest(songs) == Some(i)
    ensures LastGoesOn(Advance(songs, i), ends)
    ensures Earliest(Advance(songs, i)).None? ==> ends[i].more
  {
    hide Merge, EarliestOf;
    MergeStep(songs, i);
    var all, left := Merge(songs), Merge(Advance(songs, i));
    if |left| > 0 {
      assert all[|all| - 1] == left[|left| - 1];
    }
  }

  lemma OpensWaiting(data: seq<byte>, offset: nat, end: Extent, song: seq<Due>)
    requires Opens(data, offset, end, song) && offset != 0
    ensures Expand(data, offset, end.end).Some?
    ensures var bytes := Remaining(data, Cursor(offset, 0, 0), end.end); bytes.Some? && VarLen(bytes.value).Some?
    ensures Remaining(data, Cursor(offset, 0, 0), end.end) == Expand(data, offset, end.end)
  {
    hide Expand, VarLen, Parse;
    var bytes := Expand(data, offset, end.end).value;
    assert data[0..0] + bytes == bytes;
  }

  lemma FirstDelta(data: seq<byte>, t: Track, offset: nat, end: Extent, song: seq<Due>)
    requires Opens(data, offset, end, song) && offset != 0 && t.lastStatus == 0
    requires Expand(data, offset, end.end).Some?
    requires var bytes := Expand(data, offset, end.end).value;
             VarLen(bytes).Some? && t.delta == VarLen(bytes).value.value &&
             Remaining(data, t.cursor, end.end) == Some(bytes[VarLen(bytes).value.used..])
    ensures Waits(data, t, true, end, 0, 0, song)
  {
    hide Expand, VarLen, Parse, Remaining;
  }

  lemma AbsentWaits(data: seq<byte>, t: Track, end: Extent, song: seq<Due>)
    requires Opens(data, 0, end, song)
    ensures Waits(data, t, false, end, 0, 0, song)
  {}

  /** The end of the only track that waits leaves nothing. */
  lemma NoneLeft(data: seq<byte>, tracks: seq<Track>, valid: seq<bool>, left: seq<bool>, ends: seq<Extent>, origin: int,
                 now: nat, events: seq<seq<Due>>, first: nat)
    requires |tracks| == |valid| == |left| == |ends| == |events| && first < |events|
    requires forall i :: 0 <= i < |tracks| ==> Waits(data, tracks[i], valid[i], ends[i], origin, now, events[i])
    requires left == valid[first := left[first]] && true !in left
    requires |events[first]| > 0 && events[first][1..] == []
    ensures Earliest(Advance(events, first)).None?
  {
    hide Yields, Playable, EarliestOf;
    var after := Advance(events, first);
    forall i | 0 <= i < |after| ensures after[i] == [] {
      if i != first {
        assert left[i] in left && !valid[i];
        assert Waits(data, tracks[i], valid[i], ends[i], origin, now, events[i]);
      }
    }
  }

  lemma GoneInvalid(data: seq<byte>, t: Track, end: Extent, origin: int, now: nat)
    ensures Waits(data, t, false, end, origin, now, [])
  {}

  lemma NextToken(data: seq<byte>, loc: nat, end: nat)
    requires Expand(data, loc, end).Some? && |Expand(data, loc, end).value| > 0
    ensures var token := Token(data, loc);
            && token.Some? && Expand(data, token.value.1, end).Some?
            && Expand(data, loc, end).value == token.value.0 + Expand(data, token.value.1, end).value
  {}

  ghost predicate Readable(data: seq<byte>, c: Cursor, end: nat) {
    Remaining(data, c, end).Some? && |Remaining(data, c, end).value| > 0
  }

  /** The byte that is read, and all that is left after it. */
  ghost predicate ReadsOne(data: seq<byte>, c: Cursor, end: nat, value: byte, after: Cursor)
    requires Readable(data, c, end)
  {
    && value == Remaining(data, c, end).value[0]
    && Remaining(data, after, end) == Some(Remaining(data, c, end).value[1..])
  }

  lemma ReadCopy(data: seq<byte>, c: Cursor, end: nat)
    requires Readable(data, c, end) && c.copyLength > 0
    ensures c.copyFrom < |data|
    ensures ReadsOne(data, c, end, data[c.copyFrom], c.(copyFrom := c.copyFrom + 1, copyLength := c.copyLength - 1))
  {
    hide Expand;
    var copy, rest := data[c.copyFrom..c.copyFrom + c.copyLength], Expand(data, c.loc, end).value;
    assert (copy + rest)[1..] == copy[1..] + rest;
    assert copy[1..] == data[c.copyFrom + 1..c.copyFrom + c.copyLength];
  }

  /** Outside a copy, the reader takes the first byte of the next token and leaves the rest as a copy. */
  lemma ReadToken(data: seq<byte>, c: Cursor, end: nat, from: nat)
    requires Readable(data, c, end) && c.copyLength == 0
    ensures Token(data, c.loc).Some?
    ensures var (bytes, next) := Token(data, c.loc).value;
            (|bytes| == 1 ==> ReadsOne(data, c, end, bytes[0], c.(loc := next))) &&
            (from + |bytes| <= |data| && bytes == data[from..from + |bytes|] ==>
               ReadsOne(data, c, end, bytes[0], Cursor(next, from + 1, |bytes| - 1)))
  {
    hide Token;
    var whole := Expand(data, c.loc, end).value;
    assert Remaining(data, c, end).value == whole;
    NextToken(data, c.loc, end);
    var (bytes, next) := Token(data, c.loc).value;
    var rest := Expand(data, next, end).value;
    assert (bytes + rest)[1..] == bytes[1..] + rest;
    if |bytes| == 1 {
      assert bytes[1..] + rest == rest;
    }
    if from + |bytes| <= |data| && bytes == data[from..from + |bytes|] {
      assert bytes[1..] == data[from + 1..from + |bytes|];
    }
  }

  /** One more byte of a number. */
  lemma NumberStep(bytes: seq<byte>, read: nat, value: nat)
    requires read <= |bytes| && VarLenFrom(value, bytes[read..]).Some?
    ensures read < |bytes| && bytes[read..][1..] == bytes[read + 1..]
    ensures var v := (value * 128 + bytes[read] as nat % 128) % WORD;
            Plus(read, VarLenFrom(value, bytes[read..])) ==
            (if bytes[read] < 0x80 then Some(Number(v, read + 1)) else Plus(read + 1, VarLenFrom(v, bytes[read + 1..])))
    ensures bytes[read] >= 0x80 ==>
              VarLenFrom((value * 128 + bytes[read] as nat % 128) % WORD, bytes[read + 1..]).Some?
  {
    assert bytes[read..] == [bytes[read]] + bytes[read + 1..];
    ReadByte(value, bytes[read], bytes[read] as nat % 128, bytes[read + 1..]);
  }

  class Reader {
    const data: seq<byte>
    ghost const ends: seq<Extent>
    var tracks: seq<Track>
    var valid: seq<bool>
    var lastTicks: nat
    var lastDeltaTicks: nat
    var deltaFlag: bool

    /** What is still to be played, track by track. */
    ghost var pending: seq<seq<Due>>

    ghost predicate Shaped()
      reads this
    {
      |tracks| == |valid| == |ends| == |pending| == TRACKS
    }

    /** Open a sequence: every track present reads its first delta. */
    constructor (data: seq<byte>, offsets: seq<nat>, ghost ends: seq<Extent>, ghost songs: seq<seq<Due>>)
      requires |offsets| == |ends| == |songs| == TRACKS
      requires forall i :: 0 <= i < TRACKS ==> Opens(data, offsets[i], ends[i], songs[i])
      requires LastGoesOn(songs, ends)
      ensures Valid() && pending == songs && lastTicks == 0 && this.data == data
    {
      this.data := data;
      this.ends := ends;
      this.tracks := seq(TRACKS, _ => Track(Cursor(0, 0, 0), 0, 0));
      this.valid := seq(TRACKS, _ => false);
      lastTicks, lastDeltaTicks, deltaFlag := 0, 0, true;
      pending := songs;
      new;
      hide Waits, Opens;
      for i := 0 to TRACKS
        invariant Shaped() && lastTicks == lastDeltaTicks == 0 && deltaFlag && pending == songs
        invariant this.data == data && this.ends == ends
        invariant forall j :: 0 <= j < i ==> Waits(data, tracks[j], valid[j], ends[j], 0, 0, songs[j])
        invariant forall j :: i <= j < TRACKS ==> !valid[j]
      {
        OpenTrack(i, offsets[i]);
      }
    }

    /** An absent track stays invalid; a present one reads its first delta. */
    method OpenTrack(i: nat, offset: nat)
      requires Shaped() && i < TRACKS && !valid[i] && Opens(data, offset, ends[i], pending[i])
      modifies this`tracks, this`valid
      ensures Shaped() && Waits(data, tracks[i], valid[i], ends[i], 0, 0, pending[i])
      ensures tracks == old(tracks)[i := tracks[i]] && valid == old(valid)[i := valid[i]]
    {
      hide Opens, Waits, Expand;
      tracks := tracks[i := Track(Cursor(offset, 0, 0), 0, 0)];
      if offset != 0 {
        valid := valid[i := true];
        OpensWaiting(data, offset, ends[i], pending[i]);
        var delta := ReadVarLen(i);
        tracks := tracks[i := tracks[i].(delta := delta)];
        FirstDelta(data, tracks[i], offset, ends[i], pending[i]);
      } else {
        AbsentWaits(data, tracks[i], ends[i], pending[i]);
      }
    }

    /** What track t's cursor still has to read. */
    ghost function Stream(t: nat): Option<seq<byte>>
      requires Shaped() && t < TRACKS
      reads this
    {
      Remaining(data, tracks[t].cursor, ends[t].end)
    }

    /** One byte of a track: the next of its expansion. */
    method TrackByte(t: nat) returns (value: byte)
      requires Shaped() && t < TRACKS && Stream(t).Some? && |Stream(t).value| > 0
      modifies this`tracks
      ensures Shaped() && tracks == old(tracks)[t := old(tracks)[t].(cursor := tracks[t].cursor)]
      ensures Stream(t) == Some(old(Stream(t)).value[1..]) && value == old(Stream(t)).value[0]
    {
      hide Remaining, Expand;
      var c := tracks[t].cursor;
      if c.copyLength != 0 {
        ReadCopy(data, c, ends[t].end);
        value := data[c.copyFrom];
        tracks := tracks[t := tracks[t].(cursor := c.(copyFrom := c.copyFrom + 1, copyLength := c.copyLength - 1))];
        return;
      }
      ReadToken(data, c, ends[t].end, 0);
      value := data[c.loc];
      var after := c.(loc := c.loc + 1);
      if value == BLOCK_CODE {
        var next := data[after.loc];
        after := after.(loc := after.loc + 1);
        if next != BLOCK_CODE {
          var low := data[after.loc];
          var length := data[after.loc + 1];
          var loc := after.loc + 2;
          var backup := next as nat * 256 + low as nat;
          var from := loc - (backup + 4);
          ReadToken(data, c, ends[t].end, from);
          value := data[from];
          after := Cursor(loc, from + 1, (length as nat + 255) % 256);
        }
      }
      tracks := tracks[t := tracks[t].(cursor := after)];
    }

    method ReadVarLen(t: nat) returns (value: nat)
      requires Shaped() && t < TRACKS && Stream(t).Some? && VarLen(Stream(t).value).Some?
      modifies this`tracks
      ensures Shaped() && tracks == old(tracks)[t := old(tracks)[t].(cursor := tracks[t].cursor)]
      ensures var number := VarLen(old(Stream(t)).value).value;
              value == number.value && Stream(t) == Some(old(Stream(t)).value[number.used..])
    {
      hide VarLenFrom, Remaining;
      ghost var bytes := Stream(t).value;
      assert bytes[0..] == bytes;
      NumberStep(bytes, 0, 0);
      var b := TrackByte(t);
      value := b as nat;
      if b >= 0x80 {
        value := value % 128;
        var next := b;
        ghost var read := 1;
        while next >= 0x80
          invariant Shaped() && tracks == old(tracks)[t := old(tracks)[t].(cursor := tracks[t].cursor)]
          invariant read <= |bytes| && Stream(t) == Some(bytes[read..]) && value < WORD
          invariant next >= 0x80 ==> VarLenFrom(value, bytes[read..]).Some?
          invariant next >= 0x80 ==> Plus(read, VarLenFrom(value, bytes[read..])) == VarLen(bytes)
          invariant next < 0x80 ==> Some(Number(value, read)) == VarLen(bytes)
          decreases |bytes| - read, next
        {
          NumberStep(bytes, read, value);
          next := TrackByte(t);
          value := (value * 128 + next as nat % 128) % WORD;
          read := read + 1;
        }
      }
    }

    /** Only track t has moved: its cursor by `used` bytes of `bytes`, its running status to `status`. */
    twostate predicate Moved(t: nat, bytes: seq<byte>, used: nat, status: byte)
      requires t < TRACKS && old(Shaped())
      reads this
    {
      && Shaped() && used <= |bytes| && Stream(t) == Some(bytes[used..])
      && tracks == old(tracks)[t := old(tracks)[t].(cursor := tracks[t].cursor, lastStatus := status)]
    }

    /** The rest of a message after its 0xFF. */
    method MetaEvent(t: nat, ghost bytes: seq<byte>) returns (kind: Kind, ghost m: Message)
      requires Shaped() && t < TRACKS && |bytes| > 0 && Stream(t) == Some(bytes[1..])
      requires DecodeMeta(bytes, tracks[t].lastStatus).Some?
      modifies this`tracks, this`valid
      ensures var d := DecodeMeta(bytes, old(tracks[t].lastStatus)).value;
              m == d.message && Moved(t, bytes, d.used, d.status)
      ensures valid == if m.EndOfTrack? then old(valid)[t := !old(valid)[t]] else old(valid)
      ensures kind == KindOf(m, true !in valid)
    {
      hide Remaining;
      var metaType := Next(t, bytes, 1);
      if metaType == META_TEMPO {
        var hi := Next(t, bytes, 2);
        var mid := Next(t, bytes, 3);
        var lo := Next(t, bytes, 4);
        tracks := tracks[t := tracks[t].(lastStatus := 0)];
        kind, m := TempoEvent(hi, mid, lo), Tempo(hi, mid, lo);
      } else if metaType == META_EOT {
        valid := valid[t := !valid[t]];
        kind := if true in valid then TrackEnd else SequenceEnd;
        m := EndOfTrack;
      } else if metaType == LOOPSTART_CODE {
        var _ := Next(t, bytes, 2);
        var _ := Next(t, bytes, 3);
        tracks := tracks[t := tracks[t].(lastStatus := 0)];
        kind, m := LoopStartEvent, LoopStart;
      } else {
        kind, m := TrackEnd, UnknownMeta;
      }
    }

    /** TrackByte, with the byte named by its place in a message. */
    method Next(t: nat, ghost bytes: seq<byte>, ghost n: nat) returns (value: byte)
      requires Shaped() && t < TRACKS && n < |bytes| && Stream(t) == Some(bytes[n..])
      modifies this`tracks
      ensures Shaped() && tracks == old(tracks)[t := old(tracks)[t].(cursor := tracks[t].cursor)]
      ensures Stream(t) == Some(bytes[n + 1..]) && value == bytes[n]
    {
      hide Remaining;
      DropMore(bytes, n, 1);
      value := TrackByte(t);
    }

    /** The rest of a channel message after its status and first data byte. */
    method ChannelEvent(t: nat, status: byte, byte1: byte, ghost bytes: seq<byte>, ghost n: nat)
      returns (kind: Kind, ghost m: Message)
      requires Shaped() && t < TRACKS && n <= |bytes| && Stream(t) == Some(bytes[n..])
      requires DecodeMidi(status, byte1, bytes, n, tracks[t].lastStatus).Some?
      modifies this`tracks
      ensures var d := DecodeMidi(status, byte1, bytes, n, old(tracks[t].lastStatus)).value;
              m == d.message && Moved(t, bytes, d.used, old(tracks[t].lastStatus))
      ensures kind == KindOf(m, true !in valid)
    {
      hide Remaining, VarLen;
      if Family(status) != PROGRAM_CHANGE && Family(status) != CHANNEL_PRESSURE {
        var byte2 := Next(t, bytes, n);
        if Family(status) == NOTE_ON {
          DropMore(bytes, n + 1, VarLen(bytes[n + 1..]).value.used);
          var duration := ReadVarLen(t);
          kind, m := MidiEvent(status, byte1, byte2, duration), Midi(status, byte1, byte2, duration);
        } else {
          kind, m := MidiEvent(status, byte1, byte2, 0), Midi(status, byte1, byte2, 0);
        }
      } else {
        kind, m := MidiEvent(status, byte1, 0, 0), Midi(status, byte1, 0, 0);
      }
    }

    /** A byte of 0x80 or more is a new status; anything less continues the running one. */
    method TrackEvent(t: nat) returns (kind: Kind, ghost m: Message)
      requires Shaped() && t < TRACKS && Stream(t).Some? && Decode(Stream(t).value, tracks[t].lastStatus).Some?
      modifies this`tracks, this`valid
      ensures var d := Decode(old(Stream(t)).value, old(tracks[t].lastStatus)).value;
              m == d.message && Moved(t, old(Stream(t)).value, d.used, d.status)
      ensures valid == if m.EndOfTrack? then old(valid)[t := !old(valid)[t]] else old(valid)
      ensures kind == KindOf(m, true !in valid)
    {
      hide Remaining, DecodeMidi, DecodeMeta;
      ghost var bytes := Stream(t).value;
      assert bytes[0..] == bytes;
      var status := Next(t, bytes, 0);
      if status == META {
        kind, m := MetaEvent(t, bytes);
      } else if status >= 0x80 {
        var byte1 := Next(t, bytes, 1);
        tracks := tracks[t := tracks[t].(lastStatus := status)];
        kind, m := ChannelEvent(t, status, byte1, bytes, 2);
      } else {
        kind, m := ChannelEvent(t, tracks[t].lastStatus, status, bytes, 1);
      }
    }

    /** The tick that a delta of 0 stands for. */
    ghost function Origin(): int
      reads this
    {
      lastTicks - (if deltaFlag then lastDeltaTicks else 0)
    }

    ghost predicate Ready(i: nat)
      requires Shaped() && i < TRACKS
      reads this
    {
      Waits(data, tracks[i], valid[i], ends[i], Origin(), lastTicks, pending[i])
    }

    ghost predicate Valid()
      reads this
    {
      && Shaped() && lastDeltaTicks <= lastTicks < NEVER && LastGoesOn(pending, ends)
      && forall i :: 0 <= i < TRACKS ==> Ready(i)
    }

    lemma ReadyHead(i: nat)
      requires Shaped() && i < TRACKS && Ready(i) && valid[i]
      ensures Stream(i).Some? && Decode(Stream(i).value, tracks[i].lastStatus).Some?
      ensures |pending[i]| > 0 && pending[i][0].tick < NEVER
      ensures pending[i][0] ==
              Due(Origin() + tracks[i].delta, Decode(Stream(i).value, tracks[i].lastStatus).value.message)
    {
      WaitingHead(data, tracks[i], ends[i], Origin(), lastTicks, pending[i]);
    }

    /** What follows the message of a waiting track. */
    lemma ParsedTail(i: nat)
      requires Shaped() && i < TRACKS && Ready(i) && valid[i]
      ensures Stream(i).Some? && Decode(Stream(i).value, tracks[i].lastStatus).Some? && |pending[i]| > 0
      ensures var d := Decode(Stream(i).value, tracks[i].lastStatus).value;
              && (!d.message.UnknownMeta? && (d.message.EndOfTrack? ==> ends[i].more) ==>
                    VarLen(Stream(i).value[d.used..]).Some?)
              && (d.message.EndOfTrack? ==> pending[i][1..] == [])
    {
      hide Remaining, Decode, VarLen;
      ParseStep(Stream(i).value, tracks[i].lastStatus, Origin() + tracks[i].delta, ends[i].more);
    }

    /** Take the last event's delta off every valid track, once, and find the track due first. */
    method FindFirst() returns (firstTime: nat, firstTrack: nat)
      requires Valid() && true in valid
      modifies this`tracks, this`deltaFlag
      ensures Valid() && !deltaFlag
      ensures Earliest(pending) == Some(firstTrack) && valid[firstTrack]
      ensures firstTime == tracks[firstTrack].delta == pending[firstTrack][0].tick - lastTicks < NEVER
    {
      hide Yields, Playable;
      forall i | 0 <= i < TRACKS
        ensures HeadDue(tracks[i], valid[i], Shift(deltaFlag, lastDeltaTicks), lastTicks, pending[i])
      {
        assert Ready(i);
        if valid[i] {
          ReadyHead(i);
        }
      }
      tracks, firstTime, firstTrack := Scan(tracks, valid, deltaFlag, lastDeltaTicks, pending, lastTicks);
      deltaFlag := false;
      forall i | 0 <= i < TRACKS ensures Ready(i) {
        assert old(Ready(i));
      }
    }

    /** The next event of the merge, its ticks counted from the event before it. */
    method NextEvent() returns (event: Event)
      requires Valid()
      modifies this`tracks, this`valid, this`lastTicks, this`lastDeltaTicks, this`deltaFlag, this`pending
      ensures Valid()
      ensures Earliest(old(pending)).None? ==>
                event == Event(SequenceEnd, 0) && pending == old(pending) && lastTicks == old(lastTicks)
      ensures Earliest(old(pending)).Some? ==>
                var i := Earliest(old(pending)).value;
                var first := old(pending)[i][0];
                && pending == Advance(old(pending), i) && lastTicks == first.tick
                && event.kind == KindOf(first.message, Earliest(pending).None?)
                && old(lastTicks) + event.ticks == first.tick
    {
      hide Waits, EarliestOf, KindOf;
      NoneValid();
      if true !in valid {
        return Event(SequenceEnd, 0);
      }
      event := EmitFirst();
    }

    /** The valid tracks after a message of track t. */
    ghost function ValidAfter(t: nat, m: Message): seq<bool>
      requires t < |valid|
      reads this
    {
      if m.EndOfTrack? then valid[t := !valid[t]] else valid
    }

    /** A message, and the delta that follows it unless it was a track's end. */
    method ReadMessage(t: nat) returns (kind: Kind, ghost m: Message)
      requires Shaped() && t < TRACKS && Stream(t).Some? && Decode(Stream(t).value, tracks[t].lastStatus).Some?
      requires var d := Decode(Stream(t).value, tracks[t].lastStatus).value;
               KindOf(d.message, true !in ValidAfter(t, d.message)) != TrackEnd ==>
                 VarLen(Stream(t).value[d.used..]).Some?
      modifies this`tracks, this`valid
      ensures Shaped() && m == Decode(old(Stream(t)).value, old(tracks[t].lastStatus)).value.message
      ensures tracks == old(tracks)[t := tracks[t]] && valid == old(ValidAfter(t, m))
      ensures kind == KindOf(m, true !in valid)
      ensures !m.EndOfTrack? ==> FollowsOn(data, old(tracks[t]), tracks[t], ends[t])
    {
      hide Remaining, Decode, VarLen, WrapAdd;
      kind, m := TrackEvent(t);
      if kind != TrackEnd {
        var delta := ReadVarLen(t);
        tracks := tracks[t := tracks[t].(delta := WrapAdd(tracks[t].delta, delta))];
      }
    }

    /** The track due first can be read: a number follows its message unless that ends it, and even then if
        no other track is left. */
    lemma NumberFollows(t: nat)
      requires Valid() && Earliest(pending) == Some(t) && valid[t]
      ensures Stream(t).Some? && Decode(Stream(t).value, tracks[t].lastStatus).Some?
      ensures var d := Decode(Stream(t).value, tracks[t].lastStatus).value;
              && (KindOf(d.message, true !in ValidAfter(t, d.message)) != TrackEnd ==>
                    VarLen(Stream(t).value[d.used..]).Some?)
              && |pending[t]| > 0 && d.message == pending[t][0].message
              && (d.message.EndOfTrack? ==> pending[t][1..] == [])
    {
      hide Remaining, Decode, VarLen, EarliestOf, LastGoesOn, Waits;
      assert Ready(t);
      ReadyHead(t);
      ParsedTail(t);
      StillGoesOn(pending, ends, t);
      var d := Decode(Stream(t).value, tracks[t].lastStatus).value;
      var left := ValidAfter(t, d.message);
      if d.message.EndOfTrack? && true !in left {
        forall i | 0 <= i < TRACKS ensures Waits(data, tracks[i], valid[i], ends[i], Origin(), lastTicks, pending[i]) {
          assert Ready(i);
        }
        NoneLeft(data, tracks, valid, left, ends, Origin(), lastTicks, pending, t);
      }
    }

    /** Everyone waits again, once the first event has been read and the clock has moved to it. */
    lemma AllWait(tracks0: seq<Track>, valid0: seq<bool>, events: seq<seq<Due>>, origin: int, now: nat, t: nat,
                  m: Message)
      requires Shaped() && |tracks0| == |valid0| == |events| == TRACKS
      requires t < TRACKS && Earliest(events) == Some(t) && valid0[t]
      requires forall i :: 0 <= i < TRACKS ==> Waits(data, tracks0[i], valid0[i], ends[i], origin, now, events[i])
      requires tracks == tracks0[t := tracks[t]] && valid == if m.EndOfTrack? then valid0[t := false] else valid0
      requires if m.EndOfTrack? then events[t][1..] == [] else FollowsOn(data, tracks0[t], tracks[t], ends[t])
      requires pending == Advance(events, t) && 0 <= origin == Origin() && lastTicks == events[t][0].tick
      ensures forall i :: 0 <= i < TRACKS ==> Ready(i)
    {
      hide Waits, FollowsOn, EarliestOf;
      OthersWait(data, tracks0, valid0, ends, origin, now, events, t);
      if m.EndOfTrack? {
        GoneInvalid(data, tracks[t], ends[t], origin, lastTicks);
      } else {
        WaitsForNext(data, tracks0[t], tracks[t], ends[t], origin, now, events[t]);
      }
      forall i | 0 <= i < TRACKS ensures Ready(i) {
        if i != t {
          assert Waits(data, tracks0[i], valid0[i], ends[i], origin, lastTicks, events[i]);
        }
      }
    }

    method EmitFirst() returns (event: Event)
      requires Valid() && true in valid && Earliest(pending).Some?
      modifies this`tracks, this`valid, this`lastTicks, this`lastDeltaTicks, this`deltaFlag, this`pending
      ensures Valid()
      ensures var i := Earliest(old(pending)).value;
              var first := old(pending)[i][0];
              && pending == Advance(old(pending), i) && lastTicks == first.tick
              && event.kind == KindOf(first.message, Earliest(pending).None?)
              && old(lastTicks) + event.ticks == first.tick
    {
      hide Waits, FollowsOn, Decode, VarLen, Remaining, WrapAdd, EarliestOf, LastGoesOn;
      var firstTime, firstTrack := FindFirst();
      NumberFollows(firstTrack);
      ReadyHead(firstTrack);
      StillGoesOn(pending, ends, firstTrack);
      ghost var others, flags, events, now, origin := tracks, valid, pending, lastTicks, Origin();
      forall i | 0 <= i < TRACKS ensures Waits(data, others[i], flags[i], ends[i], origin, now, events[i]) {
        assert Ready(i);
      }
      var kind, message := ReadMessage(firstTrack);
      SumFits(lastTicks, firstTime);
      lastTicks := WrapAdd(lastTicks, firstTime);
      lastDeltaTicks := firstTime;
      deltaFlag := true;
      pending := Advance(pending, firstTrack);
      event := Event(kind, firstTime);
      AllWait(others, flags, events, origin, now, firstTrack, message);
      NoneValid();
    }

    /** The ticks to the next event. Peeking changes nothing that is still to come. */
    method NextDelta() returns (ok: bool, deltaTicks: int)
      requires Valid()
      modifies this`tracks, this`deltaFlag
      ensures Valid()
      ensures ok <==> Earliest(pending).Some?
      ensures ok ==> deltaTicks == ToS32(pending[Earliest(pending).value][0].tick - lastTicks)
    {
      hide Waits, EarliestOf;
      NoneValid();
      if true !in valid {
        return false, 0;
      }
      var firstTime, _ := FindFirst();
      return true, ToS32(firstTime);
    }

    /** Nothing is pending exactly when no track is valid. */
    lemma NoneValid()
      requires Valid()
      ensures true !in valid <==> Earliest(pending).None?
    {
      forall i | 0 <= i < TRACKS ensures valid[i] <==> |pending[i]| > 0 {
        assert Ready(i);
        if valid[i] {
          ReadyHead(i);
        }
      }
      if Earliest(pending).None? {
        forall i | 0 <= i < TRACKS ensures !valid[i] {
          AllEmpty(pending, i);
        }
      }
    }
  }

  /** The events a reader reports for what is still to come: ticks count from the event before. */
  function Reported(all: seq<Tagged>, from: int): seq<Event> {
    if |all| == 0 then []
    else [Event(KindOf(all[0].due.message, |all| == 1), all[0].due.tick - from)] + Reported(all[1..], all[0].due.tick)
  }

  /** Reading on until the end, with any number of peeks before each event, reports exactly the merge of the
      tracks. */
  method PlayAll(r: Reader, peeks: seq<nat>) returns (events: seq<Event>)
    requires r.Valid()
    modifies r
    ensures r.Valid() && events == Reported(Merge(old(r.pending)), old(r.lastTicks))
    ensures Earliest(r.pending).None?
  {
    hide Reader.Valid, Merge, EarliestOf, KindOf;
    events := [];
    ghost var whole := Reported(Merge(r.pending), r.lastTicks);
    assert events + whole == whole;
    r.NoneValid();
    while true in r.valid
      invariant r.Valid() && whole == events + Reported(Merge(r.pending), r.lastTicks)
      invariant true in r.valid <==> Earliest(r.pending).Some?
      decreases Left(r.pending)
    {
      ghost var pending, ticks := r.pending, r.lastTicks;
      var n := if |events| < |peeks| then peeks[|events|] else 0;
      for i := 0 to n
        invariant r.Valid() && r.pending == pending && r.lastTicks == ticks
      {
        var _, _ := r.NextDelta();
      }
      var event := r.NextEvent();
      MergeStep(pending, Earliest(pending).value);
      ReportedStep(Merge(pending), ticks, Merge(r.pending));
      assert events + ([event] + Reported(Merge(r.pending), r.lastTicks)) ==
             events + [event] + Reported(Merge(r.pending), r.lastTicks);
      events := events + [event];
      r.NoneValid();
    }
    NothingMerges(r.pending);
    assert events + [] == events;
  }

  lemma ReportedStep(all: seq<Tagged>, from: int, left: seq<Tagged>)
    requires |all| > 0 && all[1..] == left
    ensures Reported(all, from) ==
            [Event(KindOf(all[0].due.message, left == []), all[0].due.tick - from)] + Reported(left, all[0].due.tick)
  {}

  lemma NothingMerges(songs: seq<seq<Due>>)
    requires Earliest(songs).None?
    ensures Merge(songs) == [] && forall from :: Reported(Merge(songs), from) == []
  {}

  function Shift(deltaFlag: bool, lastDeltaTicks: nat): nat {
    if deltaFlag then lastDeltaTicks else 0
  }

  function Rebased(t: Track, due: bool, shift: nat): Track {
    if due && shift <= t.delta then t.(delta := t.delta - shift) else t
  }

  /** A valid track's first pending event is due `delta` ticks after the origin, and not in the past. */
  ghost predicate HeadDue(t: Track, valid: bool, shift: nat, lastTicks: nat, events: seq<Due>) {
    if valid then
      && shift <= t.delta < NEVER && |events| > 0
      && events[0].tick == lastTicks - shift + t.delta
    else events == []
  }

  lemma NoneBefore(tracks: seq<seq<Due>>)
    ensures EarliestOf(tracks, 0).None?
  {}

  lemma EarliestStep(tracks: seq<seq<Due>>, n: nat)
    requires n < |tracks|
    ensures var before := EarliestOf(tracks, n);
            EarliestOf(tracks, n + 1) ==
            if |tracks[n]| > 0 && (before.None? || tracks[n][0].tick < tracks[before.value][0].tick) then Some(n)
            else before
  {}

  /** The scan that reading and peeking share: no subtraction in it underflows. */
  method Scan(tracks: seq<Track>, valid: seq<bool>, deltaFlag: bool, lastDeltaTicks: nat, ghost pending: seq<seq<Due>>,
              ghost lastTicks: nat)
    returns (after: seq<Track>, firstTime: nat, firstTrack: nat)
    requires |tracks| == |valid| == |pending| == TRACKS && true in valid && lastDeltaTicks < NEVER
    requires forall i :: 0 <= i < TRACKS ==>
               HeadDue(tracks[i], valid[i], Shift(deltaFlag, lastDeltaTicks), lastTicks, pending[i])
    ensures |after| == TRACKS
    ensures forall i :: 0 <= i < TRACKS ==>
              after[i] == Rebased(tracks[i], valid[i], Shift(deltaFlag, lastDeltaTicks))
    ensures firstTrack < TRACKS && Earliest(pending) == Some(firstTrack) && valid[firstTrack]
    ensures firstTime == after[firstTrack].delta == pending[firstTrack][0].tick - lastTicks < NEVER
  {
    hide WrapSub, EarliestOf;
    NoneBefore(pending);
    after, firstTime, firstTrack := tracks, NEVER, 0;
    ghost var shift := Shift(deltaFlag, lastDeltaTicks);
    for i := 0 to TRACKS
      invariant |after| == TRACKS && firstTrack < TRACKS
      invariant forall j :: 0 <= j < TRACKS ==>
                  after[j] == Rebased(tracks[j], j < i && valid[j], shift)
      invariant match EarliestOf(pending, i)
                case None => firstTime == NEVER && forall j :: 0 <= j < i ==> !valid[j]
                case Some(e) => firstTrack == e && valid[e] && firstTime == after[e].delta < NEVER
                                && firstTime == pending[e][0].tick - lastTicks
    {
      assert HeadDue(tracks[i], valid[i], shift, lastTicks, pending[i]);
      EarliestStep(pending, i);
      if valid[i] {
        if deltaFlag {
          DifferenceFits(after[i].delta, lastDeltaTicks);
          after := after[i := after[i].(delta := WrapSub(after[i].delta, lastDeltaTicks))];
        }
        if after[i].delta < firstTime {
          firstTime, firstTrack := after[i].delta, i;
        }
      }
    }
  }

  lemma DropMore(bytes: seq<byte>, m: nat, n: nat)
    requires m + n <= |bytes|
    ensures bytes[m..][n..] == bytes[m + n..]
  {}
}
